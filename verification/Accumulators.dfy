/**
 The rows that PaymentsUpsert builds for one DO UPDATE statement, with the Go map from a payment id
 to the index of its row. Of a row only the id and the amount set by the statement are kept.
 */
module Accumulators {
  import opened BigInts

  datatype Row<K> = Row(id: K, amount: BigInt)

  datatype Accumulator<!K(==)> = Accumulator(rows: seq<Row<K>>, seen: map<K, nat>)
  {
    ghost function Amounts(): set<BigInt> {
      set i | 0 <= i < |rows| :: rows[i].amount
    }

    /** The index map points at the one row with each id; the amounts are objects of their own. */
    ghost predicate Valid() {
      && (forall id | id in seen :: seen[id] < |rows| && rows[seen[id]].id == id)
      && (forall i | 0 <= i < |rows| :: rows[i].id in seen && seen[rows[i].id] == i)
      && (forall i, j | 0 <= i < j < |rows| :: rows[i].amount != rows[j].amount)
    }

    /** The amount held for each id. */
    ghost predicate Holds(contents: map<K, int>)
      reads Amounts()
    {
      && Valid() && contents.Keys == seen.Keys
      && forall i | 0 <= i < |rows| :: rows[i].amount.value == contents[rows[i].id]
    }

    /** Adds to an amount in place. */
    method AddInPlace(id: K, amount: BigInt, ghost contents: map<K, int>, ghost value: int)
      requires Holds(contents) && id in seen
      requires amount !in Amounts() && amount.value == value
      modifies Amounts()
      ensures Holds(contents[id := contents[id] + value])
    {
      var sum := rows[seen[id]].amount;
      sum.Add(sum, amount);
    }

    /** Opens a row with a fresh copy of an amount. */
    method Open(id: K, amount: BigInt, ghost contents: map<K, int>) returns (acc: Accumulator<K>)
      requires Holds(contents) && id !in seen
      ensures acc.Holds(contents[id := amount.value])
      ensures fresh(acc.Amounts() - Amounts())
    {
      var copy := BigInt.Copy(amount);
      acc := Accumulator(rows + [Row(id, copy)], seen[id := |rows|]);
    }

    /** Replaces the amount of a row by a fresh copy of another. */
    method Replace(id: K, amount: BigInt, ghost contents: map<K, int>) returns (acc: Accumulator<K>)
      requires Holds(contents) && id in seen
      ensures acc.Holds(contents[id := amount.value])
      ensures fresh(acc.Amounts() - Amounts())
    {
      var copy := BigInt.Copy(amount);
      acc := this.(rows := rows[seen[id] := Row(id, copy)]);
    }

    /** One arm of the delta switch: adds in place, or opens a row. */
    method Add(id: K, amount: BigInt, ghost contents: map<K, int>, ghost value: int) returns (acc: Accumulator<K>)
      requires Holds(contents)
      requires amount !in Amounts() && amount.value == value
      modifies Amounts()
      ensures acc.Holds(contents[id := At(contents, id) + value])
      ensures fresh(acc.Amounts() - Amounts())
    {
      if id in seen {
        AddInPlace(id, amount, contents, value);
        acc := this;
      } else {
        acc := Open(id, amount, contents);
      }
    }

    /** The last amount put for an id wins. */
    method Put(id: K, amount: BigInt, ghost contents: map<K, int>) returns (acc: Accumulator<K>)
      requires Holds(contents)
      ensures acc.Holds(contents[id := amount.value])
      ensures fresh(acc.Amounts() - Amounts())
    {
      if id in seen {
        acc := Replace(id, amount, contents);
      } else {
        acc := Open(id, amount, contents);
      }
    }
  }

  function At<K>(m: map<K, int>, id: K): int {
    if id in m then m[id] else 0
  }

  function Empty<K>(): Accumulator<K> {
    Accumulator([], map[])
  }
}
