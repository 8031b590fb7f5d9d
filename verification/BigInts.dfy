/** Mutable big integers, passed by reference as Go passes *big.Int. */
module BigInts {
  import opened Common

  class BigInt {
    var value: int

    constructor (value: int)
      ensures this.value == value
    {
      this.value := value;
    }

    /** z.Add(x, y): stores the sum in the receiver, which may be one of the arguments. */
    method Add(x: BigInt, y: BigInt)
      modifies this
      ensures value == old(x.value) + old(y.value)
    {
      value := x.value + y.value;
    }

    /** new(big.Int).Set(x): a copy that shares nothing with x. */
    static method Copy(x: BigInt) returns (z: BigInt)
      ensures fresh(z) && z.value == x.value
    {
      z := new BigInt(x.value);
    }
  }

  /** The column value of a reference: NULL for nil. */
  function Value(x: BigInt?): Option<int>
    reads x
  {
    if x == null then None else Some(x.value)
  }
}
