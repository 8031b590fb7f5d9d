/** Histories of adjustments: paths of a transition relation, single decisions, and which row is current. */
module PaymentInitiationTheorems {
  import opened Common
  import opened PaymentInitiations
  import Outbox
  import OutboxProtocol

  // ---- Selections -----------------------------------------------------------------------------

  lemma {:induction false} HistoryElements(adjs: Adjustments, pi: InitiationId)
    ensures forall a :: a in HistoryOf(adjs, pi) <==> a in adjs && a.id.initiation == pi
  {
    if adjs != [] {
      HistoryElements(adjs[..|adjs| - 1], pi);
      assert adjs == adjs[..|adjs| - 1] + [adjs[|adjs| - 1]];
    }
  }

  lemma {:induction false} HistoryAppend(adjs: Adjustments, more: Adjustments, pi: InitiationId)
    ensures HistoryOf(adjs + more, pi) == HistoryOf(adjs, pi) + HistoryOf(more, pi)
    decreases |more|
  {
    if more == [] {
      assert adjs + more == adjs;
    } else {
      HistoryAppend(adjs, more[..|more| - 1], pi);
      assert (adjs + more)[..|adjs + more| - 1] == adjs + more[..|more| - 1];
    }
  }

  predicate NoneNewer(history: Adjustments, a: Adjustment) {
    forall b | b in history :: b.createdAt <= a.createdAt
  }

  /** The newest row is found, and the last one among the newest. */
  lemma {:induction false} LatestIsNewest(adjs: Adjustments, pi: InitiationId)
    ensures Latest(adjs, pi).None? <==> HistoryOf(adjs, pi) == []
    ensures Latest(adjs, pi).Some? ==> Latest(adjs, pi).value in HistoryOf(adjs, pi)
    ensures Latest(adjs, pi).Some? ==> NoneNewer(HistoryOf(adjs, pi), Latest(adjs, pi).value)
    ensures HistoryOf(adjs, pi) != [] ==>
              var h := HistoryOf(adjs, pi);
              NoneNewer(h, h[|h| - 1]) ==> Latest(adjs, pi) == Some(h[|h| - 1])
  {
    if adjs != [] {
      var init, last := adjs[..|adjs| - 1], adjs[|adjs| - 1];
      LatestIsNewest(init, pi);
      if last.id.initiation == pi {
        var h := HistoryOf(adjs, pi);
        assert last == h[|h| - 1] && last in h;
        assert forall b | b in HistoryOf(init, pi) :: b in h;
      }
    }
  }

  lemma LastOfHistory(adjs: Adjustments, pi: InitiationId, i: nat)
    requires i < |adjs| && adjs[i].id.initiation == pi
    requires forall j | i < j < |adjs| :: adjs[j].id.initiation != pi
    ensures var h := HistoryOf(adjs, pi); h != [] && h[|h| - 1] == adjs[i]
    decreases |adjs|
  {
    var n := |adjs| - 1;
    if i < n {
      assert forall j | i < j < n :: adjs[..n][j] == adjs[j];
      LastOfHistory(adjs[..n], pi, i);
    }
  }

  lemma {:induction false} LastPosition(adjs: Adjustments, pi: InitiationId) returns (i: nat)
    requires HistoryOf(adjs, pi) != []
    ensures i < |adjs| && adjs[i].id.initiation == pi && forall j | i < j < |adjs| :: adjs[j].id.initiation != pi
  {
    var n := |adjs| - 1;
    if adjs[n].id.initiation == pi {
      i := n;
    } else {
      i := LastPosition(adjs[..n], pi);
      assert forall j | i < j < n :: adjs[j] == adjs[..n][j];
    }
  }

  /** The anti-join selects exactly one row of every initiation that has one: the last appended. */
  lemma CurrentIsTheLastAppended(adjs: Adjustments, pi: InitiationId)
    ensures HistoryOf(adjs, pi) == [] ==> Current(adjs, pi) == {}
    ensures var h := HistoryOf(adjs, pi);
            h != [] ==> exists i | 0 <= i < |adjs| :: Current(adjs, pi) == {i} && adjs[i] == h[|h| - 1]
  {
    HistoryElements(adjs, pi);
    if HistoryOf(adjs, pi) == [] {
      forall i | 0 <= i < |adjs| ensures adjs[i].id.initiation != pi {
        assert adjs[i] in adjs;
      }
    } else {
      var i := LastPosition(adjs, pi);
      LastOfHistory(adjs, pi, i);
      assert Current(adjs, pi) == {i};
    }
  }

  /**
   The row that the status filter sees is the one that compare-and-append reads exactly when no row
   of the initiation is newer than the last appended one.
   */
  lemma CurrentIsLatestIff(adjs: Adjustments, pi: InitiationId, i: int)
    requires Current(adjs, pi) == {i}
    ensures 0 <= i < |adjs|
    ensures Latest(adjs, pi) == Some(adjs[i]) <==> NoneNewer(HistoryOf(adjs, pi), adjs[i])
  {
    assert i in Current(adjs, pi);
    LastOfHistory(adjs, pi, i);
    LatestIsNewest(adjs, pi);
  }

  /** When a clock goes back, the filter shows one status and compare-and-append reads another. */
  lemma BackwardClockSplitsTheTwo(pi: InitiationId)
    ensures var adjs := [Adjustment(AdjustmentId(pi, 2, Processing), 2, Processing),
                         Adjustment(AdjustmentId(pi, 1, Processed), 1, Processed)];
            && HasStatus(adjs, pi, Processed) && !HasStatus(adjs, pi, Processing)
            && Latest(adjs, pi) == Some(adjs[0])
  {
    var adjs := [Adjustment(AdjustmentId(pi, 2, Processing), 2, Processing),
                 Adjustment(AdjustmentId(pi, 1, Processed), 1, Processed)];
    assert adjs[..1] == [adjs[0]] && adjs[..1][..0] == [];
    assert Latest(adjs[..1], pi) == Some(adjs[0]);
    assert 1 in Current(adjs, pi) && 0 !in Current(adjs, pi) && adjs[1].status == Processed;
  }

  // ---- Compare and append ---------------------------------------------------------------------

  /** What the foreign key gives: no adjustment without its initiation. */
  predicate Sound(t: Tables) {
    Referenced(t.adjustments, t.initiations)
  }

  ghost predicate HasKeys(keys: Keys) {
    && (forall pi: InitiationId :: keys.ofInitiation(pi) != "")
    && (forall id: AdjustmentId :: keys.ofAdjustment(id) != "")
  }

  /**
   The outcome of compare-and-append: an error without any adjustment; true, and one more row,
   exactly when the newest row is acceptable and the id is new; otherwise false and nothing changes.
   */
  lemma CompareAndAppend(keys: Keys, now: Time, t: Tables, a: Adjustment, acceptable: Adjustment -> bool)
    requires Sound(t) && HasKeys(keys)
    ensures var latest, r := Latest(t.adjustments, a.id.initiation), UpsertIfPredicate(keys, now, t, a, acceptable);
            && (r.Err? <==> HistoryOf(t.adjustments, a.id.initiation) == [])
            && (r.Err? ==> r.error == NotFound)
            && (r.Ok? ==> (r.value.1 <==> acceptable(latest.value) && a.id !in Ids(t.adjustments)))
            && (r.Ok? && r.value.1 ==>
                  r.value.0.adjustments == t.adjustments + [a] && r.value.0.initiations == t.initiations)
            && (r.Ok? && r.value.1 ==>
                  Outbox.Insert(t.outbox, [AdjustmentEvent(keys, now, a)]) == Ok(r.value.0.outbox))
            && (r.Ok? && !r.value.1 ==> r.value.0 == t)
  {
    LatestIsNewest(t.adjustments, a.id.initiation);
    HistoryElements(t.adjustments, a.id.initiation);
  }

  // ---- Runs -----------------------------------------------------------------------------------

  datatype Step =
    | InsertStep(now: Time, initiation: InitiationId, adjustments: Adjustments)
    | UpsertStep(now: Time, adjustment: Adjustment)
    | CompareStep(now: Time, adjustment: Adjustment, acceptable: Adjustment -> bool)
    | OutboxStep(outbox: Outbox.State)

  function Apply(keys: Keys, t: Tables, step: Step): Tables {
    match step
    case InsertStep(now, pi, adjs) =>
      (match Insert(keys, now, t, pi, adjs)
       case Ok(t') => t'
       case Err(_) => t)
    case UpsertStep(now, a) =>
      (match Append(keys, now, t, a)
       case Ok(r) => r.0
       case Err(_) => t)
    case CompareStep(now, a, acceptable) =>
      (match UpsertIfPredicate(keys, now, t, a, acceptable)
       case Ok(r) => r.0
       case Err(_) => t)
    case OutboxStep(outbox) => t.(outbox := outbox)
  }

  const EMPTY := Tables({}, [], Outbox.State([], {}))

  function Run(keys: Keys, steps: seq<Step>): Tables {
    if steps == [] then EMPTY else Apply(keys, Run(keys, steps[..|steps| - 1]), steps[|steps| - 1])
  }

  lemma {:induction false} NewRowsElements(stored: set<AdjustmentId>, adjs: Adjustments)
    ensures forall a | a in NewRows(stored, adjs) :: a in adjs && a.id !in stored
  {
    if adjs != [] {
      NewRowsElements(stored, adjs[..|adjs| - 1]);
      assert adjs == adjs[..|adjs| - 1] + [adjs[|adjs| - 1]];
    }
  }

  lemma {:induction false} RunIsSound(keys: Keys, steps: seq<Step>)
    ensures Sound(Run(keys, steps))
  {
    if steps != [] {
      RunIsSound(keys, steps[..|steps| - 1]);
    }
  }

  /** An insert brings at most one adjustment of an initiation, and only of the one it creates. */
  predicate StartsHistory(step: Step, pi: InitiationId)
    requires step.InsertStep?
  {
    && (forall a | a in step.adjustments && a.id.initiation == pi :: step.initiation == pi)
    && (forall i, j | 0 <= i < j < |step.adjustments| ::
          step.adjustments[i].id.initiation == pi ==> step.adjustments[j].id.initiation != pi)
  }

  /**
   Every later append of an initiation respects the relation: through its predicate, or, for a plain
   append, whatever the previous row is.
   */
  ghost predicate Respects(step: Step, pi: InitiationId, r: (Adjustment, Adjustment) -> bool) {
    match step
    case OutboxStep(_) => true
    case InsertStep(_, _, _) => StartsHistory(step, pi)
    case UpsertStep(_, a) => a.id.initiation == pi ==> forall previous :: r(previous, a)
    case CompareStep(_, a, acceptable) =>
      a.id.initiation == pi ==> forall previous :: acceptable(previous) ==> r(previous, a)
  }

  predicate InOrder(history: Adjustments) {
    forall i, j | 0 <= i < j < |history| :: history[i].createdAt <= history[j].createdAt
  }

  predicate IsPath(history: Adjustments, r: (Adjustment, Adjustment) -> bool) {
    forall i | 0 <= i < |history| - 1 :: r(history[i], history[i + 1])
  }

  lemma {:induction false} NoHistory(adjs: Adjustments, pi: InitiationId)
    requires forall a | a in adjs :: a.id.initiation != pi
    ensures HistoryOf(adjs, pi) == []
  {
    if adjs != [] {
      assert adjs[|adjs| - 1] in adjs;
      NoHistory(adjs[..|adjs| - 1], pi);
    }
  }

  lemma {:induction false} AtMostOneOf(adjs: Adjustments, pi: InitiationId)
    requires forall i, j | 0 <= i < j < |adjs| :: adjs[i].id.initiation == pi ==> adjs[j].id.initiation != pi
    ensures |HistoryOf(adjs, pi)| <= 1
  {
    if adjs != [] {
      var init, last := adjs[..|adjs| - 1], adjs[|adjs| - 1];
      AtMostOneOf(init, pi);
      if last.id.initiation == pi {
        forall a | a in init ensures a.id.initiation != pi {
          var i :| 0 <= i < |init| && init[i] == a;
          assert adjs[i] == a;
        }
        NoHistory(init, pi);
      }
    }
  }

  lemma {:induction false} NewRowsOfOne(stored: set<AdjustmentId>, adjs: Adjustments, pi: InitiationId)
    requires forall i, j | 0 <= i < j < |adjs| :: adjs[i].id.initiation == pi ==> adjs[j].id.initiation != pi
    ensures |HistoryOf(NewRows(stored, adjs), pi)| <= |HistoryOf(adjs, pi)| <= 1
  {
    AtMostOneOf(adjs, pi);
    if adjs != [] {
      var init, last := adjs[..|adjs| - 1], adjs[|adjs| - 1];
      NewRowsOfOne(stored, init, pi);
      var rows := NewRows(stored, init);
      assert (rows + [last])[..|rows|] == rows;
    }
  }

  lemma SingleHistory(a: Adjustment, pi: InitiationId)
    ensures HistoryOf([a], pi) == if a.id.initiation == pi then [a] else []
  {
    assert [a][..0] == [];
  }

  /** A new initiation has no history yet, and starts it with at most one row. */
  lemma InsertStartsPath(keys: Keys, t: Tables, now: Time, created: InitiationId, adjs: Adjustments, pi: InitiationId)
    requires Sound(t) && StartsHistory(InsertStep(now, created, adjs), pi)
    requires Insert(keys, now, t, created, adjs).Ok?
    ensures var h := HistoryOf(t.adjustments, pi);
            var h' := HistoryOf(Insert(keys, now, t, created, adjs).value.adjustments, pi);
            h' == h || (h == [] && |h'| == 1)
  {
    var inserted := NewRows(Ids(t.adjustments), adjs);
    NewRowsOfOne(Ids(t.adjustments), adjs, pi);
    HistoryAppend(t.adjustments, inserted, pi);
    if HistoryOf(inserted, pi) != [] {
      HistoryElements(inserted, pi);
      NewRowsElements(Ids(t.adjustments), adjs);
      assert HistoryOf(inserted, pi)[0] in inserted;
      NoHistory(t.adjustments, pi);
    }
  }

  /** In an ordered history the newest row is the last appended one. */
  lemma LatestOfOrdered(adjs: Adjustments, pi: InitiationId)
    requires InOrder(HistoryOf(adjs, pi)) && HistoryOf(adjs, pi) != []
    ensures var h := HistoryOf(adjs, pi); Latest(adjs, pi) == Some(h[|h| - 1])
  {
    var h := HistoryOf(adjs, pi);
    LatestIsNewest(adjs, pi);
    forall b | b in h ensures b.createdAt <= h[|h| - 1].createdAt {
      var i :| 0 <= i < |h| && h[i] == b;
    }
  }

  lemma PathGrows(h: Adjustments, a: Adjustment, r: (Adjustment, Adjustment) -> bool)
    requires IsPath(h, r) && (h != [] ==> r(h[|h| - 1], a))
    ensures IsPath(h + [a], r)
  {
    forall i | 0 <= i < |h + [a]| - 1 ensures r((h + [a])[i], (h + [a])[i + 1]) {
      assert i < |h| - 1 ==> r(h[i], h[i + 1]);
    }
  }

  /** An append that respects the relation, after the newest row, extends a path. */
  lemma AppendExtendsPath(adjs: Adjustments, a: Adjustment, pi: InitiationId, r: (Adjustment, Adjustment) -> bool)
    requires InOrder(HistoryOf(adjs, pi)) && IsPath(HistoryOf(adjs, pi), r)
    requires a.id.initiation == pi && Latest(adjs, pi).Some? ==> r(Latest(adjs, pi).value, a)
    ensures HistoryOf(adjs, pi) <= HistoryOf(adjs + [a], pi) && IsPath(HistoryOf(adjs + [a], pi), r)
  {
    assert HistoryOf(adjs + [a], pi) == HistoryOf(adjs, pi) + if a.id.initiation == pi then [a] else [] by {
      HistoryAppend(adjs, [a], pi);
      SingleHistory(a, pi);
    }
    if a.id.initiation == pi {
      if HistoryOf(adjs, pi) != [] {
        LatestOfOrdered(adjs, pi);
      }
      PathGrows(HistoryOf(adjs, pi), a, r);
    }
  }

  /** A step leaves a history alone, starts it with one row, or appends one row that respects the relation. */
  lemma StepExtendsPath(keys: Keys, t: Tables, step: Step, pi: InitiationId, r: (Adjustment, Adjustment) -> bool)
    requires Sound(t) && Respects(step, pi, r)
    requires InOrder(HistoryOf(t.adjustments, pi)) && IsPath(HistoryOf(t.adjustments, pi), r)
    ensures HistoryOf(t.adjustments, pi) <= HistoryOf(Apply(keys, t, step).adjustments, pi)
    ensures IsPath(HistoryOf(Apply(keys, t, step).adjustments, pi), r)
  {
    match step
    case OutboxStep(_) =>
    case InsertStep(now, created, adjs) =>
      if Insert(keys, now, t, created, adjs).Ok? {
        InsertStartsPath(keys, t, now, created, adjs, pi);
      }
    case UpsertStep(_, a) => AppendExtendsPath(t.adjustments, a, pi, r);
    case CompareStep(_, a, acceptable) =>
      if Apply(keys, t, step).adjustments != t.adjustments {
        AppendExtendsPath(t.adjustments, a, pi, r);
      }
  }

  /**
   Compare-and-append over whole runs: when rows of an initiation arrive in nondecreasing creation
   time and every append respects the relation, the whole history is a path of the relation.
   */
  lemma {:induction false} HistoriesArePaths(keys: Keys, steps: seq<Step>, pi: InitiationId,
                                             r: (Adjustment, Adjustment) -> bool)
    requires forall step | step in steps :: Respects(step, pi, r)
    requires InOrder(HistoryOf(Run(keys, steps).adjustments, pi))
    ensures IsPath(HistoryOf(Run(keys, steps).adjustments, pi), r)
  {
    if steps != [] {
      var init, last := steps[..|steps| - 1], steps[|steps| - 1];
      assert last in steps && forall s | s in init :: s in steps;
      HistoryOnlyGrows(keys, Run(keys, init), last, pi);
      assert InOrder(HistoryOf(Run(keys, init).adjustments, pi));
      HistoriesArePaths(keys, init, pi, r);
      RunIsSound(keys, init);
      StepExtendsPath(keys, Run(keys, init), last, pi, r);
    }
  }

  lemma HistoryOnlyGrows(keys: Keys, t: Tables, step: Step, pi: InitiationId)
    ensures HistoryOf(t.adjustments, pi) <= HistoryOf(Apply(keys, t, step).adjustments, pi)
  {
    match step
    case OutboxStep(_) =>
    case InsertStep(_, _, adjs) => HistoryAppend(t.adjustments, NewRows(Ids(t.adjustments), adjs), pi);
    case UpsertStep(_, a) => HistoryAppend(t.adjustments, [a], pi);
    case CompareStep(_, a, _) => HistoryAppend(t.adjustments, [a], pi);
  }

  /** When nothing may follow a decision, at most one decision is ever appended, and nothing after it. */
  lemma AtMostOneDecision(keys: Keys, steps: seq<Step>, pi: InitiationId, r: (Adjustment, Adjustment) -> bool,
                          decision: Adjustment -> bool)
    requires forall step | step in steps :: Respects(step, pi, r)
    requires InOrder(HistoryOf(Run(keys, steps).adjustments, pi))
    requires forall a, b :: decision(a) ==> !r(a, b)
    ensures var h := HistoryOf(Run(keys, steps).adjustments, pi);
            forall i | 0 <= i < |h| && decision(h[i]) :: i == |h| - 1
  {
    HistoriesArePaths(keys, steps, pi, r);
    var h := HistoryOf(Run(keys, steps).adjustments, pi);
    forall i | 0 <= i < |h| - 1 ensures !decision(h[i]) {
      assert r(h[i], h[i + 1]);
    }
  }

  // ---- Reversals ------------------------------------------------------------------------------

  /** The guard of the reversal workflow. */
  const NOT_REVERSING := [ReverseProcessing]

  /** A reversal starts through the guard only; all other statuses may be appended at will. */
  ghost predicate ReversesThroughGuard(step: Step, pi: InitiationId) {
    match step
    case OutboxStep(_) => true
    case InsertStep(_, _, _) => StartsHistory(step, pi)
    case UpsertStep(_, a) => a.id.initiation == pi ==> a.status != ReverseProcessing
    case CompareStep(_, a, acceptable) =>
      a.id.initiation == pi && a.status == ReverseProcessing ==> acceptable == StatusNotIn(NOT_REVERSING)
  }

  /** All that the guard gives by itself: two reversals are never started one right after the other. */
  lemma ReversalsAreNeverAdjacent(keys: Keys, steps: seq<Step>, pi: InitiationId)
    requires forall step | step in steps :: ReversesThroughGuard(step, pi)
    requires InOrder(HistoryOf(Run(keys, steps).adjustments, pi))
    ensures var h := HistoryOf(Run(keys, steps).adjustments, pi);
            forall i | 0 <= i < |h| - 1 :: h[i].status == ReverseProcessing ==> h[i + 1].status != ReverseProcessing
  {
    var r := (a: Adjustment, b: Adjustment) => a.status == ReverseProcessing ==> b.status != ReverseProcessing;
    forall step | step in steps ensures Respects(step, pi, r) {
      assert ReversesThroughGuard(step, pi);
      if step.CompareStep? {
        assert forall previous: Adjustment ::
                 StatusNotIn(NOT_REVERSING)(previous) ==> previous.status != ReverseProcessing;
      }
    }
    HistoriesArePaths(keys, steps, pi, r);
    var h := HistoryOf(Run(keys, steps).adjustments, pi);
    forall i | 0 <= i < |h| - 1 ensures h[i].status == ReverseProcessing ==> h[i + 1].status != ReverseProcessing {
      assert r(h[i], h[i + 1]);
    }
  }

  /** A reversal ends by failing or by being reversed. */
  predicate Ends(a: Adjustment) {
    a.status == ReverseFailed || a.status == Reversed
  }

  ghost predicate OpenAt(h: Adjustments, i: int) {
    0 <= i < |h| && h[i].status == ReverseProcessing && forall k | i < k < |h| :: !Ends(h[k])
  }

  /** A reversal has started and not ended. */
  ghost predicate IsOpen(h: Adjustments) {
    exists i :: OpenAt(h, i)
  }

  /** The last appended row that is about a reversal at all. */
  function LatestOfReversal(h: Adjustments): Option<Adjustment> {
    if h == [] then None
    else
      var last := h[|h| - 1];
      if last.status == ReverseProcessing || Ends(last) then Some(last) else LatestOfReversal(h[..|h| - 1])
  }

  /** A reversal is open exactly when the last appended row about reversals is a start. */
  lemma {:induction false} IsOpenIff(h: Adjustments)
    ensures IsOpen(h) <==> LatestOfReversal(h).Some? && LatestOfReversal(h).value.status == ReverseProcessing
  {
    if h != [] {
      var n := |h| - 1;
      IsOpenIff(h[..n]);
      if h[n].status == ReverseProcessing {
        assert OpenAt(h, n);
      } else if !Ends(h[n]) {
        if i :| OpenAt(h[..n], i) {
          assert OpenAt(h, i);
        }
        if i :| OpenAt(h, i) {
          assert OpenAt(h[..n], i);
        }
      }
    }
  }

  /** A reversal starts while one before it is open. */
  ghost predicate Overlaps(h: Adjustments) {
    exists j | 0 <= j < |h| :: h[j].status == ReverseProcessing && IsOpen(h[..j])
  }

  lemma OverlapsAfterAppend(h: Adjustments, a: Adjustment)
    ensures Overlaps(h + [a]) <==> Overlaps(h) || (a.status == ReverseProcessing && IsOpen(h))
  {
    var longer := h + [a];
    assert longer[..|h|] == h;
    forall j | 0 <= j < |h| ensures longer[..j] == h[..j] && longer[j] == h[j] {
    }
    if Overlaps(h) {
      var j :| 0 <= j < |h| && h[j].status == ReverseProcessing && IsOpen(h[..j]);
      assert longer[j].status == ReverseProcessing && IsOpen(longer[..j]);
    }
    if a.status == ReverseProcessing && IsOpen(h) {
      assert longer[|h|].status == ReverseProcessing && IsOpen(longer[..|h|]);
    }
  }

  /**
   The guard looks at the newest row only, by creation time. It lets a second reversal in exactly when
   a reversal is open and the newest row has another status: a status appended since with a later time,
   or one stamped in the future before it.
   */
  predicate GuardIsBlind(adjs: Adjustments, pi: InitiationId) {
    var latest, ofReversal := Latest(adjs, pi), LatestOfReversal(HistoryOf(adjs, pi));
    && latest.Some? && latest.value.status != ReverseProcessing
    && ofReversal.Some? && ofReversal.value.status == ReverseProcessing
  }

  /** One call of the workflow, on any table: rows may have arrived in any order. */
  lemma GuardedReversalOverlapsIff(keys: Keys, now: Time, t: Tables, a: Adjustment)
    requires Sound(t) && HasKeys(keys) && a.status == ReverseProcessing
    ensures var pi := a.id.initiation;
            var h, r := HistoryOf(t.adjustments, pi), UpsertIfPredicate(keys, now, t, a, StatusNotIn(NOT_REVERSING));
            var slips := a.id !in Ids(t.adjustments) && GuardIsBlind(t.adjustments, pi);
            && (r.Ok? <==> h != [])
            && (r.Ok? ==> (Overlaps(HistoryOf(r.value.0.adjustments, pi)) <==> Overlaps(h) || slips))
            && (r.Ok? ==> (r.value.1 && IsOpen(h) <==> slips))
  {
    var pi := a.id.initiation;
    CompareAndAppend(keys, now, t, a, StatusNotIn(NOT_REVERSING));
    LatestIsNewest(t.adjustments, pi);
    IsOpenIff(HistoryOf(t.adjustments, pi));
    AppendOverlapsIff(t, a, pi);
  }

  /** A step of a run starts a reversal of an initiation where the guard is blind. */
  ghost predicate SlipsThrough(t: Tables, step: Step, pi: InitiationId) {
    && StartsNewReversal(t, step, pi) && GuardIsBlind(t.adjustments, pi)
  }

  predicate StartsNewReversal(t: Tables, step: Step, pi: InitiationId) {
    && step.CompareStep? && step.adjustment.id.initiation == pi && step.adjustment.status == ReverseProcessing
    && step.adjustment.id !in Ids(t.adjustments)
  }

  ghost predicate SomeSlipsThrough(keys: Keys, steps: seq<Step>, pi: InitiationId) {
    steps != [] &&
    var init, last := steps[..|steps| - 1], steps[|steps| - 1];
    SomeSlipsThrough(keys, init, pi) || SlipsThrough(Run(keys, init), last, pi)
  }

  lemma CompareOverlapsIff(keys: Keys, t: Tables, step: Step, pi: InitiationId)
    requires step.CompareStep? && step.adjustment.id.initiation == pi
    requires Sound(t) && HasKeys(keys) && ReversesThroughGuard(step, pi)
    ensures Overlaps(HistoryOf(Apply(keys, t, step).adjustments, pi)) <==>
            Overlaps(HistoryOf(t.adjustments, pi)) || SlipsThrough(t, step, pi)
  {
    var h, a := HistoryOf(t.adjustments, pi), step.adjustment;
    CompareAndAppend(keys, step.now, t, a, step.acceptable);
    LatestIsNewest(t.adjustments, pi);
    AppendOverlapsIff(t, a, pi);
    IsOpenIff(h);
  }

  /** What one step does to the overlaps of a history. */
  lemma StepOverlapsIff(keys: Keys, t: Tables, step: Step, pi: InitiationId)
    requires Sound(t) && HasKeys(keys) && ReversesThroughGuard(step, pi)
    ensures Overlaps(HistoryOf(Apply(keys, t, step).adjustments, pi)) <==>
            Overlaps(HistoryOf(t.adjustments, pi)) || SlipsThrough(t, step, pi)
  {
    match step
    case OutboxStep(_) =>
    case InsertStep(now, created, adjs) =>
      if Insert(keys, now, t, created, adjs).Ok? {
        InsertStartsPath(keys, t, now, created, adjs, pi);
      }
    case UpsertStep(_, a) => AppendOverlapsIff(t, a, pi);
    case CompareStep(_, a, _) =>
      if a.id.initiation == pi {
        CompareOverlapsIff(keys, t, step, pi);
      } else {
        AppendOverlapsIff(t, a, pi);
      }
  }

  lemma AppendOverlapsIff(t: Tables, a: Adjustment, pi: InitiationId)
    ensures var h := HistoryOf(t.adjustments, pi);
            Overlaps(HistoryOf(t.adjustments + [a], pi)) <==>
            Overlaps(h) || (a.id.initiation == pi && a.status == ReverseProcessing && IsOpen(h))
  {
    HistoryAppend(t.adjustments, [a], pi);
    SingleHistory(a, pi);
    OverlapsAfterAppend(HistoryOf(t.adjustments, pi), a);
  }

  /**
   No reversal starts while the one before it is still being processed, exactly in the runs in which
   no start is attempted where the guard is blind, whatever the order of creation times.
   */
  lemma {:induction false} ReversalsOverlapIff(keys: Keys, steps: seq<Step>, pi: InitiationId)
    requires HasKeys(keys) && forall step | step in steps :: ReversesThroughGuard(step, pi)
    ensures Overlaps(HistoryOf(Run(keys, steps).adjustments, pi)) <==> SomeSlipsThrough(keys, steps, pi)
  {
    if steps != [] {
      var init, last := steps[..|steps| - 1], steps[|steps| - 1];
      assert last in steps && forall s | s in init :: s in steps;
      ReversalsOverlapIff(keys, init, pi);
      RunIsSound(keys, init);
      StepOverlapsIff(keys, Run(keys, init), last, pi);
    }
  }

  // ---- Adjacent starts ------------------------------------------------------------------------

  /** A reversal starts right after another one. */
  ghost predicate HasAdjacent(h: Adjustments) {
    exists i | 0 <= i < |h| - 1 :: h[i].status == ReverseProcessing && h[i + 1].status == ReverseProcessing
  }

  predicate LastStarts(h: Adjustments) {
    h != [] && h[|h| - 1].status == ReverseProcessing
  }

  lemma AdjacentAfterAppend(h: Adjustments, a: Adjustment)
    ensures HasAdjacent(h + [a]) <==> HasAdjacent(h) || (a.status == ReverseProcessing && LastStarts(h))
  {
    var longer := h + [a];
    if i :| 0 <= i < |h| - 1 && h[i].status == ReverseProcessing && h[i + 1].status == ReverseProcessing {
      assert longer[i].status == ReverseProcessing && longer[i + 1].status == ReverseProcessing;
    }
    if LastStarts(h) && a.status == ReverseProcessing {
      assert longer[|h| - 1].status == ReverseProcessing && longer[|h| - 1 + 1].status == ReverseProcessing;
    }
    if i :|
      0 <= i < |longer| - 1 && longer[i].status == ReverseProcessing && longer[i + 1].status == ReverseProcessing
    {
      assert i < |h| - 1 ==> h[i].status == ReverseProcessing && h[i + 1].status == ReverseProcessing;
    }
  }

  /** The start just appended is not the newest row: some status was stamped later than it. */
  predicate GuardMissesLast(adjs: Adjustments, pi: InitiationId) {
    var latest := Latest(adjs, pi);
    LastStarts(HistoryOf(adjs, pi)) && latest.Some? && latest.value.status != ReverseProcessing
  }

  ghost predicate SomeMissesLast(keys: Keys, steps: seq<Step>, pi: InitiationId) {
    steps != [] &&
    var init, last := steps[..|steps| - 1], steps[|steps| - 1];
    SomeMissesLast(keys, init, pi) ||
    (StartsNewReversal(Run(keys, init), last, pi) && GuardMissesLast(Run(keys, init).adjustments, pi))
  }

  lemma AppendAdjacentIff(t: Tables, a: Adjustment, pi: InitiationId)
    ensures var h := HistoryOf(t.adjustments, pi);
            HasAdjacent(HistoryOf(t.adjustments + [a], pi)) <==>
            HasAdjacent(h) || (a.id.initiation == pi && a.status == ReverseProcessing && LastStarts(h))
  {
    HistoryAppend(t.adjustments, [a], pi);
    SingleHistory(a, pi);
    AdjacentAfterAppend(HistoryOf(t.adjustments, pi), a);
  }

  lemma StepAdjacentIff(keys: Keys, t: Tables, step: Step, pi: InitiationId)
    requires Sound(t) && HasKeys(keys) && ReversesThroughGuard(step, pi)
    ensures HasAdjacent(HistoryOf(Apply(keys, t, step).adjustments, pi)) <==>
            HasAdjacent(HistoryOf(t.adjustments, pi)) ||
            (StartsNewReversal(t, step, pi) && GuardMissesLast(t.adjustments, pi))
  {
    match step
    case OutboxStep(_) =>
    case InsertStep(now, created, adjs) =>
      if Insert(keys, now, t, created, adjs).Ok? {
        InsertStartsPath(keys, t, now, created, adjs, pi);
      }
    case UpsertStep(_, a) => AppendAdjacentIff(t, a, pi);
    case CompareStep(now, a, acceptable) =>
      CompareAndAppend(keys, now, t, a, acceptable);
      LatestIsNewest(t.adjustments, a.id.initiation);
      AppendAdjacentIff(t, a, pi);
  }

  /** Two starts are adjacent exactly in the runs in which one is attempted while the last one is not the newest row. */
  lemma {:induction false} ReversalsAreAdjacentIff(keys: Keys, steps: seq<Step>, pi: InitiationId)
    requires HasKeys(keys) && forall step | step in steps :: ReversesThroughGuard(step, pi)
    ensures HasAdjacent(HistoryOf(Run(keys, steps).adjustments, pi)) <==> SomeMissesLast(keys, steps, pi)
  {
    if steps != [] {
      var init, last := steps[..|steps| - 1], steps[|steps| - 1];
      assert last in steps && forall s | s in init :: s in steps;
      ReversalsAreAdjacentIff(keys, init, pi);
      RunIsSound(keys, init);
      StepAdjacentIff(keys, Run(keys, init), last, pi);
    }
  }

  // ---- Two failing runs -----------------------------------------------------------------------

  function Row(pi: InitiationId, at: Time, status: Status): Adjustment {
    Adjustment(AdjustmentId(pi, at, status), at, status)
  }

  /** A row of the only initiation is appended by a step that lets it. */
  lemma AppendsRow(keys: Keys, steps: seq<Step>, step: Step, pi: InitiationId, adjs: Adjustments, a: Adjustment)
    requires HasKeys(keys) && Run(keys, steps).adjustments == adjs && Run(keys, steps).initiations == {pi}
    requires a.id.initiation == pi && a.id !in Ids(adjs)
    requires step.UpsertStep? ||
             (step.CompareStep? && Latest(adjs, pi).Some? && step.acceptable(Latest(adjs, pi).value))
    requires step.adjustment == a
    ensures Run(keys, steps + [step]).adjustments == adjs + [a] && Run(keys, steps + [step]).initiations == {pi}
  {
    assert (steps + [step])[..|steps|] == steps;
  }

  lemma CreatesInitiation(keys: Keys, pi: InitiationId, a: Adjustment)
    requires HasKeys(keys) && a.id.initiation == pi
    ensures Run(keys, [InsertStep(0, pi, [a])]).adjustments == [a]
    ensures Run(keys, [InsertStep(0, pi, [a])]).initiations == {pi}
  {
    var steps := [InsertStep(0, pi, [a])];
    assert steps[..0] == [] && [a][..0] == [];
    assert NewRows({}, []) == [] && NewRows({}, [a]) == [] + [a];
    assert Ids(EMPTY.adjustments) == {};
    assert Run(keys, steps) == Apply(keys, EMPTY, steps[0]);
    assert Insert(keys, 0, EMPTY, pi, [a]).Ok?;
  }

  /** The run that creates an initiation with the first row, upserts the third and guards the others. */
  function GuardedRun(pi: InitiationId, rows: Adjustments, n: nat): seq<Step>
    requires n < |rows|
  {
    if n == 0 then [InsertStep(0, pi, [rows[0]])] else GuardedRun(pi, rows, n - 1) + [GuardedStep(rows, n)]
  }

  function GuardedStep(rows: Adjustments, n: nat): Step
    requires n < |rows|
  {
    if n == 2 then UpsertStep(0, rows[n]) else CompareStep(0, rows[n], StatusNotIn(NOT_REVERSING))
  }

  /** The guard accepts the row in its place, and the row is new. */
  ghost predicate Accepted(pi: InitiationId, rows: Adjustments, n: nat)
    requires n < |rows|
  {
    && rows[n].id.initiation == pi && rows[n].id !in Ids(rows[..n])
    && (if n == 2 then rows[n].status != ReverseProcessing
        else n > 0 ==> Latest(rows[..n], pi).Some? && Latest(rows[..n], pi).value.status != ReverseProcessing)
  }

  lemma GuardedStepAppends(keys: Keys, steps: seq<Step>, pi: InitiationId, rows: Adjustments, n: nat)
    requires HasKeys(keys) && 0 < n < |rows| && Accepted(pi, rows, n)
    requires Run(keys, steps).adjustments == rows[..n] && Run(keys, steps).initiations == {pi}
    ensures Run(keys, steps + [GuardedStep(rows, n)]).adjustments == rows[..n + 1]
    ensures Run(keys, steps + [GuardedStep(rows, n)]).initiations == {pi}
    ensures ReversesThroughGuard(GuardedStep(rows, n), pi)
  {
    AppendsRow(keys, steps, GuardedStep(rows, n), pi, rows[..n], rows[n]);
    assert rows[..n + 1] == rows[..n] + [rows[n]];
  }

  lemma {:induction false} GuardedRunAppends(keys: Keys, pi: InitiationId, rows: Adjustments, n: nat)
    requires HasKeys(keys) && n < |rows| && forall k | 0 <= k <= n :: Accepted(pi, rows, k)
    ensures Run(keys, GuardedRun(pi, rows, n)).adjustments == rows[..n + 1]
    ensures Run(keys, GuardedRun(pi, rows, n)).initiations == {pi}
    ensures forall step | step in GuardedRun(pi, rows, n) :: ReversesThroughGuard(step, pi)
  {
    assert Accepted(pi, rows, n);
    if n == 0 {
      CreatesInitiation(keys, pi, rows[0]);
      assert rows[..1] == [rows[0]];
    } else {
      GuardedRunAppends(keys, pi, rows, n - 1);
      assert GuardedRun(pi, rows, n) == GuardedRun(pi, rows, n - 1) + [GuardedStep(rows, n)];
      GuardedStepAppends(keys, GuardedRun(pi, rows, n - 1), pi, rows, n);
    }
  }

  /** The one row that is newer than all others is the latest. */
  lemma NewestIsLatest(adjs: Adjustments, pi: InitiationId, i: nat)
    requires i < |adjs| && adjs[i].id.initiation == pi
    requires forall j | 0 <= j < |adjs| && j != i :: adjs[j].createdAt < adjs[i].createdAt
    ensures Latest(adjs, pi) == Some(adjs[i])
  {
    HistoryElements(adjs, pi);
    LatestIsNewest(adjs, pi);
    assert adjs[i] in adjs && adjs[i] in HistoryOf(adjs, pi);
    var a := Latest(adjs, pi).value;
    var j :| 0 <= j < |adjs| && adjs[j] == a;
  }

  /** Processed, a guarded reversal, a status update of the payment, and another guarded reversal. */
  function StatusUpdateRows(pi: InitiationId): Adjustments {
    [Row(pi, 0, Processed), Row(pi, 1, ReverseProcessing), Row(pi, 2, Processed), Row(pi, 3, ReverseProcessing)]
  }

  lemma StatusUpdateRowsAreAccepted(pi: InitiationId, n: nat)
    requires n < 4
    ensures Accepted(pi, StatusUpdateRows(pi), n)
  {
    var rows := StatusUpdateRows(pi);
    assert forall i | 0 <= i < 4 :: rows[i].createdAt == i && rows[i].id.createdAt == i && rows[i].id.initiation == pi;
    if n > 0 {
      NewestIsLatest(rows[..n], pi, n - 1);
    }
  }

  lemma StatusUpdateRowsOverlap(pi: InitiationId)
    ensures Overlaps(StatusUpdateRows(pi))
  {
    var rows := StatusUpdateRows(pi);
    assert OpenAt(rows[..3], 1);
    assert rows[3].status == ReverseProcessing && IsOpen(rows[..3]);
  }

  /**
   The workflow's promise fails: the status of the payment arrives while a reversal is open, through
   the plain upsert, and the next reversal is let in.
   */
  lemma StatusUpdateLetsASecondReversalIn(keys: Keys, pi: InitiationId)
    requires HasKeys(keys)
    ensures var steps := GuardedRun(pi, StatusUpdateRows(pi), 3);
            && (forall step | step in steps :: ReversesThroughGuard(step, pi))
            && Run(keys, steps).adjustments == StatusUpdateRows(pi)
    ensures Overlaps(StatusUpdateRows(pi))
  {
    forall k | 0 <= k <= 3 ensures Accepted(pi, StatusUpdateRows(pi), k) {
      StatusUpdateRowsAreAccepted(pi, k);
    }
    GuardedRunAppends(keys, pi, StatusUpdateRows(pi), 3);
    assert StatusUpdateRows(pi)[..4] == StatusUpdateRows(pi);
    StatusUpdateRowsOverlap(pi);
  }

  /** The status comes stamped later than the clock of the workflow: the guard sees nothing but it. */
  function FutureStatusRows(pi: InitiationId): Adjustments {
    [Row(pi, 0, Processed), Row(pi, 1, ReverseProcessing), Row(pi, 10, Processed), Row(pi, 2, ReverseProcessing),
     Row(pi, 3, ReverseProcessing)]
  }

  lemma FutureStatusRowsAreAccepted(pi: InitiationId, n: nat)
    requires n < 5
    ensures Accepted(pi, FutureStatusRows(pi), n)
  {
    var rows := FutureStatusRows(pi);
    assert forall i | 0 <= i < 5 :: rows[i].id == AdjustmentId(pi, rows[i].createdAt, rows[i].status);
    assert rows[0].createdAt == 0 && rows[1].createdAt == 1 && rows[2].createdAt == 10;
    assert rows[3].createdAt == 2 && rows[4].createdAt == 3;
    if n > 0 {
      NewestIsLatest(rows[..n], pi, if n > 2 then 2 else n - 1);
    }
  }

  /** The guard then lets two reversals in one right after the other. */
  lemma FutureStatusLetsAdjacentReversalsIn(keys: Keys, pi: InitiationId)
    requires HasKeys(keys)
    ensures var steps := GuardedRun(pi, FutureStatusRows(pi), 4);
            && (forall step | step in steps :: ReversesThroughGuard(step, pi))
            && Run(keys, steps).adjustments == FutureStatusRows(pi)
    ensures HasAdjacent(FutureStatusRows(pi)) && Overlaps(FutureStatusRows(pi))
  {
    var rows := FutureStatusRows(pi);
    forall k | 0 <= k <= 4 ensures Accepted(pi, rows, k) {
      FutureStatusRowsAreAccepted(pi, k);
    }
    GuardedRunAppends(keys, pi, rows, 4);
    assert rows[..5] == rows;
    assert rows[3].status == ReverseProcessing && rows[3 + 1].status == ReverseProcessing;
    assert OpenAt(rows[..3], 1);
    assert IsOpen(rows[..3]);
  }

  // ---- Every stored row is announced ----------------------------------------------------------

  function InitiationEventId(keys: Keys, pi: InitiationId): Outbox.EventId {
    Outbox.EventId(keys.ofInitiation(pi), Some(pi.connector))
  }

  function AdjustmentEventId(keys: Keys, id: AdjustmentId): Outbox.EventId {
    Outbox.EventId(keys.ofAdjustment(id), Some(id.initiation.connector))
  }

  /** The event of every initiation and every adjustment is a row of the outbox or recorded as sent. */
  predicate Announced(keys: Keys, t: Tables) {
    && (forall pi | pi in t.initiations :: InitiationEventId(keys, pi) in Outbox.Known(t.outbox))
    && (forall a | a in t.adjustments :: AdjustmentEventId(keys, a.id) in Outbox.Known(t.outbox))
  }

  predicate OutboxLosesNothing(keys: Keys, steps: seq<Step>) {
    steps == [] ||
    var init, last := steps[..|steps| - 1], steps[|steps| - 1];
    && OutboxLosesNothing(keys, init)
    && (last.OutboxStep? ==> Outbox.Known(Run(keys, init).outbox) <= Outbox.Known(last.outbox))
  }

  lemma InsertAnnounces(keys: Keys, now: Time, t: Tables, pi: InitiationId, adjs: Adjustments)
    requires HasKeys(keys) && Announced(keys, t) && Insert(keys, now, t, pi, adjs).Ok?
    ensures Announced(keys, Insert(keys, now, t, pi, adjs).value)
  {
    var inserted := NewRows(Ids(t.adjustments), adjs);
    var first, rest := InitiationEvent(keys, now, pi), AdjustmentEvents(keys, now, inserted);
    var events := [first] + rest;
    Outbox.InsertMakesKnown(t.outbox, events);
    assert events[0] == first && first in events;
    forall a | a in inserted ensures AdjustmentEventId(keys, a.id) in Outbox.Ids(events) {
      var i :| 0 <= i < |inserted| && inserted[i] == a;
      assert events[i + 1] == rest[i] == AdjustmentEvent(keys, now, a);
    }
  }

  lemma AppendAnnounces(keys: Keys, now: Time, t: Tables, a: Adjustment)
    requires HasKeys(keys) && Announced(keys, t) && Append(keys, now, t, a).Ok?
    ensures Announced(keys, Append(keys, now, t, a).value.0)
  {
    if Append(keys, now, t, a).value.1 {
      var event := AdjustmentEvent(keys, now, a);
      Outbox.InsertMakesKnown(t.outbox, [event]);
      assert event in [event];
    }
  }

  /** Over every run, no initiation and no adjustment is stored without its event in the outbox or sent. */
  lemma {:induction false} RunsAnnounceEverything(keys: Keys, steps: seq<Step>)
    requires HasKeys(keys) && OutboxLosesNothing(keys, steps)
    ensures Announced(keys, Run(keys, steps))
  {
    if steps != [] {
      var init, last := steps[..|steps| - 1], steps[|steps| - 1];
      RunsAnnounceEverything(keys, init);
      var t := Run(keys, init);
      match last
      case OutboxStep(_) =>
      case InsertStep(now, pi, adjs) =>
        if Insert(keys, now, t, pi, adjs).Ok? {
          InsertAnnounces(keys, now, t, pi, adjs);
        }
      case UpsertStep(now, a) =>
        if Append(keys, now, t, a).Ok? {
          AppendAnnounces(keys, now, t, a);
        }
      case CompareStep(now, a, _) =>
        if Append(keys, now, t, a).Ok? {
          AppendAnnounces(keys, now, t, a);
        }
    }
  }

  // ---- Events wait to be published ------------------------------------------------------------

  lemma InsertEventsAreNew(keys: Keys, now: Time, pi: InitiationId, inserted: Adjustments)
    ensures var events := [InitiationEvent(keys, now, pi)] + AdjustmentEvents(keys, now, inserted);
            && OutboxProtocol.NewEvents(events) && Outbox.AllNewAt(events, now) && |events| == 1 + |inserted|
            && events[0].id == Outbox.EventId(keys.ofInitiation(pi), Some(pi.connector))
            && forall i | 0 <= i < |inserted| ::
                 events[i + 1].id ==
                 Outbox.EventId(keys.ofAdjustment(inserted[i].id), Some(inserted[i].id.initiation.connector))
  {
    forall e | e in [InitiationEvent(keys, now, pi)] + AdjustmentEvents(keys, now, inserted)
      ensures e == Outbox.Event(e.id, now, Outbox.Pending, 0)
    {
    }
  }

  /** The id of an event that a new initiation hands off: its own, or that of a new adjustment. */
  predicate IsInsertedId(keys: Keys, pi: InitiationId, inserted: Adjustments, id: Outbox.EventId) {
    || id == Outbox.EventId(keys.ofInitiation(pi), Some(pi.connector))
    || exists a | a in inserted :: id == Outbox.EventId(keys.ofAdjustment(a.id), Some(a.id.initiation.connector))
  }

  lemma InsertedIdsAreHandedOff(keys: Keys, now: Time, pi: InitiationId, inserted: Adjustments, id: Outbox.EventId)
    requires IsInsertedId(keys, pi, inserted, id)
    ensures id in Outbox.Ids([InitiationEvent(keys, now, pi)] + AdjustmentEvents(keys, now, inserted))
  {
    var events := [InitiationEvent(keys, now, pi)] + AdjustmentEvents(keys, now, inserted);
    if id == events[0].id {
      assert events[0] in events;
    } else {
      var a :| a in inserted && id == Outbox.EventId(keys.ofAdjustment(a.id), Some(a.id.initiation.connector));
      var i :| 0 <= i < |inserted| && inserted[i] == a;
      assert events[i + 1] in events;
    }
  }

  /** After a new initiation its event and those of its new adjustments, where not known, wait to be published. */
  lemma InsertedInitiationWaits(keys: Keys, now: Time, t: Tables, pi: InitiationId, adjs: Adjustments,
                                id: Outbox.EventId)
    requires Insert(keys, now, t, pi, adjs).Ok? && id !in Outbox.Known(t.outbox)
    requires IsInsertedId(keys, pi, NewRows(Ids(t.adjustments), adjs), id)
    ensures Outbox.Event(id, now, Outbox.Pending, 0) in Insert(keys, now, t, pi, adjs).value.outbox.rows
  {
    var inserted := NewRows(Ids(t.adjustments), adjs);
    InsertEventsAreNew(keys, now, pi, inserted);
    InsertedIdsAreHandedOff(keys, now, pi, inserted, id);
    var events := [InitiationEvent(keys, now, pi)] + AdjustmentEvents(keys, now, inserted);
    Outbox.InsertedEventWaits(t.outbox, events, now, id);
  }

  /** After an append its event, if not known, waits to be published. */
  lemma AppendedAdjustmentWaits(keys: Keys, now: Time, t: Tables, a: Adjustment)
    requires Append(keys, now, t, a).Ok? && Append(keys, now, t, a).value.1
    ensures var id, outbox := Outbox.EventId(keys.ofAdjustment(a.id), Some(a.id.initiation.connector)),
              Append(keys, now, t, a).value.0.outbox;
            id !in Outbox.Known(t.outbox) ==> Outbox.Event(id, now, Outbox.Pending, 0) in outbox.rows
  {
    var e := AdjustmentEvent(keys, now, a);
    assert e in [e];
    if e.id !in Outbox.Known(t.outbox) {
      Outbox.InsertedEventWaits(t.outbox, [e], now, e.id);
    }
  }

  // ---- What the plain calls leave -------------------------------------------------------------

  /** The rows an insert adds: new ids, each once and as given, and every given id is stored afterwards. */
  lemma {:induction false} NewRowsAreNew(stored: set<AdjustmentId>, adjs: Adjustments)
    ensures var rows := NewRows(stored, adjs);
            && (forall a | a in rows :: a in adjs && a.id !in stored)
            && (forall i, j | 0 <= i < j < |rows| :: rows[i].id != rows[j].id)
            && stored + Ids(rows) == stored + Ids(adjs)
  {
    if adjs != [] {
      var init, last := adjs[..|adjs| - 1], adjs[|adjs| - 1];
      NewRowsAreNew(stored, init);
      assert adjs == init + [last];
      assert Ids(adjs) == Ids(init) + {last.id};
      var rows := NewRows(stored, init);
      assert Ids(rows + [last]) == Ids(rows) + {last.id};
      forall i | 0 <= i < |rows| ensures rows[i].id in Ids(rows) {
        assert rows[i] in rows;
      }
    }
  }

  /** A stored initiation and a stray adjustment abort; otherwise the initiation and its new adjustments are stored. */
  lemma InsertOutcome(keys: Keys, now: Time, t: Tables, pi: InitiationId, adjs: Adjustments)
    requires HasKeys(keys)
    ensures var r := Insert(keys, now, t, pi, adjs);
            && (r == Err(DuplicateKey) <==> pi in t.initiations)
            && (r == Err(ForeignKeyViolation) <==>
                pi !in t.initiations && exists a | a in adjs ::
                  a.id !in Ids(t.adjustments) && a.id.initiation !in t.initiations && a.id.initiation != pi)
            && (r.Err? ==> r.error == DuplicateKey || r.error == ForeignKeyViolation)
            && (r.Ok? ==>
                  && r.value.initiations == t.initiations + {pi} && t.adjustments <= r.value.adjustments
                  && Ids(r.value.adjustments) == Ids(t.adjustments) + Ids(adjs)
                  && forall i | |t.adjustments| <= i < |r.value.adjustments| ::
                       r.value.adjustments[i] in adjs && r.value.adjustments[i].id !in Ids(t.adjustments))
  {
    var inserted := NewRows(Ids(t.adjustments), adjs);
    NewRowsAreNew(Ids(t.adjustments), adjs);
    IdsAppend(t.adjustments, inserted);
    NewRowsReferenced(t, pi, adjs);
    forall e | e in [InitiationEvent(keys, now, pi)] + AdjustmentEvents(keys, now, inserted) ensures e.id.key != "" {
    }
  }

  lemma IdsAppend(a: Adjustments, b: Adjustments)
    ensures Ids(a + b) == Ids(a) + Ids(b)
  {
  }

  lemma NewRowsReferenced(t: Tables, pi: InitiationId, adjs: Adjustments)
    ensures !Referenced(NewRows(Ids(t.adjustments), adjs), t.initiations + {pi}) <==>
            exists a | a in adjs ::
              a.id !in Ids(t.adjustments) && a.id.initiation !in t.initiations && a.id.initiation != pi
  {
    var inserted := NewRows(Ids(t.adjustments), adjs);
    NewRowsAreNew(Ids(t.adjustments), adjs);
    if a :| a in adjs && a.id !in Ids(t.adjustments) && a.id.initiation !in t.initiations && a.id.initiation != pi {
      assert a.id in Ids(adjs);
      var b :| b in inserted && b.id == a.id;
    }
  }

  /** A plain append: nothing for a stored id, an error without the initiation, else one more row. */
  lemma AppendOutcome(keys: Keys, now: Time, t: Tables, a: Adjustment)
    requires HasKeys(keys)
    ensures var r := Append(keys, now, t, a);
            && (r.Err? <==> a.id !in Ids(t.adjustments) && a.id.initiation !in t.initiations)
            && (r.Err? ==> r.error == ForeignKeyViolation)
            && (r.Ok? && a.id in Ids(t.adjustments) ==> r.value == (t, false))
            && (r.Ok? && a.id !in Ids(t.adjustments) ==>
                  r.value.1 && r.value.0.adjustments == t.adjustments + [a] && r.value.0.initiations == t.initiations)
  {
  }
}
