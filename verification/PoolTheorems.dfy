/** Pool events against pool membership, over whole runs. */
module PoolTheorems {
  import opened Common
  import opened Pools
  import Outbox
  import OutboxProtocol
  import Deliveries

  type Key = (PoolId, seq<AccountId>) -> string

  // ---- Runs -----------------------------------------------------------------------------------

  datatype Call =
    | UpsertCall(pool: Pool, accounts: seq<AccountId>)
    | UpdateQueryCall(accounts: seq<AccountId>, query: string)
    | AddCall(account: AccountId)
    | RemoveCall(account: AccountId)
    | DeleteCall

  datatype Step =
    | CallStep(now: Time, id: PoolId, call: Call)
    | NewAccountStep(account: AccountId)
    | OutboxStep(outbox: Outbox.State)

  function ChangeOf(t: Tables, id: PoolId, call: Call): Result<Change> {
    match call
    case UpsertCall(pool, accounts) => Upsert(t, id, pool, accounts)
    case UpdateQueryCall(accounts, query) => Ok(UpdateQuery(t, id, accounts, query))
    case AddCall(account) => AddAccount(t, id, account)
    case RemoveCall(account) => Ok(RemoveAccount(t, id, account))
    case DeleteCall => Ok(Delete(t, id))
  }

  function Attempt(key: Key, now: Time, t: Tables, id: PoolId, call: Call): Result<Tables> {
    match ChangeOf(t, id, call)
    case Err(error) => Err(error)
    case Ok(change) => Commit(key, now, t, change)
  }

  function Apply(key: Key, t: Tables, step: Step): Tables {
    match step
    case NewAccountStep(account) => t.(accounts := t.accounts + {account})
    case OutboxStep(outbox) => t.(outbox := outbox)
    case CallStep(now, id, call) =>
      match Attempt(key, now, t, id, call)
      case Ok(t') => t'
      case Err(_) => t
  }

  const EMPTY := Tables({}, map[], [], Outbox.State([], {}))

  function Run(key: Key, steps: seq<Step>): Tables {
    if steps == [] then EMPTY else Apply(key, Run(key, steps[..|steps| - 1]), steps[|steps| - 1])
  }

  // ---- The tables stay sound ------------------------------------------------------------------

  predicate NoDuplicates(members: seq<Member>) {
    forall i, j | 0 <= i < j < |members| :: members[i] != members[j]
  }

  /** The primary key and the foreign key of pool_accounts. */
  predicate Sound(pools: map<PoolId, Pool>, members: seq<Member>) {
    NoDuplicates(members) && forall m | m in members :: m.pool in pools
  }

  lemma {:induction false} InsertMembersIsSound(pools: map<PoolId, Pool>, members: seq<Member>, id: PoolId,
                                                accounts: seq<AccountId>)
    requires Sound(pools, members) && id in pools
    ensures Sound(pools, InsertMembers(members, id, accounts))
  {
    if accounts != [] {
      InsertMembersIsSound(pools, members, id, accounts[..|accounts| - 1]);
    }
  }

  lemma {:induction false} WithoutMemberElements(members: seq<Member>, m: Member)
    ensures forall x :: x in WithoutMember(members, m) <==> x in members && x != m
    ensures NoDuplicates(members) ==> NoDuplicates(WithoutMember(members, m))
  {
    if members != [] {
      var init := members[..|members| - 1];
      WithoutMemberElements(init, m);
      assert members == init + [members[|members| - 1]];
      LastIsNew(members, WithoutMember(init, m));
    }
  }

  lemma {:induction false} WithoutPoolElements(members: seq<Member>, id: PoolId)
    ensures forall x :: x in WithoutPool(members, id) <==> x in members && x.pool != id
    ensures NoDuplicates(members) ==> NoDuplicates(WithoutPool(members, id))
  {
    if members != [] {
      var init := members[..|members| - 1];
      WithoutPoolElements(init, id);
      assert members == init + [members[|members| - 1]];
      LastIsNew(members, WithoutPool(init, id));
    }
  }

  lemma LastIsNew(members: seq<Member>, kept: seq<Member>)
    requires members != [] && forall x | x in kept :: x in members[..|members| - 1]
    ensures NoDuplicates(members) && NoDuplicates(kept) ==> NoDuplicates(kept + [members[|members| - 1]])
  {
    var init, last := members[..|members| - 1], members[|members| - 1];
    if NoDuplicates(members) {
      forall i | 0 <= i < |kept| ensures kept[i] != last {
        assert kept[i] in kept;
        var j :| 0 <= j < |init| && init[j] == kept[i];
        assert members[j] == kept[i];
      }
    }
  }

  lemma CallKeepsSound(t: Tables, id: PoolId, call: Call)
    requires Sound(t.pools, t.members) && ChangeOf(t, id, call).Ok?
    ensures Sound(ChangeOf(t, id, call).value.pools, ChangeOf(t, id, call).value.members)
  {
    match call
    case UpsertCall(pool, accounts) =>
      InsertMembersIsSound(if id in t.pools then t.pools else t.pools[id := pool], t.members, id, accounts);
    case UpdateQueryCall(_, _) =>
    case AddCall(account) =>
    case RemoveCall(account) => WithoutMemberElements(t.members, Member(id, account));
    case DeleteCall => WithoutPoolElements(t.members, id);
  }

  lemma {:induction false} RunIsSound(key: Key, steps: seq<Step>)
    ensures Sound(Run(key, steps).pools, Run(key, steps).members)
  {
    if steps != [] {
      var t, step := Run(key, steps[..|steps| - 1]), steps[|steps| - 1];
      RunIsSound(key, steps[..|steps| - 1]);
      if step.CallStep? && ChangeOf(t, step.id, step.call).Ok? {
        CallKeepsSound(t, step.id, step.call);
      }
    }
  }

  // ---- Events mirror the membership -----------------------------------------------------------

  lemma {:induction false} AccountsElements(members: seq<Member>, id: PoolId)
    ensures forall a :: a in AccountsOf(members, id) <==> Member(id, a) in members
  {
    if members != [] {
      AccountsElements(members[..|members| - 1], id);
      assert members == members[..|members| - 1] + [members[|members| - 1]];
    }
  }

  /** Filtering the accounts read before the delete gives the accounts that a read after it would give. */
  lemma {:induction false} FilteredIsReRead(members: seq<Member>, id: PoolId, account: AccountId)
    ensures AccountsOf(WithoutMember(members, Member(id, account)), id) ==
            WithoutAccount(AccountsOf(members, id), account)
  {
    if members != [] {
      var init, last := members[..|members| - 1], members[|members| - 1];
      FilteredIsReRead(init, id, account);
      var kept, accounts := WithoutMember(init, Member(id, account)), AccountsOf(init, id);
      assert (kept + [last])[..|kept|] == kept;
      assert (accounts + [last.account])[..|accounts|] == accounts;
    }
  }

  lemma {:induction false} OtherPoolsStay(members: seq<Member>, m: Member, other: PoolId)
    requires other != m.pool
    ensures AccountsOf(WithoutMember(members, m), other) == AccountsOf(members, other)
  {
    if members != [] {
      var init, last := members[..|members| - 1], members[|members| - 1];
      OtherPoolsStay(init, m, other);
      var kept := WithoutMember(init, m);
      assert (kept + [last])[..|kept|] == kept;
    }
  }

  /**
   One event exactly when the membership of an existing pool changed, carrying the membership after
   the step; no other pool changes.
   */
  ghost predicate Mirrors(t: Tables, id: PoolId, c: Change) {
    && c.handedOff ==
       (if AccountsOf(c.members, id) != AccountsOf(t.members, id) then [Saved(id, AccountsOf(c.members, id))] else [])
    && (c.handedOff != [] ==> id in t.pools)
    && (forall other | other != id :: AccountsOf(c.members, other) == AccountsOf(t.members, other))
  }

  /** Pool events mirror state, for every addition and removal after any run. */
  lemma EventsMirrorMembership(key: Key, steps: seq<Step>, id: PoolId, call: Call)
    requires call.AddCall? || call.RemoveCall?
    ensures var t := Run(key, steps);
            && (ChangeOf(t, id, call).Ok? ==> Mirrors(t, id, ChangeOf(t, id, call).value))
            && (ChangeOf(t, id, call).Err? <==>
                call.AddCall? && (call.account !in t.accounts || id !in t.pools))
  {
    var t := Run(key, steps);
    RunIsSound(key, steps);
    AccountsElements(t.members, id);
    match call
    case AddCall(account) =>
      assert (t.members + [Member(id, account)])[..|t.members|] == t.members;
    case RemoveCall(account) =>
      FilteredIsReRead(t.members, id, account);
      forall other | other != id
        ensures AccountsOf(WithoutMember(t.members, Member(id, account)), other) == AccountsOf(t.members, other)
      {
        OtherPoolsStay(t.members, Member(id, account), other);
      }
      WithoutMemberElements(t.members, Member(id, account));
      AccountsElements(WithoutMember(t.members, Member(id, account)), id);
      if Member(id, account) !in t.members {
        NothingToRemove(t.members, Member(id, account));
      }
  }

  lemma {:induction false} NothingToRemove(members: seq<Member>, m: Member)
    requires m !in members
    ensures WithoutMember(members, m) == members
  {
    if members != [] {
      assert members == members[..|members| - 1] + [members[|members| - 1]];
      NothingToRemove(members[..|members| - 1], m);
    }
  }

  lemma {:induction false} InsertMembersAdds(members: seq<Member>, id: PoolId, accounts: seq<AccountId>)
    ensures members <= InsertMembers(members, id, accounts)
    ensures AsSet(AccountsOf(InsertMembers(members, id, accounts), id)) ==
            AsSet(AccountsOf(members, id)) + AsSet(accounts)
    ensures forall other | other != id ::
              AccountsOf(InsertMembers(members, id, accounts), other) == AccountsOf(members, other)
  {
    if accounts != [] {
      var init, last := accounts[..|accounts| - 1], accounts[|accounts| - 1];
      InsertMembersAdds(members, id, init);
      assert accounts == init + [last];
      var done := InsertMembers(members, id, init);
      var stored := AccountsOf(done, id);
      assert (done + [Member(id, last)])[..|done|] == done;
      AccountsElements(done, id);
      assert AsSet(accounts) == AsSet(init) + {last} && AsSet(stored + [last]) == AsSet(stored) + {last};
    }
  }

  /**
   A new pool is announced with the accounts it was given, which for a static pool are exactly its
   members and for a dynamic one are not stored. Accounts that a later upsert adds to a static pool
   become members without any event.
   */
  lemma UpsertAnnouncesNewPoolsOnly(t: Tables, id: PoolId, pool: Pool, accounts: seq<AccountId>)
    requires Sound(t.pools, t.members) && Upsert(t, id, pool, accounts).Ok?
    ensures var c := Upsert(t, id, pool, accounts).value;
            var members, members' := AsSet(AccountsOf(t.members, id)), AsSet(AccountsOf(c.members, id));
            && c.handedOff == (if id in t.pools then [] else [Saved(id, accounts)])
            && members' == (if pool.poolType == Static then members + AsSet(accounts) else members)
            && (id !in t.pools ==> members == {} && c.pools == t.pools[id := pool])
            && (id in t.pools ==> c.pools == t.pools)
            && (forall other | other != id :: AccountsOf(c.members, other) == AccountsOf(t.members, other))
  {
    InsertMembersAdds(t.members, id, accounts);
    AccountsElements(t.members, id);
  }

  lemma {:induction false} OnlyThisPoolLeaves(members: seq<Member>, id: PoolId, other: PoolId)
    ensures AccountsOf(WithoutPool(members, id), other) == if other == id then [] else AccountsOf(members, other)
  {
    if members != [] {
      var init, last := members[..|members| - 1], members[|members| - 1];
      OnlyThisPoolLeaves(init, id, other);
      var kept := WithoutPool(init, id);
      assert (kept + [last])[..|kept|] == kept;
    }
  }

  /** Deleting a pool removes it with its members, leaves the others, and is announced exactly when it existed. */
  lemma DeleteRemovesThePool(t: Tables, id: PoolId)
    ensures var c := Delete(t, id);
            && id !in c.pools && (forall other | other != id :: other in c.pools <==> other in t.pools)
            && (forall other | other in c.pools :: c.pools[other] == t.pools[other])
            && (forall other ::
                  AccountsOf(c.members, other) == if other == id then [] else AccountsOf(t.members, other))
            && (c.handedOff == [Deleted(id)] <==> id in t.pools) && (c.handedOff == [] <==> id !in t.pools)
  {
    forall other
      ensures AccountsOf(WithoutPool(t.members, id), other) == if other == id then [] else AccountsOf(t.members, other)
    {
      OnlyThisPoolLeaves(t.members, id, other);
    }
  }

  // ---- What the outbox keeps of it ------------------------------------------------------------

  /** A handed-off event is stored exactly when its id is neither stored nor recorded as sent. */
  lemma HandedOffIsStoredIff(key: Key, now: Time, t: Tables, c: Change, p: Payload)
    requires c.handedOff == [p] && EventId(key, p).key != ""
    ensures Commit(key, now, t, c) ==
            Ok(Tables(t.accounts, c.pools, c.members,
                      if EventId(key, p) in Outbox.Known(t.outbox) then t.outbox
                      else t.outbox.(rows := t.outbox.rows + [EventOf(key, now, p)])))
  {
    Outbox.InsertOne(t.outbox, EventOf(key, now, p));
    assert EventsOf(key, now, [p]) == [EventOf(key, now, p)];
  }

  /** The outbox moved on, through any steps of its protocol, which forgets no id. */
  predicate MovedOn(before: Outbox.State, after: Outbox.State) {
    Outbox.Known(before) <= Outbox.Known(after)
  }

  /**
   An account added, removed and added again: the second addition changes the membership back, and
   hands off the event of the first addition, whose id is known. Nothing is stored, so the last
   event a consumer receives still shows the pool without the account.
   */
  lemma ReAddedAccountIsNotAnnounced(key: Key, now: Time, t: Tables, id: PoolId, account: AccountId,
                                     outbox1: Outbox.State, outbox2: Outbox.State)
    requires forall p: PoolId, accounts: seq<AccountId> :: key(p, accounts) != ""
    requires Sound(t.pools, t.members) && id in t.pools && account in t.accounts && Member(id, account) !in t.members
    requires MovedOn(Apply(key, t, CallStep(now, id, AddCall(account))).outbox, outbox1)
    requires var t1 := Apply(key, t, CallStep(now, id, AddCall(account))).(outbox := outbox1);
             MovedOn(Apply(key, t1, CallStep(now, id, RemoveCall(account))).outbox, outbox2)
    ensures var t1 := Apply(key, t, CallStep(now, id, AddCall(account))).(outbox := outbox1);
            var t2 := Apply(key, t1, CallStep(now, id, RemoveCall(account))).(outbox := outbox2);
            var t3 := Apply(key, t2, CallStep(now, id, AddCall(account)));
            && AccountsOf(t3.members, id) == AccountsOf(t1.members, id)
            && AccountsOf(t2.members, id) == AccountsOf(t.members, id) && account !in AccountsOf(t2.members, id)
            && account in AccountsOf(t3.members, id)
            && t3.outbox == t2.outbox
  {
    var m := Member(id, account);
    var members1 := t.members + [m];
    var t1 := Apply(key, t, CallStep(now, id, AddCall(account))).(outbox := outbox1);
    var added := Saved(id, AccountsOf(members1, id));
    HandedOffIsStoredIff(key, now, t, Change(t.pools, members1, [added]), added);
    assert t1 == Tables(t.accounts, t.pools, members1, outbox1);
    assert EventId(key, added) in Outbox.Known(outbox1) by {
      KnownAfter(key, now, t, Change(t.pools, members1, [added]), added);
    }

    assert members1[..|t.members|] == t.members;
    NothingToRemove(t.members, m);
    assert WithoutMember(members1, m) == t.members;
    var removed := Saved(id, WithoutAccount(AccountsOf(members1, id), account));
    HandedOffIsStoredIff(key, now, t1, Change(t.pools, t.members, [removed]), removed);
    var t2 := Apply(key, t1, CallStep(now, id, RemoveCall(account))).(outbox := outbox2);
    assert t2 == Tables(t.accounts, t.pools, t.members, outbox2);
    KnownAfter(key, now, t1, Change(t.pools, t.members, [removed]), removed);

    HandedOffIsStoredIff(key, now, t2, Change(t.pools, members1, [added]), added);
    AccountsElements(t.members, id);
    AccountsElements(members1, id);
  }

  lemma KnownAfter(key: Key, now: Time, t: Tables, c: Change, p: Payload)
    requires c.handedOff == [p] && EventId(key, p).key != ""
    ensures Commit(key, now, t, c).Ok?
    ensures var outbox := Commit(key, now, t, c).value.outbox;
            EventId(key, p) in Outbox.Known(outbox) && MovedOn(t.outbox, outbox)
  {
    HandedOffIsStoredIff(key, now, t, c, p);
    var rows := t.outbox.rows + [EventOf(key, now, p)];
    assert EventOf(key, now, p) in rows;
    assert forall r | r in t.outbox.rows :: r in rows;
  }

  /** A query update hands off an event with the id of the creation event of the same accounts: it is never stored. */
  lemma QueryUpdateIsNotAnnounced(key: Key, now: Time, t: Tables, id: PoolId, pool: Pool, accounts: seq<AccountId>,
                                  outbox: Outbox.State, query: string)
    requires forall p: PoolId, a: seq<AccountId> :: key(p, a) != ""
    requires id !in t.pools && Upsert(t, id, pool, accounts).Ok?
    requires MovedOn(Apply(key, t, CallStep(now, id, UpsertCall(pool, accounts))).outbox, outbox)
    ensures var t1 := Apply(key, t, CallStep(now, id, UpsertCall(pool, accounts))).(outbox := outbox);
            var t2 := Apply(key, t1, CallStep(now, id, UpdateQueryCall(accounts, query)));
            id in t2.pools && t2.pools[id].query == query && t2.outbox == t1.outbox
  {
    var saved := Saved(id, accounts);
    var t1 := Apply(key, t, CallStep(now, id, UpsertCall(pool, accounts))).(outbox := outbox);
    KnownAfter(key, now, t, Upsert(t, id, pool, accounts).value, saved);
    HandedOffIsStoredIff(key, now, t1, UpdateQuery(t1, id, accounts, query), saved);
  }

  // ---- What the outbox keeps over whole runs --------------------------------------------------

  /** A step as the outbox sees it. */
  function MoveOf(key: Key, t: Tables, step: Step): Deliveries.Move {
    match step
    case NewAccountStep(_) => Deliveries.HandOff([])
    case OutboxStep(outbox) => Deliveries.Meanwhile(outbox)
    case CallStep(now, id, call) =>
      match ChangeOf(t, id, call)
      case Ok(change) => Deliveries.HandOff(EventsOf(key, now, change.handedOff))
      case Err(_) => Deliveries.HandOff([])
  }

  function Moves(key: Key, steps: seq<Step>): seq<Deliveries.Move> {
    if steps == [] then []
    else Moves(key, steps[..|steps| - 1]) + [MoveOf(key, Run(key, steps[..|steps| - 1]), steps[|steps| - 1])]
  }

  /** What a step announces, when it commits. */
  function AnnouncedBy(key: Key, t: Tables, step: Step): seq<Payload> {
    if step.CallStep? && Attempt(key, step.now, t, step.id, step.call).Ok?
    then ChangeOf(t, step.id, step.call).value.handedOff else []
  }

  function Announced(key: Key, steps: seq<Step>): seq<Payload> {
    if steps == [] then []
    else
      var init := steps[..|steps| - 1];
      Announced(key, init) + AnnouncedBy(key, Run(key, init), steps[|steps| - 1])
  }

  function EventIds(key: Key, ps: seq<Payload>): seq<Outbox.EventId> {
    seq(|ps|, i requires 0 <= i < |ps| => EventId(key, ps[i]))
  }

  lemma StepIsAMove(key: Key, t: Tables, step: Step)
    ensures Apply(key, t, step).outbox == Deliveries.Next(t.outbox, MoveOf(key, t, step))
    ensures Deliveries.IdList(Deliveries.Committed(MoveOf(key, t, step))) == EventIds(key, AnnouncedBy(key, t, step))
  {
    assert Outbox.InsertRows(t.outbox.rows, Outbox.Unsent([], t.outbox.sent)) == t.outbox.rows;
  }

  lemma EventIdsAppend(key: Key, a: seq<Payload>, b: seq<Payload>)
    ensures EventIds(key, a + b) == EventIds(key, a) + EventIds(key, b)
  {
  }

  lemma {:induction false} RunIsMoves(key: Key, steps: seq<Step>)
    ensures Run(key, steps).outbox == Deliveries.Run(EMPTY.outbox, Moves(key, steps))
    ensures Deliveries.IdList(Deliveries.HandedOff(Moves(key, steps))) == EventIds(key, Announced(key, steps))
  {
    if steps != [] {
      var init, last := steps[..|steps| - 1], steps[|steps| - 1];
      RunIsMoves(key, init);
      StepIsAMove(key, Run(key, init), last);
      Deliveries.OneMoreMove(EMPTY.outbox, Moves(key, init), MoveOf(key, Run(key, init), last));
      EventIdsAppend(key, Announced(key, init), AnnouncedBy(key, Run(key, init), last));
    }
  }

  /** The identifiers tell the announced payloads apart. */
  predicate TellsApart(key: Key, ps: seq<Payload>) {
    forall p, q | p in ps && q in ps && EventId(key, p) == EventId(key, q) :: p == q
  }

  lemma IsRepeatedIff(key: Key, ps: seq<Payload>, p: Payload)
    requires TellsApart(key, ps + [p])
    ensures EventId(key, p) in EventIds(key, ps) <==> p in ps
  {
    if p in ps {
      var i :| 0 <= i < |ps| && ps[i] == p;
      assert EventIds(key, ps)[i] == EventId(key, p);
    }
    if EventId(key, p) in EventIds(key, ps) {
      var i :| 0 <= i < |ps| && EventIds(key, ps)[i] == EventId(key, p);
      assert ps[i] in ps + [p] && p in ps + [p];
    }
  }

  lemma {:induction false} FirstsOfPayloads(key: Key, ps: seq<Payload>)
    requires TellsApart(key, ps)
    ensures Deliveries.Firsts(EventIds(key, ps)) == EventIds(key, Deliveries.Firsts(ps))
  {
    if ps != [] {
      var init, last := ps[..|ps| - 1], ps[|ps| - 1];
      assert ps == init + [last];
      FirstsOfPayloads(key, init);
      EventIdsAppend(key, init, [last]);
      EventIdsAppend(key, Deliveries.Firsts(init), [last]);
      IsRepeatedIff(key, init, last);
      Deliveries.OneMoreFirst(init, last);
      Deliveries.OneMoreFirst(EventIds(key, init), EventId(key, last));
    }
  }

  /** The rows that the steps of a run append to the outbox. */
  ghost function Stored(key: Key, steps: seq<Step>): seq<Outbox.Event> {
    Deliveries.Stored(EMPTY.outbox, Moves(key, steps))
  }

  /** Between the steps the outbox moves on without forgetting, or making known, an event of the run. */
  ghost predicate OwnEventsOnly(key: Key, steps: seq<Step>) {
    var moves := Moves(key, steps);
    Deliveries.KeepsOwnIds(EMPTY.outbox, moves, Outbox.Ids(Deliveries.HandedOff(moves)))
  }

  /**
   Over every run, the events stored are those of the announced payloads without the repetitions: what
   was announced before, in whatever state of the pool, is never stored again.
   */
  lemma StoredAreFirstAnnouncements(key: Key, steps: seq<Step>)
    requires OwnEventsOnly(key, steps) && TellsApart(key, Announced(key, steps))
    ensures Deliveries.IdList(Stored(key, steps)) == EventIds(key, Deliveries.Firsts(Announced(key, steps)))
  {
    RunIsMoves(key, steps);
    Deliveries.StoredIdsAreFirsts(EMPTY.outbox, Moves(key, steps));
    FirstsOfPayloads(key, Announced(key, steps));
  }

  /** Every announcement of a run is stored exactly when none has the identifier of an earlier one. */
  lemma EveryAnnouncementIsStoredIff(key: Key, steps: seq<Step>)
    requires OwnEventsOnly(key, steps)
    ensures |Stored(key, steps)| == |Announced(key, steps)| <==>
            Deliveries.NoRepetition(EventIds(key, Announced(key, steps)))
  {
    RunIsMoves(key, steps);
    Deliveries.StoredIdsAreFirsts(EMPTY.outbox, Moves(key, steps));
    assert |Deliveries.IdList(Stored(key, steps))| == |Stored(key, steps)|;
    Deliveries.FirstsAreShorter(EventIds(key, Announced(key, steps)));
  }

  // ---- What the calls leave -------------------------------------------------------------------

  /** The event of a pool is keyed by the pool and its accounts, that of a deletion by the pool, without connector. */
  lemma EventsAreNew(key: Key, now: Time, ps: seq<Payload>)
    ensures var events := EventsOf(key, now, ps);
            && OutboxProtocol.NewEvents(events) && Outbox.AllNewAt(events, now) && |events| == |ps|
            && forall i | 0 <= i < |ps| ::
                 events[i].id ==
                 match ps[i]
                 case Saved(id, accounts) => Outbox.EventId(key(id, accounts), None)
                 case Deleted(id) => Outbox.EventId(id, None)
  {
  }

  /** After a commit the event handed off, if its id was not known, waits to be published. */
  lemma HandedOffWaits(key: Key, now: Time, t: Tables, c: Change, p: Payload)
    requires Commit(key, now, t, c).Ok? && p in c.handedOff && EventId(key, p) !in Outbox.Known(t.outbox)
    ensures Outbox.Event(EventId(key, p), now, Outbox.Pending, 0) in Commit(key, now, t, c).value.outbox.rows
  {
    var events := EventsOf(key, now, c.handedOff);
    EventsAreNew(key, now, c.handedOff);
    var i :| 0 <= i < |c.handedOff| && c.handedOff[i] == p;
    assert events[i] in events;
    Outbox.InsertedEventWaits(t.outbox, events, now, events[i].id);
  }

  /** An unknown account aborts, and so does a new pool whose name another one has; nothing else does. */
  lemma UpsertErrors(t: Tables, id: PoolId, pool: Pool, accounts: seq<AccountId>)
    ensures var r := Upsert(t, id, pool, accounts);
            && (r == Err(NotFound) <==> exists a :: a in accounts && a !in t.accounts)
            && (r == Err(DuplicateKey) <==>
                && (forall a | a in accounts :: a in t.accounts) && id !in t.pools
                && exists other :: other in t.pools && t.pools[other].name == pool.name)
            && (r.Err? ==> r.error == NotFound || r.error == DuplicateKey)
  {
  }

  /** Adding: an unknown account or, for a new member, a missing pool aborts; a new member comes last. */
  lemma AddOutcome(t: Tables, id: PoolId, account: AccountId)
    ensures var r, m := AddAccount(t, id, account), Member(id, account);
            && (r == Err(NotFound) <==> account !in t.accounts)
            && (r == Err(ForeignKeyViolation) <==> account in t.accounts && m !in t.members && id !in t.pools)
            && (r.Err? ==> r.error == NotFound || r.error == ForeignKeyViolation)
            && (r.Ok? ==> r.value.pools == t.pools &&
                          r.value.members == if m in t.members then t.members else t.members + [m])
  {
  }

  /** Removing: exactly this member goes; pools stay. */
  lemma RemoveOutcome(t: Tables, id: PoolId, account: AccountId)
    ensures var c := RemoveAccount(t, id, account);
            c.pools == t.pools && forall m :: m in c.members <==> m in t.members && m != Member(id, account)
  {
    WithoutMemberElements(t.members, Member(id, account));
  }

  /** The query of the pool changes, and nothing else of it or of any other. */
  lemma UpdateQueryOutcome(t: Tables, id: PoolId, accounts: seq<AccountId>, query: string)
    ensures var c := UpdateQuery(t, id, accounts, query);
            && c.pools.Keys == t.pools.Keys && c.members == t.members && c.handedOff == [Saved(id, accounts)]
            && (forall other | other in t.pools && other != id :: c.pools[other] == t.pools[other])
            && (id in t.pools ==> c.pools[id] == Pool(t.pools[id].name, t.pools[id].poolType, query))
  {
  }
}
