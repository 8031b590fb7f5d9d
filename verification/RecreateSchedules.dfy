/** The recreate-schedules command: its two phases, the walk over pages and the cache of accounts. */
module RecreateSchedules {
  import opened Common
  import opened Schedules
  import ScheduleTheorems

  class Command {
    const stack: string
    var temporal: map<string, Creation>

    constructor (stack: string, temporal: map<string, Creation>)
      ensures this.stack == stack && this.temporal == temporal
    {
      this.stack, this.temporal := stack, temporal;
    }

    /** A schedule that exists already is left as it is, and that is a success; any other error is returned. */
    method CreateSchedule(c: Creation, fails: string -> bool) returns (r: Result<()>)
      modifies this
      ensures r.Err? <==> fails(c.id)
      ensures r.Err? ==> r.error == Unavailable && temporal == old(temporal)
      ensures r.Ok? && c.id in old(temporal) ==> temporal == old(temporal)
      ensures r.Ok? && c.id !in old(temporal) ==> temporal == old(temporal)[c.id := c]
    {
      if fails(c.id) {
        return Err(Unavailable);
      }
      if c.id !in temporal {
        temporal := temporal[c.id := c];
      }
      return Ok(());
    }

    /** One goroutine: after an error in another one it may find itself cancelled. */
    method RunOne(c: Creation, failed: bool, fails: string -> bool) returns (created: bool)
      modifies this
      ensures created ==> !fails(c.id)
      ensures !created ==> (failed || fails(c.id)) && temporal == old(temporal)
      ensures created ==> temporal == if c.id in old(temporal) then old(temporal) else old(temporal)[c.id := c]
    {
      var cancelled := false;
      if failed {
        cancelled := *;
      }
      if cancelled {
        return false;
      }
      var r := CreateSchedule(c, fails);
      return r.Ok?;
    }

    /**
     Waits for the goroutines of a phase, which finish in any order. It succeeds exactly when none
     fails, and all are then created in that order; after an error some of the others may be missing.
     */
    method WaitAll(launched: seq<Creation>, fails: string -> bool) returns (r: Result<()>, ghost order: seq<Creation>)
      modifies this
      ensures temporal == CreateAll(old(temporal), order)
      ensures r.Err? <==> SomeFails(launched, fails)
      ensures r.Err? ==> r.error == Unavailable
      ensures multiset(order) <= multiset(launched) && (r.Ok? ==> multiset(order) == multiset(launched))
    {
      var todo := launched;
      var failed := false;
      order := [];
      ghost var skipped: seq<Creation> := [];
      while todo != []
        invariant multiset(order) + multiset(skipped) + multiset(todo) == multiset(launched)
        invariant failed <==> SomeFails(skipped, fails)
        invariant !SomeFails(order, fails) && (!failed ==> skipped == [])
        invariant temporal == CreateAll(old(temporal), order)
        decreases |todo|
      {
        var i: nat :| i < |todo|;
        var c := todo[i];
        ScheduleTheorems.TakingOne(todo, i);
        todo := todo[..i] + todo[i + 1..];
        assert (order + [c])[..|order|] == order;
        var created := RunOne(c, failed, fails);
        if created {
          order := order + [c];
        } else {
          failed := failed || fails(c.id);
          skipped := skipped + [c];
        }
      }
      AllAccountedFor(launched, order, skipped, fails);
      r := if failed then Err(Unavailable) else Ok(());
    }

    method RecreateRootSchedules(connector: string, period: nat, tasks: seq<Task>, fails: string -> bool)
      returns (r: Result<()>, ghost order: seq<Creation>)
      modifies this
      ensures temporal == CreateAll(old(temporal), order)
      ensures var cs := RootCreations(Setup(stack, connector, period), tasks);
              && (r.Err? <==> SomeFails(cs, fails)) && (r.Err? ==> r.error == Unavailable)
              && multiset(order) <= multiset(cs) && (r.Ok? ==> multiset(order) == multiset(cs))
    {
      var launched: seq<Creation> := [];
      for i := 0 to |tasks|
        invariant launched == RootCreations(Setup(stack, connector, period), tasks[..i])
        invariant temporal == old(temporal)
      {
        assert tasks[..i + 1][..i] == tasks[..i];
        var task := tasks[i];
        if !task.periodically || task.taskType !in KNOWN_CAPABILITIES {
          continue;
        }
        var scheduleId := ScheduleId(stack, connector, CapabilityName(task.taskType), None);
        var request := TaskRequest(task, None);
        launched := launched + [Creation(scheduleId, request, task.next, period, Jitter(period))];
      }
      assert tasks[..|tasks|] == tasks;
      r, order := WaitAll(launched, fails);
    }

    /** The cached walk over all pages creates what looking every account up anew would create. */
    method RecreateSubSchedules(connector: string, period: nat, tree: seq<Task>, accounts: map<string, Account>,
                                pages: seq<seq<string>>, fails: string -> bool)
      returns (r: Result<()>, ghost order: seq<Creation>)
      modifies this
      ensures temporal == CreateAll(old(temporal), order)
      ensures var cs := SubCreations(Setup(stack, connector, period), tree, accounts, Flatten(pages));
              && (r.Err? <==> SomeFails(cs, fails)) && (r.Err? ==> r.error == Unavailable)
              && multiset(order) <= multiset(cs) && (r.Ok? ==> temporal == CreateAll(old(temporal), cs))
    {
      var setup := Setup(stack, connector, period);
      var accountCache: map<string, Account> := map[];
      var launched: seq<Creation> := [];
      for i := 0 to |pages|
        invariant IsCacheOf(accountCache, accounts)
        invariant launched == SubCreations(setup, tree, accounts, Flatten(pages[..i]))
        invariant temporal == old(temporal)
      {
        assert pages[..i + 1][..i] == pages[..i];
        ScheduleTheorems.SubCreationsAppend(setup, tree, accounts, Flatten(pages[..i]), pages[i]);
        var more;
        more, accountCache := LaunchPage(setup, tree, accounts, pages[i], accountCache);
        launched := launched + more;
      }
      assert pages[..|pages|] == pages;
      r, order := WaitAll(launched, fails);
      if r.Ok? {
        ScheduleTheorems.SameCreations(order, launched);
        ScheduleTheorems.RecreatingIgnoresOrder(setup, tree, accounts, old(temporal), Flatten(pages), order);
      }
    }

    /**
     One connector: nothing without a task tree, nothing but an error when its configuration cannot be
     read, and the second phase only after a first one without errors.
     */
    method RecreateConnectorSchedules(connector: string, tree: Option<seq<Task>>, config: Option<nat>,
                                      accounts: map<string, Account>, pages: seq<seq<string>>, fails: string -> bool)
      returns (r: Result<()>, ghost roots: seq<Creation>, ghost subs: seq<Creation>)
      modifies this
      ensures temporal == CreateAll(CreateAll(old(temporal), roots), subs)
      ensures tree.None? ==> r.Ok? && temporal == old(temporal)
      ensures tree.Some? && config.None? ==> r == Err(Undecodable) && temporal == old(temporal)
      ensures tree.Some? && config.Some? ==>
                var setup := Setup(stack, connector, PeriodOf(config.value));
                var rootCs := RootCreations(setup, tree.value);
                var subCs := SubCreations(setup, tree.value, accounts, Flatten(pages));
                && (r.Err? <==> SomeFails(rootCs, fails) || SomeFails(subCs, fails))
                && multiset(roots) <= multiset(rootCs) && multiset(subs) <= multiset(subCs)
                && (SomeFails(rootCs, fails) ==> subs == [])
                && (r.Ok? ==> multiset(roots) == multiset(rootCs))
                && (r.Ok? ==> temporal == CreateAll(CreateAll(old(temporal), roots), subCs))
      ensures config.Some? ==>
                forall c | c in roots || c in subs ::
                  ScheduleTheorems.HasPeriod(c, if config.value == 0 then 1800 else config.value)
    {
      roots, subs := [], [];
      if tree.None? {
        return Ok(()), roots, subs;
      }
      if config.None? {
        return Err(Undecodable), roots, subs;
      }
      var period := if config.value == 0 then DEFAULT_PERIOD else config.value;
      r, roots := RecreateRootSchedules(connector, period, tree.value, fails);
      if r.Ok? {
        r, subs := RecreateSubSchedules(connector, period, tree.value, accounts, pages, fails);
      }
      AllHavePeriod(Setup(stack, connector, period), tree.value, accounts, Flatten(pages), roots, subs);
    }
  }

  lemma AllHavePeriod(s: Setup, tree: seq<Task>, accounts: map<string, Account>, ids: seq<string>,
                      roots: seq<Creation>, subs: seq<Creation>)
    requires multiset(roots) <= multiset(RootCreations(s, tree))
    requires multiset(subs) <= multiset(SubCreations(s, tree, accounts, ids))
    ensures forall c | c in roots || c in subs :: ScheduleTheorems.HasPeriod(c, s.period)
  {
    ScheduleTheorems.CreationsHavePeriod(s, tree, accounts, ids);
    forall c | c in roots || c in subs ensures ScheduleTheorems.HasPeriod(c, s.period) {
      assert c in multiset(roots) || c in multiset(subs);
    }
  }

  /** The service answers one of the creations with another error than an existing schedule. */
  predicate SomeFails(cs: seq<Creation>, fails: string -> bool) {
    exists c | c in cs :: fails(c.id)
  }

  lemma AllAccountedFor(launched: seq<Creation>, order: seq<Creation>, skipped: seq<Creation>, fails: string -> bool)
    requires multiset(order) + multiset(skipped) == multiset(launched) && !SomeFails(order, fails)
    ensures SomeFails(launched, fails) <==> SomeFails(skipped, fails)
  {
    forall c ensures c in launched <==> c in order || c in skipped {
      assert c in multiset(launched) <==> c in multiset(order) || c in multiset(skipped);
    }
  }

  /** The schedules of one page, looked up through the cache. */
  method LaunchPage(setup: Setup, tree: seq<Task>, accounts: map<string, Account>, page: seq<string>,
                    accountCache: map<string, Account>)
    returns (launched: seq<Creation>, accountCache': map<string, Account>)
    requires IsCacheOf(accountCache, accounts)
    ensures IsCacheOf(accountCache', accounts) && launched == SubCreations(setup, tree, accounts, page)
  {
    launched, accountCache' := [], accountCache;
    for j := 0 to |page|
      invariant IsCacheOf(accountCache', accounts)
      invariant launched == SubCreations(setup, tree, accounts, page[..j])
    {
      assert page[..j + 1][..j] == page[..j];
      var parsed := Parse(page[j], Prefix(setup.stack, setup.connector), KNOWN_CAPABILITIES);
      if parsed.None? || parsed.value.payload == "" {
        continue;
      }
      var payloadId := parsed.value.payload;
      if payloadId !in accountCache' {
        if payloadId !in accounts {
          continue;
        }
        accountCache' := accountCache'[payloadId := accounts[payloadId]];
      }
      var fromPayload := FromPayload(payloadId, accountCache'[payloadId].json);
      var request := Request(parsed.value.taskType, "", Some(fromPayload));
      var nextTasks := FindNextTasks(tree, parsed.value.taskType);
      launched := launched + [Creation(page[j], request, nextTasks, setup.period, Jitter(setup.period))];
    }
    assert page[..|page|] == page;
  }

  /** The cache holds stored accounts only, under their own reference. */
  predicate IsCacheOf(cache: map<string, Account>, accounts: map<string, Account>) {
    forall reference | reference in cache :: reference in accounts && accounts[reference] == cache[reference]
  }
}
