/** Printing and parsing of schedule identifiers, the search in a task tree, and what is recreated. */
module ScheduleTheorems {
  import opened Common
  import opened Schedules

  // ---- The table ------------------------------------------------------------------------------

  predicate DashFree(s: string) {
    '-' !in s
  }

  lemma NamesAreDashFree(t: TaskType)
    ensures DashFree(CapabilityName(t)) && CapabilityName(t) != ""
  {
  }

  lemma NamesAreDistinct(t: TaskType, u: TaskType)
    requires CapabilityName(t) == CapabilityName(u)
    ensures t == u
  {
    var s := CapabilityName(t);
    assert |s| == |CapabilityName(u)|;
    if |s| == 12 {
      assert s[6] == CapabilityName(u)[6];
    } else if |s| == 14 {
      assert s[6] == CapabilityName(u)[6];
    }
  }

  /** Two dash-free names, each followed by a dash, begin the same string only when they are equal. */
  lemma FirstDashDecides(a: string, b: string, rest: string)
    requires DashFree(a) && DashFree(b) && a + "-" <= b + "-" + rest
    ensures a == b
  {
    var s := b + "-" + rest;
    assert s[|a|] == (a + "-")[|a|] == '-';
    assert forall i | 0 <= i < |a| :: s[i] == (a + "-")[i] == a[i];
    assert forall i | 0 <= i < |a| :: s[i] != '-';
    assert forall i | 0 <= i < |b| :: s[i] == b[i] != '-';
    OneFirstDash(s, |a|, |b|);
  }

  lemma OneFirstDash(s: string, i: nat, j: nat)
    requires i < |s| && s[i] == '-' && forall k | 0 <= k < i :: s[k] != '-'
    requires j < |s| && s[j] == '-' && forall k | 0 <= k < j :: s[k] != '-'
    ensures i == j
  {
  }

  lemma NameHasNoDash(name: string, other: string, payload: string)
    requires DashFree(name)
    ensures name != other + "-" + payload
  {
    assert (other + "-" + payload)[|other|] == '-';
  }

  // ---- Parsing --------------------------------------------------------------------------------

  /** The remainder is a name, alone or followed by a dash and the payload. */
  predicate SpellsName(remainder: string, name: string, payload: string) {
    (remainder == name && payload == "") || remainder == name + "-" + payload
  }

  predicate Spells(remainder: string, parsed: Parsed) {
    SpellsName(remainder, CapabilityName(parsed.taskType), parsed.payload)
  }

  lemma ParseNameIffSpelled(remainder: string, name: string, payload: string)
    requires DashFree(name)
    ensures ParseName(remainder, name) == Some(payload) <==> SpellsName(remainder, name, payload)
  {
    NameHasNoDash(name, name, payload);
    if name + "-" <= remainder {
      assert remainder == name + "-" + remainder[|name| + 1..];
    }
  }

  lemma SpelledNameIsUnique(remainder: string, a: string, p: string, b: string, q: string)
    requires DashFree(a) && DashFree(b) && SpellsName(remainder, a, p) && SpellsName(remainder, b, q)
    ensures a == b && p == q
  {
    NameHasNoDash(a, b, q);
    NameHasNoDash(b, a, p);
    if remainder != a {
      assert a + "-" <= b + "-" + q;
      FirstDashDecides(a, b, q);
      assert p == remainder[|a| + 1..] == q;
    }
  }

  lemma SpellingIsUnique(remainder: string, a: Parsed, b: Parsed)
    requires Spells(remainder, a) && Spells(remainder, b)
    ensures a == b
  {
    NamesAreDashFree(a.taskType);
    NamesAreDashFree(b.taskType);
    SpelledNameIsUnique(remainder, CapabilityName(a.taskType), a.payload, CapabilityName(b.taskType), b.payload);
    NamesAreDistinct(a.taskType, b.taskType);
  }

  /** The scan finds a spelling whenever the table has one, whatever its order. */
  lemma {:induction false} ParseFindsTheSpelling(remainder: string, table: Table, parsed: Parsed)
    ensures ParseRemainder(remainder, table) == Some(parsed) <==> parsed.taskType in table && Spells(remainder, parsed)
  {
    if table != [] {
      var head := table[0];
      NamesAreDashFree(head);
      ParseFindsTheSpelling(remainder, table[1..], parsed);
      assert table == [head] + table[1..];
      ParseNameIffSpelled(remainder, CapabilityName(head), parsed.payload);
      var found := ParseName(remainder, CapabilityName(head));
      if found.Some? {
        ParseNameIffSpelled(remainder, CapabilityName(head), found.value);
        if Spells(remainder, parsed) {
          SpellingIsUnique(remainder, parsed, Parsed(head, found.value));
        }
      }
    }
  }

  /** Only the names and the payload decide: any two tables with the same entries parse alike. */
  lemma ParseIgnoresTableOrder(id: string, prefix: string, table: Table, table': Table)
    requires forall t :: t in table <==> t in table'
    ensures Parse(id, prefix, table) == Parse(id, prefix, table')
  {
    var remainder := CutPrefix(id, prefix);
    if remainder.Some? {
      var parsed, parsed' := ParseRemainder(remainder.value, table), ParseRemainder(remainder.value, table');
      if parsed.Some? {
        ParseFindsTheSpelling(remainder.value, table, parsed.value);
        ParseFindsTheSpelling(remainder.value, table', parsed.value);
      }
      if parsed'.Some? {
        ParseFindsTheSpelling(remainder.value, table, parsed'.value);
        ParseFindsTheSpelling(remainder.value, table', parsed'.value);
      }
    }
  }

  /** An identifier parses exactly when a listed capability prints it, and gives back its parts. */
  lemma ParsesIffPrinted(stack: string, connector: string, id: string, table: Table, parsed: Parsed)
    ensures Parse(id, Prefix(stack, connector), table) == Some(parsed) <==>
            parsed.taskType in table &&
            (id == ScheduleId(stack, connector, CapabilityName(parsed.taskType), Some(parsed.payload)) ||
             (parsed.payload == "" && id == ScheduleId(stack, connector, CapabilityName(parsed.taskType), None)))
  {
    var prefix, name := Prefix(stack, connector), CapabilityName(parsed.taskType);
    NamesAreDashFree(parsed.taskType);
    AppendIsAssociative(prefix, name, parsed.payload);
    if prefix <= id {
      var remainder := id[|prefix|..];
      assert id == prefix + remainder;
      ParseFindsTheSpelling(remainder, table, parsed);
      SameRemainder(prefix, remainder, name);
      SameRemainder(prefix, remainder, name + "-" + parsed.payload);
    }
  }

  lemma AppendIsAssociative(prefix: string, name: string, payload: string)
    ensures prefix + name + "-" + payload == prefix + (name + "-" + payload)
  {
  }

  lemma SameRemainder(prefix: string, a: string, b: string)
    ensures prefix + a == prefix + b <==> a == b
  {
    if prefix + a == prefix + b {
      assert a == (prefix + a)[|prefix|..] == (prefix + b)[|prefix|..] == b;
    }
  }

  function PayloadOf(payload: Option<string>): string {
    match payload
    case None => ""
    case Some(id) => id
  }

  /**
   Round trip. For every capability and payload, dashes included, the printed identifier parses back
   into exactly its parts when the command lists the capability, and does not parse otherwise.
   */
  lemma RoundTrip(stack: string, connector: string, t: TaskType, payload: Option<string>)
    ensures var id := ScheduleId(stack, connector, CapabilityName(t), payload);
            Parse(id, Prefix(stack, connector), KNOWN_CAPABILITIES) ==
            if t in KNOWN_CAPABILITIES then Some(Parsed(t, PayloadOf(payload))) else None
  {
    var id, prefix := ScheduleId(stack, connector, CapabilityName(t), payload), Prefix(stack, connector);
    ParsesIffPrinted(stack, connector, id, KNOWN_CAPABILITIES, Parsed(t, PayloadOf(payload)));
    var result := Parse(id, prefix, KNOWN_CAPABILITIES);
    if result.Some? {
      ParsesIffPrinted(stack, connector, id, KNOWN_CAPABILITIES, result.value);
      PrintingIsInjective(stack, connector, t, payload, result.value.taskType, Some(result.value.payload));
      PrintingIsInjective(stack, connector, t, payload, result.value.taskType, None);
    }
  }

  /** What follows the prefix. */
  function Suffix(name: string, payload: Option<string>): string {
    match payload
    case None => name
    case Some(id) => name + "-" + id
  }

  lemma SuffixIsInjective(a: string, p: Option<string>, b: string, q: Option<string>)
    requires DashFree(a) && DashFree(b) && Suffix(a, p) == Suffix(b, q)
    ensures a == b && p == q
  {
    SpelledNameIsUnique(Suffix(a, p), a, PayloadOf(p), b, PayloadOf(q));
    NameHasNoDash(a, a, PayloadOf(p));
    NameHasNoDash(a, a, PayloadOf(q));
  }

  /** For a fixed stack and connector, printing is injective in the capability and the optional payload. */
  lemma PrintingIsInjective(stack: string, connector: string, t: TaskType, p: Option<string>, u: TaskType,
                            q: Option<string>)
    ensures ScheduleId(stack, connector, CapabilityName(t), p) ==
            ScheduleId(stack, connector, CapabilityName(u), q) <==>
            t == u && p == q
  {
    var prefix, a, b := Prefix(stack, connector), CapabilityName(t), CapabilityName(u);
    AppendIsAssociative(prefix, a, PayloadOf(p));
    AppendIsAssociative(prefix, b, PayloadOf(q));
    SameRemainder(prefix, Suffix(a, p), Suffix(b, q));
    NamesAreDashFree(t);
    NamesAreDashFree(u);
    if Suffix(a, p) == Suffix(b, q) {
      SuffixIsInjective(a, p, b, q);
      NamesAreDistinct(t, u);
    }
  }

  /** The prefix must be known: stack and connector cannot be told apart from the identifier alone. */
  lemma PrefixIsAmbiguous(capability: string, payload: Option<string>)
    ensures ScheduleId("a", "b-c", capability, payload) == ScheduleId("a-b", "c", capability, payload)
  {
    assert Prefix("a", "b-c") == Prefix("a-b", "c");
  }

  /** Orders and conversions are scheduled by the engine but missing from the command's table. */
  lemma UnlistedCapabilities(t: TaskType)
    ensures t !in KNOWN_CAPABILITIES <==> t == FetchOrders || t == FetchConversions
  {
    assert KNOWN_CAPABILITIES ==
           [FetchExternalAccounts, FetchAccounts, FetchBalances, FetchPayments, FetchOthers, CreateWebhooks];
    assert KNOWN_CAPABILITIES[0] == FetchExternalAccounts && KNOWN_CAPABILITIES[1] == FetchAccounts;
    assert KNOWN_CAPABILITIES[2] == FetchBalances && KNOWN_CAPABILITIES[3] == FetchPayments;
    assert KNOWN_CAPABILITIES[4] == FetchOthers && KNOWN_CAPABILITIES[5] == CreateWebhooks;
  }

  // ---- The search in the tree -----------------------------------------------------------------

  lemma OccurrencesOf(tasks: seq<Task>, target: TaskType)
    requires tasks != []
    ensures var own := if tasks[0].taskType == target then [tasks[0]] else [];
            var below := if tasks[0].next.List? then Occurrences(tasks[0].next.tasks, target) else [];
            Occurrences(tasks, target) == own + below + Occurrences(tasks[1..], target)
  {
  }

  /** Whatever is found is the next tasks of some task of the type. */
  lemma {:induction false} FoundIsAnOccurrence(tasks: seq<Task>, target: TaskType)
    ensures FindNextTasks(tasks, target) != Nil ==>
              exists o | o in Occurrences(tasks, target) :: o.next == FindNextTasks(tasks, target)
  {
    if tasks != [] {
      if tasks[0].next.List? {
        FoundIsAnOccurrence(tasks[0].next.tasks, target);
      }
      FoundIsAnOccurrence(tasks[1..], target);
      OccurrencesOf(tasks, target);
    }
  }

  /** The first task of the type is the one found, unless it has no next tasks at all. */
  lemma {:induction false} FirstOccurrenceWins(tasks: seq<Task>, target: TaskType)
    requires Occurrences(tasks, target) != [] && Occurrences(tasks, target)[0].next != Nil
    ensures FindNextTasks(tasks, target) == Occurrences(tasks, target)[0].next
  {
    OccurrencesOf(tasks, target);
    if tasks[0].taskType != target {
      if tasks[0].next.List? && Occurrences(tasks[0].next.tasks, target) != [] {
        FirstOccurrenceWins(tasks[0].next.tasks, target);
      } else {
        if tasks[0].next.List? {
          FoundIsAnOccurrence(tasks[0].next.tasks, target);
        }
        FirstOccurrenceWins(tasks[1..], target);
      }
    }
  }

  lemma OnlyOneToFind(found: Tasks, occurrences: seq<Task>)
    requires |occurrences| <= 1
    requires found != Nil ==> exists o | o in occurrences :: o.next == found
    requires occurrences != [] && occurrences[0].next != Nil ==> found == occurrences[0].next
    ensures found == if occurrences == [] then Nil else occurrences[0].next
  {
  }

  /** When a type occurs once, the search finds that task; when it does not occur, it finds nothing. */
  lemma SearchIsExact(tasks: seq<Task>, target: TaskType)
    requires |Occurrences(tasks, target)| <= 1
    ensures FindNextTasks(tasks, target) ==
            if Occurrences(tasks, target) == [] then Nil else Occurrences(tasks, target)[0].next
  {
    var occurrences := Occurrences(tasks, target);
    FoundIsAnOccurrence(tasks, target);
    if occurrences != [] && occurrences[0].next != Nil {
      FirstOccurrenceWins(tasks, target);
    }
    OnlyOneToFind(FindNextTasks(tasks, target), occurrences);
  }

  /** The tasks of a type that the search looks at: none below or beside an earlier match of its own list. */
  function Candidates(tasks: seq<Task>, target: TaskType): seq<Task> {
    if tasks == [] then []
    else if tasks[0].taskType == target then [tasks[0]]
    else
      (if tasks[0].next.List? then Candidates(tasks[0].next.tasks, target) else []) + Candidates(tasks[1..], target)
  }

  function FirstNext(candidates: seq<Task>): Tasks {
    if candidates == [] then Nil
    else if candidates[0].next != Nil then candidates[0].next
    else FirstNext(candidates[1..])
  }

  lemma {:induction false} FirstNextAppend(a: seq<Task>, b: seq<Task>)
    ensures FirstNext(a + b) == if FirstNext(a) != Nil then FirstNext(a) else FirstNext(b)
  {
    if a == [] {
      assert a + b == b;
    } else {
      FirstNextAppend(a[1..], b);
      assert (a + b)[1..] == a[1..] + b;
    }
  }

  /** For every tree: the search gives the first next tasks that are not nil among its candidates. */
  lemma {:induction false} SearchIsFirstNext(tasks: seq<Task>, target: TaskType)
    ensures FindNextTasks(tasks, target) == FirstNext(Candidates(tasks, target))
  {
    if tasks != [] && tasks[0].taskType != target {
      var below := if tasks[0].next.List? then Candidates(tasks[0].next.tasks, target) else [];
      if tasks[0].next.List? {
        SearchIsFirstNext(tasks[0].next.tasks, target);
      }
      SearchIsFirstNext(tasks[1..], target);
      FirstNextAppend(below, Candidates(tasks[1..], target));
    }
  }

  predicate SameFirst(a: seq<Task>, b: seq<Task>) {
    (a == [] <==> b == []) && (a != [] ==> a[0] == b[0])
  }

  lemma SameFirstAppend(a: seq<Task>, b: seq<Task>, c: seq<Task>, d: seq<Task>)
    requires SameFirst(a, b) && SameFirst(c, d)
    ensures SameFirst(a + c, b + d)
  {
  }

  lemma NotOfTheType(tasks: seq<Task>, target: TaskType) returns (a: seq<Task>, b: seq<Task>)
    requires tasks != [] && tasks[0].taskType != target
    ensures a == if tasks[0].next.List? then Candidates(tasks[0].next.tasks, target) else []
    ensures b == if tasks[0].next.List? then Occurrences(tasks[0].next.tasks, target) else []
    ensures Candidates(tasks, target) == a + Candidates(tasks[1..], target)
    ensures Occurrences(tasks, target) == b + Occurrences(tasks[1..], target)
  {
    a := if tasks[0].next.List? then Candidates(tasks[0].next.tasks, target) else [];
    b := if tasks[0].next.List? then Occurrences(tasks[0].next.tasks, target) else [];
    assert [] + b == b;
  }

  lemma {:induction false} FirstCandidate(tasks: seq<Task>, target: TaskType)
    ensures SameFirst(Candidates(tasks, target), Occurrences(tasks, target))
  {
    if tasks != [] {
      if tasks[0].taskType == target {
        OccurrencesOf(tasks, target);
      } else {
        var a, b := NotOfTheType(tasks, target);
        if tasks[0].next.List? {
          FirstCandidate(tasks[0].next.tasks, target);
        }
        FirstCandidate(tasks[1..], target);
        SameFirstAppend(a, b, Candidates(tasks[1..], target), Occurrences(tasks[1..], target));
      }
    }
  }

  lemma {:induction false} FirstNextIsNil(candidates: seq<Task>)
    ensures FirstNext(candidates) == Nil <==> forall c | c in candidates :: c.next == Nil
  {
    if candidates != [] {
      FirstNextIsNil(candidates[1..]);
      assert candidates == [candidates[0]] + candidates[1..];
    }
  }

  /**
   When the search finds the first task of the type: exactly when that task has next tasks, or no
   other candidate has any. A nil result reads as not found and sends the search on.
   */
  lemma SearchFindsFirstIff(tasks: seq<Task>, target: TaskType)
    requires Occurrences(tasks, target) != []
    ensures FindNextTasks(tasks, target) == Occurrences(tasks, target)[0].next <==>
            Occurrences(tasks, target)[0].next != Nil || forall c | c in Candidates(tasks, target) :: c.next == Nil
  {
    SearchIsFirstNext(tasks, target);
    FirstCandidate(tasks, target);
    FirstNextIsNil(Candidates(tasks, target));
  }

  /** An example: the first match, below another task, is passed over for a later one. */
  lemma RepeatedTypeSkipsNil(target: TaskType, other: TaskType, later: seq<Task>)
    requires target != other
    ensures var leaf := Task(target, "", true, Nil);
            var tasks := [Task(other, "", true, List([leaf])), Task(target, "", true, List(later))];
            Occurrences(tasks, target) != [] && Occurrences(tasks, target)[0] == leaf &&
            FindNextTasks(tasks, target) == List(later)
  {
    var leaf := Task(target, "", true, Nil);
    var tasks := [Task(other, "", true, List([leaf])), Task(target, "", true, List(later))];
    assert tasks[1..] == [tasks[1]];
    assert FindNextTasks([leaf], target) == Nil;
    assert Occurrences([leaf], target) == [leaf] + [] + Occurrences([], target);
    assert Occurrences(tasks, target) == [] + Occurrences([leaf], target) + Occurrences(tasks[1..], target);
  }

  // ---- Creating in any order ------------------------------------------------------------------

  function FirstWith(cs: seq<Creation>, id: string): Option<Creation> {
    if cs == [] then None
    else
      var first := FirstWith(cs[..|cs| - 1], id);
      if first.None? && cs[|cs| - 1].id == id then Some(cs[|cs| - 1]) else first
  }

  /** Existing schedules stay; under a missing id the first creation with it is stored, if there is one. */
  lemma {:induction false} FirstCreationWins(existing: map<string, Creation>, cs: seq<Creation>, id: string)
    ensures var after := CreateAll(existing, cs);
            if id in existing then id in after && after[id] == existing[id]
            else (id in after <==> FirstWith(cs, id).Some?) && (id in after ==> FirstWith(cs, id) == Some(after[id]))
  {
    if cs != [] {
      FirstCreationWins(existing, cs[..|cs| - 1], id);
      FirstCreationWins(existing, cs[..|cs| - 1], cs[|cs| - 1].id);
    }
  }

  lemma {:induction false} FirstWithIsOne(cs: seq<Creation>, id: string)
    ensures FirstWith(cs, id).Some? <==> exists c | c in cs :: c.id == id
    ensures FirstWith(cs, id).Some? ==> FirstWith(cs, id).value in cs && FirstWith(cs, id).value.id == id
  {
    if cs != [] {
      FirstWithIsOne(cs[..|cs| - 1], id);
      assert cs == cs[..|cs| - 1] + [cs[|cs| - 1]];
    }
  }

  lemma {:induction false} FirstOfAll(c: Creation, rest: seq<Creation>)
    ensures FirstWith([c] + rest, c.id) == Some(c)
    decreases |rest|
  {
    var cs := [c] + rest;
    if rest == [] {
      assert cs == [c] && cs[..0] == [];
    } else {
      FirstOfAll(c, rest[..|rest| - 1]);
      assert cs[..|cs| - 1] == [c] + rest[..|rest| - 1];
    }
  }

  predicate AgreeOn(cs: seq<Creation>, id: string, c: Creation) {
    forall other | other in cs && other.id == id :: other == c
  }

  ghost predicate InEveryOrder(existing: map<string, Creation>, cs: seq<Creation>, c: Creation) {
    forall order | multiset(order) == multiset(cs) ::
      c.id in CreateAll(existing, order) && CreateAll(existing, order)[c.id] == c
  }

  lemma TakingOne(cs: seq<Creation>, i: nat)
    requires i < |cs|
    ensures multiset(cs) == multiset{cs[i]} + multiset(cs[..i] + cs[i + 1..])
  {
    assert cs == cs[..i] + [cs[i]] + cs[i + 1..];
  }

  lemma SameCreations(order: seq<Creation>, cs: seq<Creation>)
    requires multiset(order) == multiset(cs)
    ensures forall c :: c in order <==> c in cs
  {
    forall c ensures c in order <==> c in cs {
      assert c in multiset(order) <==> c in multiset(cs);
    }
  }

  lemma CanBeFirst(existing: map<string, Creation>, cs: seq<Creation>, c: Creation) returns (order: seq<Creation>)
    requires c in cs && c.id !in existing
    ensures multiset(order) == multiset(cs)
    ensures c.id in CreateAll(existing, order) && CreateAll(existing, order)[c.id] == c
  {
    var i :| 0 <= i < |cs| && cs[i] == c;
    var rest := cs[..i] + cs[i + 1..];
    TakingOne(cs, i);
    order := [c] + rest;
    FirstCreationWins(existing, order, c.id);
    FirstOfAll(c, rest);
  }

  lemma AgreedInOrder(existing: map<string, Creation>, cs: seq<Creation>, c: Creation, order: seq<Creation>)
    requires c.id !in existing && c in cs && AgreeOn(cs, c.id, c) && multiset(order) == multiset(cs)
    ensures c.id in CreateAll(existing, order) && CreateAll(existing, order)[c.id] == c
  {
    SameCreations(order, cs);
    FirstCreationWins(existing, order, c.id);
    FirstWithIsOne(order, c.id);
  }

  /** Whoever finishes first wins, so the outcome under an id is certain exactly when all agree on it. */
  lemma CertainInEveryOrderIff(existing: map<string, Creation>, cs: seq<Creation>, c: Creation)
    requires c.id !in existing
    ensures InEveryOrder(existing, cs, c) <==> c in cs && AgreeOn(cs, c.id, c)
  {
    if InEveryOrder(existing, cs, c) {
      assert c.id in CreateAll(existing, cs) && CreateAll(existing, cs)[c.id] == c;
      FirstCreationWins(existing, cs, c.id);
      FirstWithIsOne(cs, c.id);
      forall other | other in cs && other.id == c.id ensures other == c {
        var order := CanBeFirst(existing, cs, other);
      }
    }
    if c in cs && AgreeOn(cs, c.id, c) {
      forall order | multiset(order) == multiset(cs)
        ensures c.id in CreateAll(existing, order) && CreateAll(existing, order)[c.id] == c
      {
        AgreedInOrder(existing, cs, c, order);
      }
    }
  }

  // ---- What is recreated ----------------------------------------------------------------------

  /**
   A sub-schedule that the engine stored is recreated exactly when its capability is listed, its
   payload id is not empty and there is an account of that reference. It is then the schedule the engine
   created, exactly if the engine started it from what is now rebuilt from that account, the periods are
   the same, the search finds the tasks that follow, and the task is not a named FETCH_OTHERS, whose name
   is lost. A sub-schedule started from a payment fails the first of these.
   */
  lemma SubScheduleIsRecreatedIff(engine: Setup, period: nat, tree: seq<Task>, accounts: map<string, Account>,
                                  task: Task, from: FromPayload)
    ensures var original := Scheduled(engine, task, Some(from));
            var recreated := SubCreation(engine.(period := period), tree, accounts, original.id);
            && (recreated.Some? <==> task.taskType in KNOWN_CAPABILITIES && from.id != "" && from.id in accounts)
            && (recreated.Some? ==>
                  (recreated.value == original <==>
                   && accounts[from.id].json == from.payload && period == engine.period
                   && FindNextTasks(tree, task.taskType) == task.next
                   && (task.taskType != FetchOthers || task.name == "")))
  {
    RoundTrip(engine.stack, engine.connector, task.taskType, Some(from.id));
  }

  /** For a type that occurs once in the tree the search always finds them. */
  lemma SubScheduleOfSingleTask(engine: Setup, tree: seq<Task>, accounts: map<string, Account>, task: Task,
                                from: FromPayload)
    requires Occurrences(tree, task.taskType) == [task]
    ensures var original := Scheduled(engine, task, Some(from));
            SubCreation(engine, tree, accounts, original.id) == Some(original) <==>
            && task.taskType in KNOWN_CAPABILITIES && from.id != "" && from.id in accounts
            && accounts[from.id].json == from.payload && (task.taskType != FetchOthers || task.name == "")
  {
    SubScheduleIsRecreatedIff(engine, engine.period, tree, accounts, task, from);
    SearchIsExact(tree, task.taskType);
  }

  /** A stored root schedule is left to the first phase. */
  lemma RootScheduleIsSkipped(s: Setup, tree: seq<Task>, accounts: map<string, Account>, task: Task)
    ensures SubCreation(s, tree, accounts, Scheduled(s, task, None).id) == None
  {
    RoundTrip(s.stack, s.connector, task.taskType, None);
  }

  lemma {:induction false} RootCreationsElements(s: Setup, tasks: seq<Task>)
    ensures forall c :: c in RootCreations(s, tasks) <==>
                        exists task :: task in tasks && IsRecreatedRoot(task) && c == Scheduled(s, task, None)
  {
    if tasks != [] {
      var init, last := tasks[..|tasks| - 1], tasks[|tasks| - 1];
      RootCreationsElements(s, init);
      assert tasks == init + [last];
      forall c
        ensures c in RootCreations(s, tasks) <==>
                exists task :: task in tasks && IsRecreatedRoot(task) && c == Scheduled(s, task, None)
      {
        if c in RootCreations(s, init) {
          var task :| task in init && IsRecreatedRoot(task) && c == Scheduled(s, task, None);
          assert task in tasks;
        }
      }
    }
  }

  lemma RootIdsAreTypes(s: Setup, t: Setup, task: Task, other: Task)
    requires s.stack == t.stack && s.connector == t.connector
    ensures Scheduled(s, task, None).id == Scheduled(t, other, None).id <==> task.taskType == other.taskType
  {
    PrintingIsInjective(s.stack, s.connector, task.taskType, None, other.taskType, None);
  }

  /**
   Phase one. Each root is created in its own goroutine, so several of one type race for one id. A
   missing root schedule is recreated as the engine created it, whoever wins, exactly when its type is
   known and all periodic root tasks of that type give that same schedule.
   */
  lemma RootIsRecreatedInEveryOrderIff(engine: Setup, period: nat, existing: map<string, Creation>, tasks: seq<Task>,
                                       task: Task)
    requires task in tasks && task.periodically && Scheduled(engine, task, None).id !in existing
    ensures var s, original := engine.(period := period), Scheduled(engine, task, None);
            InEveryOrder(existing, RootCreations(s, tasks), original) <==>
            task.taskType in KNOWN_CAPABILITIES &&
            forall other | other in tasks && other.periodically && other.taskType == task.taskType ::
              Scheduled(s, other, None) == original
  {
    var s, original := engine.(period := period), Scheduled(engine, task, None);
    var cs := RootCreations(s, tasks);
    RootCreationsElements(s, tasks);
    CertainInEveryOrderIff(existing, cs, original);
    forall other | other in tasks
      ensures Scheduled(s, other, None).id == original.id <==> other.taskType == task.taskType
    {
      RootIdsAreTypes(s, engine, other, task);
    }
    if task.taskType in KNOWN_CAPABILITIES {
      assert Scheduled(s, task, None) in cs;
      forall other | other in tasks && other.periodically && other.taskType == task.taskType
        ensures Scheduled(s, other, None) in cs
      {
        assert IsRecreatedRoot(other);
      }
    }
  }

  /** In particular when its type is periodic once at the root. */
  lemma RootScheduleIsRecreated(s: Setup, existing: map<string, Creation>, tasks: seq<Task>, task: Task)
    requires task in tasks && task.periodically && task.taskType in KNOWN_CAPABILITIES
    requires forall other | other in tasks && other.periodically && other.taskType == task.taskType :: other == task
    requires Scheduled(s, task, None).id !in existing
    ensures InEveryOrder(existing, RootCreations(s, tasks), Scheduled(s, task, None))
  {
    RootIsRecreatedInEveryOrderIff(s, s.period, existing, tasks, task);
  }

  /** In the order of the list, the first periodic task of a known type is the one that is scheduled. */
  lemma SameTypeRootsCollide(s: Setup, existing: map<string, Creation>, first: Task, rest: seq<Task>, task: Task)
    requires first.periodically && first.taskType in KNOWN_CAPABILITIES && task in rest
    requires task.taskType == first.taskType && Scheduled(s, first, None).id !in existing
    ensures var after := CreateAll(existing, [Scheduled(s, first, None)] + RootCreations(s, rest));
            && Scheduled(s, task, None).id in after
            && (after[Scheduled(s, task, None).id] == Scheduled(s, task, None) <==>
                Scheduled(s, task, None) == Scheduled(s, first, None))
  {
    var c := Scheduled(s, first, None);
    FirstOfAll(c, RootCreations(s, rest));
    FirstCreationWins(existing, [c] + RootCreations(s, rest), c.id);
  }

  lemma {:induction false} SubCreationsElements(s: Setup, tree: seq<Task>, accounts: map<string, Account>,
                                                ids: seq<string>)
    ensures forall c :: c in SubCreations(s, tree, accounts, ids) <==>
                        c.id in ids && SubCreation(s, tree, accounts, c.id) == Some(c)
  {
    if ids != [] {
      SubCreationsElements(s, tree, accounts, ids[..|ids| - 1]);
      assert ids == ids[..|ids| - 1] + [ids[|ids| - 1]];
    }
  }

  lemma {:induction false} SubCreationsAppend(s: Setup, tree: seq<Task>, accounts: map<string, Account>,
                                              ids: seq<string>, more: seq<string>)
    ensures SubCreations(s, tree, accounts, ids + more) ==
            SubCreations(s, tree, accounts, ids) + SubCreations(s, tree, accounts, more)
    decreases |more|
  {
    if more == [] {
      assert ids + more == ids;
    } else {
      SubCreationsAppend(s, tree, accounts, ids, more[..|more| - 1]);
      assert (ids + more)[..|ids + more| - 1] == ids + more[..|more| - 1];
    }
  }

  /** Creations that are determined by their id give the same schedules in every order and repetition. */
  lemma CreateAllIgnoresOrder(existing: map<string, Creation>, cs: seq<Creation>, cs': seq<Creation>)
    requires forall c :: c in cs <==> c in cs'
    requires forall c, d | c in cs && d in cs && c.id == d.id :: c == d
    ensures CreateAll(existing, cs) == CreateAll(existing, cs')
  {
    forall id
      ensures id in CreateAll(existing, cs) <==> id in CreateAll(existing, cs')
      ensures id in CreateAll(existing, cs) ==> CreateAll(existing, cs)[id] == CreateAll(existing, cs')[id]
    {
      FirstCreationWins(existing, cs, id);
      FirstCreationWins(existing, cs', id);
      FirstWithIsOne(cs, id);
      FirstWithIsOne(cs', id);
    }
  }

  /** Phase two. The outcome depends on the set of stored schedules only, not on the order of creation. */
  lemma RecreatingIgnoresOrder(s: Setup, tree: seq<Task>, accounts: map<string, Account>,
                               existing: map<string, Creation>, ids: seq<string>, order: seq<Creation>)
    requires forall c :: c in order <==> c in SubCreations(s, tree, accounts, ids)
    ensures CreateAll(existing, order) == CreateAll(existing, SubCreations(s, tree, accounts, ids))
  {
    SubCreationsElements(s, tree, accounts, ids);
    CreateAllIgnoresOrder(existing, SubCreations(s, tree, accounts, ids), order);
  }

  lemma {:induction false} NothingMissing(existing: map<string, Creation>, cs: seq<Creation>)
    requires forall c | c in cs :: c.id in existing
    ensures CreateAll(existing, cs) == existing
  {
    if cs != [] {
      assert cs == cs[..|cs| - 1] + [cs[|cs| - 1]];
      NothingMissing(existing, cs[..|cs| - 1]);
    }
  }

  /** Recreating again, any part of it and in any order, changes nothing. */
  lemma RecreatingIsIdempotent(existing: map<string, Creation>, cs: seq<Creation>, again: seq<Creation>)
    requires forall c | c in again :: c in cs
    ensures CreateAll(CreateAll(existing, cs), again) == CreateAll(existing, cs)
  {
    forall c | c in again ensures c.id in CreateAll(existing, cs) {
      FirstCreationWins(existing, cs, c.id);
      FirstWithIsOne(cs, c.id);
    }
    NothingMissing(CreateAll(existing, cs), again);
  }

  // ---- The numbers and the pages --------------------------------------------------------------

  /** A half of the period, five minutes at most. */
  predicate HasPeriod(c: Creation, period: nat) {
    c.every == period && c.jitter == if period / 2 < 300 then period / 2 else 300
  }

  /** Every schedule of either phase runs with the configured period and its jitter. */
  lemma CreationsHavePeriod(s: Setup, tree: seq<Task>, accounts: map<string, Account>, ids: seq<string>)
    ensures forall c | c in RootCreations(s, tree) || c in SubCreations(s, tree, accounts, ids) ::
              HasPeriod(c, s.period)
  {
    RootCreationsElements(s, tree);
    SubCreationsElements(s, tree, accounts, ids);
  }

  lemma {:induction false} FlattenElements(pages: seq<seq<string>>)
    ensures forall id :: id in Flatten(pages) <==> exists i :: 0 <= i < |pages| && id in pages[i]
  {
    if pages != [] {
      var n := |pages| - 1;
      FlattenElements(pages[..n]);
      assert forall i | 0 <= i < n :: pages[..n][i] == pages[i];
    }
  }

  /**
   After both phases without errors every periodic root task of a known type has its schedule, and so has
   every stored identifier, on whatever page, of a known type and a stored account.
   */
  lemma BothPhasesCreate(existing: map<string, Creation>, s: Setup, tree: seq<Task>, accounts: map<string, Account>,
                         pages: seq<seq<string>>, roots: seq<Creation>)
    requires multiset(roots) == multiset(RootCreations(s, tree))
    ensures var after := CreateAll(CreateAll(existing, roots), SubCreations(s, tree, accounts, Flatten(pages)));
            && (forall task | task in tree && task.periodically && task.taskType in KNOWN_CAPABILITIES ::
                  ScheduleId(s.stack, s.connector, CapabilityName(task.taskType), None) in after)
            && (forall i, id | 0 <= i < |pages| && id in pages[i] && SubCreation(s, tree, accounts, id).Some? ::
                  id in after)
  {
    var subs := SubCreations(s, tree, accounts, Flatten(pages));
    SameCreations(roots, RootCreations(s, tree));
    RootCreationsElements(s, tree);
    SubCreationsElements(s, tree, accounts, Flatten(pages));
    FlattenElements(pages);
    forall c | c in roots || c in subs ensures c.id in CreateAll(CreateAll(existing, roots), subs) {
      FirstCreationWins(existing, roots, c.id);
      FirstCreationWins(CreateAll(existing, roots), subs, c.id);
      FirstWithIsOne(roots, c.id);
      FirstWithIsOne(subs, c.id);
    }
    forall task | task in tree && task.periodically && task.taskType in KNOWN_CAPABILITIES
      ensures Scheduled(s, task, None) in roots
    {
      assert IsRecreatedRoot(task);
    }
    forall i, id | 0 <= i < |pages| && id in pages[i] && SubCreation(s, tree, accounts, id).Some?
      ensures SubCreation(s, tree, accounts, id).value in subs
    {
      assert id in Flatten(pages);
    }
  }

  /** The stored form of identifiers, which schedules created long ago still have. */
  lemma PrintedForm(stack: string, connector: string, payload: string)
    ensures forall t :: ScheduleId(stack, connector, CapabilityName(t), None) ==
                        stack + "-" + connector + "-" + CapabilityName(t)
    ensures forall t :: ScheduleId(stack, connector, CapabilityName(t), Some(payload)) ==
                        stack + "-" + connector + "-" + CapabilityName(t) + "-" + payload
    ensures CapabilityName(FetchAccounts) == "FETCH_ACCOUNTS" && CapabilityName(FetchBalances) == "FETCH_BALANCES"
    ensures CapabilityName(FetchExternalAccounts) == "FETCH_EXTERNAL_ACCOUNTS"
    ensures CapabilityName(FetchPayments) == "FETCH_PAYMENTS" && CapabilityName(FetchOthers) == "FETCH_OTHERS"
    ensures CapabilityName(CreateWebhooks) == "CREATE_WEBHOOKS" && CapabilityName(FetchOrders) == "FETCH_ORDERS"
    ensures CapabilityName(FetchConversions) == "FETCH_CONVERSIONS"
  {
  }
}
