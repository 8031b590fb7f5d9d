/**
 Schedule identifiers and task trees: how the engine names and starts a schedule
 (internal/connectors/engine/workflow/plugin_workflow.go) and how the recreate command reads the
 names back and rebuilds what they started (cmd/recreate_schedules.go).
 */
module Schedules {
  import opened Common

  datatype TaskType =
    | FetchOthers | FetchAccounts | FetchBalances | FetchExternalAccounts
    | FetchPayments | CreateWebhooks | FetchOrders | FetchConversions

  /** The capability of a task type, as it is printed in identifiers. */
  function CapabilityName(t: TaskType): string {
    match t
    case FetchOthers => "FETCH_OTHERS"
    case FetchAccounts => "FETCH_ACCOUNTS"
    case FetchBalances => "FETCH_BALANCES"
    case FetchExternalAccounts => "FETCH_EXTERNAL_ACCOUNTS"
    case FetchPayments => "FETCH_PAYMENTS"
    case CreateWebhooks => "CREATE_WEBHOOKS"
    case FetchOrders => "FETCH_ORDERS"
    case FetchConversions => "FETCH_CONVERSIONS"
  }

  type Table = seq<TaskType>

  /** The command's own table of capabilities, in its order. */
  const KNOWN_CAPABILITIES: Table :=
    [FetchExternalAccounts, FetchAccounts, FetchBalances, FetchPayments, FetchOthers, CreateWebhooks]

  // ---- Printing and parsing -------------------------------------------------------------------

  function Prefix(stack: string, connector: string): string {
    stack + "-" + connector + "-"
  }

  function ScheduleId(stack: string, connector: string, capability: string, payload: Option<string>): string {
    match payload
    case None => Prefix(stack, connector) + capability
    case Some(id) => Prefix(stack, connector) + capability + "-" + id
  }

  function CutPrefix(s: string, prefix: string): Option<string> {
    if prefix <= s then Some(s[|prefix|..]) else None
  }

  datatype Parsed = Parsed(taskType: TaskType, payload: string)

  /** The name alone, or the name, a dash and the payload. */
  function ParseName(remainder: string, name: string): Option<string> {
    if remainder == name then Some("") else CutPrefix(remainder, name + "-")
  }

  function ParseRemainder(remainder: string, table: Table): Option<Parsed> {
    if table == [] then None
    else
      match ParseName(remainder, CapabilityName(table[0]))
      case Some(payload) => Some(Parsed(table[0], payload))
      case None => ParseRemainder(remainder, table[1..])
  }

  function Parse(id: string, prefix: string, table: Table): Option<Parsed> {
    match CutPrefix(id, prefix)
    case None => None
    case Some(remainder) => if remainder == "" then None else ParseRemainder(remainder, table)
  }

  // ---- Task trees -----------------------------------------------------------------------------

  /** A Go slice of tasks: nil is not the empty list. */
  datatype Tasks = Nil | List(tasks: seq<Task>)

  datatype Task = Task(taskType: TaskType, name: string, periodically: bool, next: Tasks)

  /** The search of the command: a nil result reads as not found. */
  function FindNextTasks(tasks: seq<Task>, target: TaskType): Tasks {
    if tasks == [] then Nil
    else if tasks[0].taskType == target then tasks[0].next
    else
      var found := if tasks[0].next.List? then FindNextTasks(tasks[0].next.tasks, target) else Nil;
      if found != Nil then found else FindNextTasks(tasks[1..], target)
  }

  /** All tasks of a type, wherever they are, a task before those below it. */
  function Occurrences(tasks: seq<Task>, target: TaskType): seq<Task> {
    if tasks == [] then []
    else
      (if tasks[0].taskType == target then [tasks[0]] else []) +
      (if tasks[0].next.List? then Occurrences(tasks[0].next.tasks, target) else []) +
      Occurrences(tasks[1..], target)
  }

  // ---- What a schedule starts -----------------------------------------------------------------

  /** A stored account, with the JSON of the provider's account that the command rebuilds from it. */
  datatype Account = Account(reference: string, json: string)

  /** What the engine starts a sub-schedule from: an account, a payment, another object or a webhook, as JSON. */
  datatype FromPayload = FromPayload(id: string, payload: string)

  /** The request of the started workflow; only FETCH_OTHERS carries the name of its task. */
  datatype Request = Request(taskType: TaskType, name: string, fromPayload: Option<FromPayload>)

  /** Durations are in seconds. */
  datatype Creation = Creation(id: string, request: Request, nextTasks: Tasks, every: nat, jitter: nat)

  datatype Setup = Setup(stack: string, connector: string, period: nat)

  const DEFAULT_PERIOD := 30 * 60

  const MAX_JITTER := 5 * 60

  /** Half the period, five minutes at most: the engine and the command agree on it. */
  function Jitter(period: nat): nat {
    Min(period / 2, MAX_JITTER)
  }

  function CreationOf(s: Setup, id: string, request: Request, nextTasks: Tasks): Creation {
    Creation(id, request, nextTasks, s.period, Jitter(s.period))
  }

  function PayloadId(from: Option<FromPayload>): Option<string> {
    match from
    case None => None
    case Some(p) => Some(p.id)
  }

  function TaskRequest(task: Task, from: Option<FromPayload>): Request {
    Request(task.taskType, if task.taskType == FetchOthers then task.name else "", from)
  }

  /** What the engine schedules for a periodic task, at the root or below a fetched payload. */
  function Scheduled(s: Setup, task: Task, from: Option<FromPayload>): Creation {
    var id := ScheduleId(s.stack, s.connector, CapabilityName(task.taskType), PayloadId(from));
    CreationOf(s, id, TaskRequest(task, from), task.next)
  }

  /** The command recreates the periodic root tasks of the types it knows. */
  predicate IsRecreatedRoot(task: Task) {
    task.periodically && task.taskType in KNOWN_CAPABILITIES
  }

  function RootCreations(s: Setup, tasks: seq<Task>): seq<Creation> {
    if tasks == [] then []
    else
      var init, last := RootCreations(s, tasks[..|tasks| - 1]), tasks[|tasks| - 1];
      if IsRecreatedRoot(last) then init + [Scheduled(s, last, None)] else init
  }

  /** What the command recreates for a stored schedule: nothing for roots, unknown names and missing accounts. */
  function SubCreation(s: Setup, tree: seq<Task>, accounts: map<string, Account>, id: string): Option<Creation> {
    match Parse(id, Prefix(s.stack, s.connector), KNOWN_CAPABILITIES)
    case None => None
    case Some(parsed) =>
      if parsed.payload == "" || parsed.payload !in accounts then None
      else
        var from := FromPayload(parsed.payload, accounts[parsed.payload].json);
        Some(CreationOf(s, id, Request(parsed.taskType, "", Some(from)), FindNextTasks(tree, parsed.taskType)))
  }

  function SubCreations(s: Setup, tree: seq<Task>, accounts: map<string, Account>, ids: seq<string>): seq<Creation> {
    if ids == [] then []
    else
      var init, c := SubCreations(s, tree, accounts, ids[..|ids| - 1]), SubCreation(s, tree, accounts, ids[|ids| - 1]);
      if c.Some? then init + [c.value] else init
  }

  /** One creation after the other; one that exists already is a success and changes nothing. */
  function CreateAll(existing: map<string, Creation>, cs: seq<Creation>): map<string, Creation> {
    if cs == [] then existing
    else
      var before, last := CreateAll(existing, cs[..|cs| - 1]), cs[|cs| - 1];
      if last.id in before then before else before[last.id := last]
  }

  function Flatten(pages: seq<seq<string>>): seq<string> {
    if pages == [] then [] else Flatten(pages[..|pages| - 1]) + pages[|pages| - 1]
  }

  /** The generic configuration: without a period, half an hour. */
  function PeriodOf(configured: nat): nat {
    if configured == 0 then DEFAULT_PERIOD else configured
  }
}
