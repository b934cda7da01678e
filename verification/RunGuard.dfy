/**
 The budget guard of a running turn: app/gateway.py, `_handle_item`, `_handle_changes`,
 `_enforce` and `interrupt`.  Event handlers are tasks of their own, so a handler suspended
 while it publishes is resumed later; every step below runs without suspension.
 */
module RunGuard {
  import opened Bytes

  datatype Budget = Budget(tokens: int, tools: int, changedFiles: int)

  /** What does not change while the turn runs; both server ids are known. */
  datatype Contract = Contract(budget: Budget, isAllowed: string -> bool)

  datatype Status = Running | Interrupting

  datatype Reason =
    | TokenBudget | ToolLimit | FileLimit | CommandFailures | TestFailures
    | ForbiddenRoot | Compaction | SpawnAgent | FileNotAllowed(path: string) | Requested

  datatype ItemKind = Message | ContextCompaction | FileEdit | CollabCall | CommandRun | OtherTool

  /** The fields of an item the guard looks at; `forbidden` says it names a forbidden root. */
  datatype Item = Item(kind: ItemKind, forbidden: bool, changes: seq<string>, changesForbidden: bool,
                       spawns: bool, failed: bool, isTest: bool)

  datatype Run = Run(
    status: Status, stopReason: Option<Reason>,
    tokens: int, toolCalls: int, changedFiles: set<string>, failedCommands: int, failedTests: int,
    warned: bool, warnings: nat,
    /** Items whose handler is suspended after its file changes. */
    suspended: multiset<Item>)

  /** A run the server has just accepted. */
  const ACCEPTED := Run(Running, None, 0, 0, {}, 0, 0, false, 0, multiset{})

  datatype Event =
    | TokenUsage(total: int)
    | ItemEvent(item: Item, started: bool)
    | Resumes(item: Item)
    | PatchUpdated(changes: seq<string>, forbidden: bool)
    | ThreadCompacted
    | InterruptRequested

  const FAILED_COMMANDS := 3
  const FAILED_TESTS := 2

  /** `str(path).replace("\\", "/")`. */
  function Slashes(path: string): (p: string) {
    if path == [] then [] else [if path[0] == '\\' then '/' else path[0]] + Slashes(path[1..])
  }

  lemma {:induction false} SlashesAt(path: string)
    ensures |Slashes(path)| == |path|
    ensures forall i :: 0 <= i < |path| ==> Slashes(path)[i] == if path[i] == '\\' then '/' else path[i]
  {
    if path != [] {
      SlashesAt(path[1..]);
    }
  }

  function Interrupt(r: Run, reason: Reason): (r': Run) {
    r.(status := Interrupting, stopReason := Some(reason))
  }

  /** 80% of the budget. */
  function WarningLevel(budget: Budget): (level: int) {
    budget.tokens * 4 / 5
  }

  function Enforce(c: Contract, r: Run): (r': Run) {
    if r.tokens >= c.budget.tokens then Interrupt(r, TokenBudget)
    else if r.toolCalls >= c.budget.tools then Interrupt(r, ToolLimit)
    else if |r.changedFiles| > c.budget.changedFiles then Interrupt(r, FileLimit)
    else if r.failedCommands >= FAILED_COMMANDS then Interrupt(r, CommandFailures)
    else if r.failedTests >= FAILED_TESTS then Interrupt(r, TestFailures)
    else if r.tokens >= WarningLevel(c.budget) && !r.warned then r.(warned := true, warnings := r.warnings + 1)
    else r
  }

  function Record(c: Contract, r: Run, changes: seq<string>): (r': Run)
    decreases |changes|
  {
    if changes == [] then Enforce(c, r)
    else if changes[0] == "" then Record(c, r, changes[1..])
    else
      var noted := r.(changedFiles := r.changedFiles + {Slashes(changes[0])});
      if !c.isAllowed(changes[0]) then Interrupt(noted, FileNotAllowed(changes[0]))
      else Record(c, noted, changes[1..])
  }

  function Changes(c: Contract, r: Run, changes: seq<string>, forbidden: bool): (r': Run) {
    if forbidden then Interrupt(r, ForbiddenRoot) else Record(c, r, changes)
  }

  /** What follows the file changes of an item. */
  function Rest(c: Contract, r: Run, item: Item): (r': Run) {
    if item.kind.CollabCall? && item.spawns then Interrupt(r, SpawnAgent)
    else
      var counted :=
        if item.kind.CommandRun? && item.failed
        then r.(failedCommands := r.failedCommands + 1,
                failedTests := r.failedTests + (if item.isTest then 1 else 0))
        else r;
      Enforce(c, counted)
  }

  function HandleItem(c: Contract, r: Run, item: Item, started: bool): (r': Run) {
    if item.forbidden then Interrupt(r, ForbiddenRoot)
    else if item.kind.ContextCompaction? then Interrupt(r, Compaction)
    else
      var counted := if started && !item.kind.Message? then r.(toolCalls := r.toolCalls + 1) else r;
      if item.kind.FileEdit? then
        var changed := Changes(c, counted, item.changes, item.changesForbidden);
        if changed.status == Interrupting then changed
        else changed.(suspended := changed.suspended + multiset{item})
      else Rest(c, counted, item)
  }

  predicate Enabled(r: Run, e: Event) {
    e.Resumes? ==> e.item in r.suspended
  }

  function Step(c: Contract, r: Run, e: Event): (r': Run)
    requires Enabled(r, e)
  {
    match e
    case TokenUsage(total) => Enforce(c, r.(tokens := total))
    case ItemEvent(item, started) => HandleItem(c, r, item, started)
    case Resumes(item) =>
      var resumed := r.(suspended := r.suspended - multiset{item});
      if r.status == Interrupting then resumed else Rest(c, resumed, item)
    case PatchUpdated(changes, forbidden) => Changes(c, r, changes, forbidden)
    case ThreadCompacted => Interrupt(r, Compaction)
    case InterruptRequested => Interrupt(r, Requested)
  }

  // ------------------------------------------------------------------ the object

  /** The run object, with the handlers that update it in place. */
  class RunObject {
    const contract: Contract
    var status: Status
    var stopReason: Option<Reason>
    var tokens: int
    var toolCalls: int
    var changedFiles: set<string>
    var failedCommands: int
    var failedTests: int
    var warned: bool
    var warnings: nat
    var suspended: multiset<Item>

    ghost function View(): (r: Run)
      reads this
    {
      Run(status, stopReason, tokens, toolCalls, changedFiles, failedCommands, failedTests,
          warned, warnings, suspended)
    }

    /** A run the server has just accepted. */
    constructor (contract: Contract)
      ensures this.contract == contract
      ensures View() == ACCEPTED
    {
      this.contract := contract;
      status, stopReason, tokens, toolCalls, changedFiles := Running, None, 0, 0, {};
      failedCommands, failedTests, warned, warnings, suspended := 0, 0, false, 0, multiset{};
    }

    method StopFor(reason: Reason)
      modifies this`status, this`stopReason
      ensures View() == Interrupt(old(View()), reason)
    {
      status := Interrupting;
      stopReason := Some(reason);
    }

    method EnforceLimits()
      modifies this`status, this`stopReason, this`warned, this`warnings
      ensures View() == Enforce(contract, old(View()))
    {
      if tokens >= contract.budget.tokens {
        StopFor(TokenBudget);
      } else if toolCalls >= contract.budget.tools {
        StopFor(ToolLimit);
      } else if |changedFiles| > contract.budget.changedFiles {
        StopFor(FileLimit);
      } else if failedCommands >= FAILED_COMMANDS {
        StopFor(CommandFailures);
      } else if failedTests >= FAILED_TESTS {
        StopFor(TestFailures);
      } else if tokens >= WarningLevel(contract.budget) && !warned {
        warned := true;
        warnings := warnings + 1;
      }
    }

    method HandleChanges(changes: seq<string>, forbidden: bool)
      modifies this
      ensures View() == Changes(contract, old(View()), changes, forbidden)
    {
      if forbidden {
        StopFor(ForbiddenRoot);
        return;
      }
      assert changes[0..] == changes;
      for i := 0 to |changes|
        invariant Record(contract, View(), changes[i..]) == Record(contract, old(View()), changes)
      {
        var path := changes[i];
        assert changes[i..][1..] == changes[i + 1..];
        if path != "" {
          changedFiles := changedFiles + {Slashes(path)};
          if !contract.isAllowed(path) {
            StopFor(FileNotAllowed(path));
            return;
          }
        }
      }
      EnforceLimits();
    }

    /** `_handle_item` up to where it may be suspended. */
    method ItemArrives(item: Item, started: bool)
      modifies this
      ensures View() == Step(contract, old(View()), ItemEvent(item, started))
    {
      if item.forbidden {
        StopFor(ForbiddenRoot);
        return;
      }
      if item.kind.ContextCompaction? {
        StopFor(Compaction);
        return;
      }
      if started && !item.kind.Message? {
        toolCalls := toolCalls + 1;
      }
      if item.kind.FileEdit? {
        HandleChanges(item.changes, item.changesForbidden);
        if status != Interrupting {
          suspended := suspended + multiset{item};
        }
      } else {
        FinishItem(item);
      }
    }

    /** The part of `_handle_item` after the file changes. */
    method FinishItem(item: Item)
      modifies this
      ensures View() == Rest(contract, old(View()), item)
    {
      if item.kind.CollabCall? && item.spawns {
        StopFor(SpawnAgent);
        return;
      }
      if item.kind.CommandRun? && item.failed {
        failedCommands := failedCommands + 1;
        if item.isTest {
          failedTests := failedTests + 1;
        }
      }
      EnforceLimits();
    }

    /** A suspended handler goes on. */
    method ItemResumes(item: Item)
      requires item in suspended
      modifies this
      ensures View() == Step(contract, old(View()), Resumes(item))
    {
      suspended := suspended - multiset{item};
      if status != Interrupting {
        FinishItem(item);
      }
    }

    method TokensReported(total: int)
      modifies this
      ensures View() == Step(contract, old(View()), TokenUsage(total))
    {
      tokens := total;
      EnforceLimits();
    }
  }

  // ------------------------------------------------------------------ the limits

  /** Every counter is under its limit. */
  predicate UnderLimits(c: Contract, r: Run) {
    && r.tokens < c.budget.tokens
    && r.toolCalls < c.budget.tools
    && |r.changedFiles| <= c.budget.changedFiles
    && r.failedCommands < FAILED_COMMANDS
    && r.failedTests < FAILED_TESTS
  }

  /** Every recorded file is the recorded form of a path on the allow list. */
  ghost predicate FilesAllowed(c: Contract, r: Run) {
    forall f :: f in r.changedFiles ==> exists path :: c.isAllowed(path) && Slashes(path) == f
  }

  ghost predicate Inv(c: Contract, r: Run) {
    && (r.status == Running ==> UnderLimits(c, r) && FilesAllowed(c, r))
    && r.warnings == (if r.warned then 1 else 0)
  }

  /** Events that stop a run whatever its counters are. */
  predicate StopsAtOnce(c: Contract, e: Event) {
    match e
    case TokenUsage(_) => false
    case ItemEvent(item, _) =>
      || item.forbidden || item.kind.ContextCompaction?
      || (item.kind.FileEdit? && (item.changesForbidden || Disallowed(c, item.changes)))
      || (item.kind.CollabCall? && item.spawns)
    case Resumes(item) => item.kind.CollabCall? && item.spawns
    case PatchUpdated(changes, forbidden) => forbidden || Disallowed(c, changes)
    case ThreadCompacted => true
    case InterruptRequested => true
  }

  predicate Disallowed(c: Contract, changes: seq<string>) {
    exists i :: 0 <= i < |changes| && changes[i] != "" && !c.isAllowed(changes[i])
  }

  /** The state between counting and enforcing: limits may just have been reached. */
  ghost predicate Counted(c: Contract, r: Run) {
    && (r.status == Running ==> FilesAllowed(c, r))
    && r.warnings == (if r.warned then 1 else 0)
  }

  /** What one uninterrupted piece of a handler promises about the run it was given. */
  ghost predicate Guards(c: Contract, r: Run, r': Run, stops: bool) {
    && Inv(c, r')
    && r.warnings <= r'.warnings
    && (r.status == Interrupting ==> r'.status == Interrupting)
    && (r.status == Running ==> (r'.status == Running <==> !stops && UnderLimits(c, r')))
  }

  lemma EnforceGuards(c: Contract, r: Run)
    requires Counted(c, r)
    ensures Guards(c, r, Enforce(c, r), false)
  {
  }

  lemma {:induction false} RecordGuards(c: Contract, r: Run, changes: seq<string>)
    requires Counted(c, r)
    ensures Guards(c, r, Record(c, r, changes), Disallowed(c, changes))
    decreases |changes|
  {
    if changes == [] {
      EnforceGuards(c, r);
    } else {
      DisallowedCons(c, changes);
      if changes[0] == "" {
        RecordGuards(c, r, changes[1..]);
      } else if c.isAllowed(changes[0]) {
        var noted := r.(changedFiles := r.changedFiles + {Slashes(changes[0])});
        RecordGuards(c, noted, changes[1..]);
      }
    }
  }

  lemma DisallowedCons(c: Contract, changes: seq<string>)
    requires changes != []
    ensures Disallowed(c, changes) <==>
              (changes[0] != "" && !c.isAllowed(changes[0])) || Disallowed(c, changes[1..])
  {
    if i :| 0 < i < |changes| && changes[i] != "" && !c.isAllowed(changes[i]) {
      assert changes[1..][i - 1] == changes[i];
    }
  }

  lemma RestGuards(c: Contract, r: Run, item: Item)
    requires Counted(c, r)
    ensures Guards(c, r, Rest(c, r, item), item.kind.CollabCall? && item.spawns)
  {
    var counted := r.(failedCommands := r.failedCommands + 1,
                      failedTests := r.failedTests + (if item.isTest then 1 else 0));
    EnforceGuards(c, r);
    EnforceGuards(c, counted);
  }

  lemma ChangesGuard(c: Contract, r: Run, changes: seq<string>, forbidden: bool)
    requires Counted(c, r)
    ensures Guards(c, r, Changes(c, r, changes, forbidden), forbidden || Disallowed(c, changes))
  {
    RecordGuards(c, r, changes);
    hide Record, Disallowed, FilesAllowed;
  }

  /** Counting and suspending do not matter to what a handler promises. */
  lemma GuardsFrame(c: Contract, r: Run, counted: Run, r': Run, stops: bool, item: Item)
    requires Guards(c, counted, r', stops) && counted.status == r.status && counted.warnings == r.warnings
    ensures Guards(c, r, r', stops)
    ensures Guards(c, r, r'.(suspended := r'.suspended + multiset{item}), stops)
  {
    assert r'.changedFiles == r'.(suspended := r'.suspended + multiset{item}).changedFiles;
  }

  lemma ItemGuards(c: Contract, r: Run, item: Item, started: bool)
    requires Inv(c, r)
    ensures Guards(c, r, HandleItem(c, r, item, started), StopsAtOnce(c, ItemEvent(item, started)))
  {
    var counted := if started && !item.kind.Message? then r.(toolCalls := r.toolCalls + 1) else r;
    if item.forbidden || item.kind.ContextCompaction? {
    } else if item.kind.FileEdit? {
      ChangesGuard(c, counted, item.changes, item.changesForbidden);
      hide Changes, Guards, Disallowed;
      GuardsFrame(c, r, counted, Changes(c, counted, item.changes, item.changesForbidden),
                  item.changesForbidden || Disallowed(c, item.changes), item);
    } else {
      RestGuards(c, counted, item);
      hide Rest, Guards;
      GuardsFrame(c, r, counted, Rest(c, counted, item), item.kind.CollabCall? && item.spawns, item);
    }
  }

  /**
   One step: the limits keep holding while the run is running, `interrupting` is never left, and
   a running run goes on exactly when the event is no stop and every counter stays under its limit.
   */
  lemma StepGuards(c: Contract, r: Run, e: Event)
    requires Inv(c, r) && Enabled(r, e)
    ensures Guards(c, r, Step(c, r, e), StopsAtOnce(c, e))
  {
    match e
    case TokenUsage(total) => EnforceGuards(c, r.(tokens := total));
    case ItemEvent(item, started) => ItemGuards(c, r, item, started);
    case Resumes(item) => RestGuards(c, r.(suspended := r.suspended - multiset{item}), item);
    case PatchUpdated(changes, forbidden) => ChangesGuard(c, r, changes, forbidden);
    case _ =>
  }

  // ------------------------------------------------------------------------ runs

  function RunFrom(c: Contract, r: Run, events: seq<Event>): (end: Option<Run>)
    decreases |events|
  {
    if events == [] then Some(r)
    else if Enabled(r, events[0]) then RunFrom(c, Step(c, r, events[0]), events[1..])
    else None
  }

  /**
   From a run that enters `running` within its limits, over every interleaving of handler steps
   until the turn completes: as long as it is still running every budget and failure counter is
   under its limit and every recorded file is allowed; an interrupted run stays interrupted; and
   the warning is published at most once.
   */
  lemma {:induction false} RunStaysGuarded(c: Contract, r: Run, before: seq<Event>, after: seq<Event>)
    requires Inv(c, r) && RunFrom(c, r, before).Some?
    requires RunFrom(c, RunFrom(c, r, before).value, after).Some?
    ensures var mid := RunFrom(c, r, before).value;
            var end := RunFrom(c, mid, after).value;
            && (end.status == Running ==> UnderLimits(c, end) && FilesAllowed(c, end))
            && (mid.status == Interrupting ==> end.status == Interrupting)
            && end.warnings <= 1
  {
    GuardedRun(c, r, before);
    GuardedRun(c, RunFrom(c, r, before).value, after);
  }

  lemma {:induction false} GuardedRun(c: Contract, r: Run, events: seq<Event>)
    requires Inv(c, r) && RunFrom(c, r, events).Some?
    ensures var end := RunFrom(c, r, events).value;
            Inv(c, end) && (r.status == Interrupting ==> end.status == Interrupting)
    decreases |events|
  {
    if events != [] {
      StepGuards(c, r, events[0]);
      GuardedRun(c, Step(c, r, events[0]), events[1..]);
    }
  }

  datatype Level = Tiny | Standard | Complex | Critical

  function BudgetFor(level: Level): (budget: Budget) {
    match level
    case Tiny => Budget(250_000, 15, 2)
    case Standard => Budget(750_000, 30, 5)
    case Complex => Budget(2_000_000, 50, 10)
    case Critical => Budget(4_000_000, 60, 10)
  }

  // ------------------------------------------------------------- what the counters count

  /** How many events pass a test. */
  function Count(events: seq<Event>, test: Event -> bool): (n: nat) {
    if events == [] then 0 else Count(events[..|events| - 1], test) + (if test(events[|events| - 1]) then 1 else 0)
  }

  predicate StartsTool(e: Event) {
    e.ItemEvent? && e.started && e.item.kind != Message
  }

  predicate FailsCommand(e: Event) {
    e.ItemEvent? && e.item.kind == CommandRun && e.item.failed
  }

  predicate FailsTest(e: Event) {
    FailsCommand(e) && e.item.isTest
  }

  /** The last total reported, 0 before the first report. */
  function LastTotal(events: seq<Event>): (total: int) {
    if events == [] then 0
    else if events[|events| - 1].TokenUsage? then events[|events| - 1].total
    else LastTotal(events[..|events| - 1])
  }

  /** The paths an event reports as changed. */
  function Paths(e: Event): (paths: seq<string>) {
    match e
    case ItemEvent(item, _) => if item.kind == FileEdit then item.changes else []
    case PatchUpdated(changes, _) => changes
    case _ => []
  }

  /** The recorded form of the paths that are not empty. */
  function Recorded(paths: seq<string>): (files: set<string>) {
    set path | path in paths && path != "" :: Slashes(path)
  }

  function AllRecorded(events: seq<Event>): (files: set<string>) {
    if events == [] then {} else AllRecorded(events[..|events| - 1]) + Recorded(Paths(events[|events| - 1]))
  }

  /** At some time a total at the warning level had been reported. */
  ghost predicate ReachedWarning(c: Contract, events: seq<Event>) {
    exists k :: 0 < k <= |events| && 5 * (LastTotal(events[..k]) + 1) > 4 * c.budget.tokens
  }

  /** While a run is running, its counters are those of the events it was told. */
  ghost predicate Counts(c: Contract, events: seq<Event>, r: Run) {
    && (forall item :: item in r.suspended ==> item.kind == FileEdit)
    && (r.status == Running ==>
          && r.toolCalls == Count(events, StartsTool)
          && r.failedCommands == Count(events, FailsCommand)
          && r.failedTests == Count(events, FailsTest)
          && r.tokens == LastTotal(events)
          && r.changedFiles == AllRecorded(events)
          && (r.warned <==> ReachedWarning(c, events)))
  }

  /** The warning level is reached at four fifths of the budget, rounded down. */
  lemma WarningAt(budget: Budget, tokens: int)
    ensures tokens >= WarningLevel(budget) <==> 5 * (tokens + 1) > 4 * budget.tokens
  {
  }

  /** What enforcing does to the counters, the warning and the status of a running run. */
  lemma Enforced(c: Contract, r: Run)
    requires r.status == Running
    ensures var r' := Enforce(c, r);
            && r' == r.(status := r'.status, stopReason := r'.stopReason, warned := r'.warned, warnings := r'.warnings)
            && (r'.status == Running <==> UnderLimits(c, r))
            && (r'.status == Running ==> (r'.warned <==> r.warned || 5 * (r.tokens + 1) > 4 * c.budget.tokens))
  {
    WarningAt(c.budget, r.tokens);
  }

  lemma EnforcedSuspended(c: Contract, r: Run, suspended: multiset<Item>)
    ensures Enforce(c, r.(suspended := suspended)) == Enforce(c, r).(suspended := suspended)
  {
  }

  lemma NoneRecorded(r: Run)
    ensures r.(changedFiles := r.changedFiles + Recorded([])) == r
  {
  }

  /** Recording keeps every counter but the files, which it extends by the recorded paths. */
  lemma {:induction false} RecordedFiles(c: Contract, r: Run, changes: seq<string>)
    requires r.status == Running && Record(c, r, changes).status == Running
    ensures Record(c, r, changes) == Enforce(c, r.(changedFiles := r.changedFiles + Recorded(changes)))
    decreases |changes|
  {
    hide Enforce, Recorded, Slashes;
    if changes == [] {
      NoneRecorded(r);
    } else {
      RecordedCons(changes);
      if changes[0] == "" {
        RecordedFiles(c, r, changes[1..]);
        assert Recorded(changes) == Recorded(changes[1..]);
      } else {
        var noted := r.(changedFiles := r.changedFiles + {Slashes(changes[0])});
        RecordedFiles(c, noted, changes[1..]);
        assert noted.changedFiles + Recorded(changes[1..]) == r.changedFiles + Recorded(changes);
      }
    }
  }

  lemma RecordedCons(changes: seq<string>)
    requires changes != []
    ensures Recorded(changes) == (if changes[0] == "" then {} else {Slashes(changes[0])}) + Recorded(changes[1..])
  {
    hide Slashes;
    assert changes == [changes[0]] + changes[1..];
  }

  /** The counters one event leaves behind, before the limits are enforced. */
  function Told(r: Run, e: Event): (r': Run) {
    r.(toolCalls := r.toolCalls + (if StartsTool(e) then 1 else 0),
       failedCommands := r.failedCommands + (if FailsCommand(e) then 1 else 0),
       failedTests := r.failedTests + (if FailsTest(e) then 1 else 0),
       tokens := if e.TokenUsage? then e.total else r.tokens,
       changedFiles := r.changedFiles + Recorded(Paths(e)))
  }

  /** A step that leaves the run running counts what the event tells, and enforces the limits on it. */
  lemma StepTells(c: Contract, r: Run, e: Event)
    requires Enabled(r, e) && r.status == Running && Step(c, r, e).status == Running
    requires forall item :: item in r.suspended ==> item.kind == FileEdit
    ensures Step(c, r, e) == Enforce(c, Told(r, e)).(suspended := Step(c, r, e).suspended)
  {
    hide Enforce, Record, Recorded, HandleItem;
    NoneRecorded(r);
    match e
    case TokenUsage(total) =>
    case ItemEvent(item, started) => ItemTells(c, r, item, started);
    case Resumes(item) =>
      assert item.kind == FileEdit;
      EnforcedSuspended(c, r, r.suspended - multiset{item});
    case PatchUpdated(changes, forbidden) => RecordedFiles(c, r, changes);
  }

  lemma ItemTells(c: Contract, r: Run, item: Item, started: bool)
    requires r.status == Running && HandleItem(c, r, item, started).status == Running
    ensures HandleItem(c, r, item, started) ==
              Enforce(c, Told(r, ItemEvent(item, started))).(suspended := HandleItem(c, r, item, started).suspended)
  {
    hide Enforce, Record, Recorded;
    NoneRecorded(r);
    if item.kind.FileEdit? {
      RecordedFiles(c, if started then r.(toolCalls := r.toolCalls + 1) else r, item.changes);
    }
  }

  /** While the run goes on, exactly the handlers of file changes wait until they are resumed. */
  lemma StepSuspends(c: Contract, r: Run, e: Event)
    requires Enabled(r, e) && r.status == Running && Step(c, r, e).status == Running
    ensures Step(c, r, e).suspended ==
              match e
              case ItemEvent(item, _) => if item.kind == FileEdit then r.suspended + multiset{item} else r.suspended
              case Resumes(item) => r.suspended - multiset{item}
              case _ => r.suspended
  {
    hide Record, Rest, Enforce;
    match e
    case TokenUsage(total) => EnforceStays(c, r.(tokens := total));
    case ItemEvent(item, started) =>
      var counted := if started && !item.kind.Message? then r.(toolCalls := r.toolCalls + 1) else r;
      RecordStays(c, counted, item.changes);
      RestStays(c, counted, item);
    case Resumes(item) => RestStays(c, r.(suspended := r.suspended - multiset{item}), item);
    case PatchUpdated(changes, _) => RecordStays(c, r, changes);
  }

  lemma EnforceStays(c: Contract, r: Run)
    ensures Enforce(c, r).suspended == r.suspended
    ensures r.status == Interrupting ==> Enforce(c, r).status == Interrupting
  {
  }

  lemma {:induction false} RecordStays(c: Contract, r: Run, changes: seq<string>)
    ensures Record(c, r, changes).suspended == r.suspended
    ensures r.status == Interrupting ==> Record(c, r, changes).status == Interrupting
    decreases |changes|
  {
    hide Enforce, Slashes;
    if changes == [] {
      EnforceStays(c, r);
    } else {
      RecordStays(c, r, changes[1..]);
      RecordStays(c, r.(changedFiles := r.changedFiles + {Slashes(changes[0])}), changes[1..]);
    }
  }

  lemma RestStays(c: Contract, r: Run, item: Item)
    ensures Rest(c, r, item).suspended == r.suspended
    ensures r.status == Interrupting ==> Rest(c, r, item).status == Interrupting
  {
    hide Enforce;
    forall r' { EnforceStays(c, r'); }
  }

  lemma ItemStays(c: Contract, r: Run, item: Item, started: bool)
    requires forall i :: i in r.suspended ==> i.kind == FileEdit
    ensures forall i :: i in HandleItem(c, r, item, started).suspended ==> i.kind == FileEdit
    ensures r.status == Interrupting ==> HandleItem(c, r, item, started).status == Interrupting
  {
    hide Record, Rest;
    var counted := if started && !item.kind.Message? then r.(toolCalls := r.toolCalls + 1) else r;
    RecordStays(c, counted, item.changes);
    RestStays(c, counted, item);
  }

  /** Only handlers of file changes are suspended, and an interrupted run stays interrupted. */
  lemma StepStays(c: Contract, r: Run, e: Event)
    requires Enabled(r, e) && forall item :: item in r.suspended ==> item.kind == FileEdit
    ensures forall item :: item in Step(c, r, e).suspended ==> item.kind == FileEdit
    ensures r.status == Interrupting ==> Step(c, r, e).status == Interrupting
  {
    hide Record, Rest, HandleItem, Enforce;
    match e
    case TokenUsage(total) => EnforceStays(c, r.(tokens := total));
    case ItemEvent(item, started) => ItemStays(c, r, item, started);
    case Resumes(item) => RestStays(c, r.(suspended := r.suspended - multiset{item}), item);
    case PatchUpdated(changes, _) => RecordStays(c, r, changes);
    case _ =>
  }

  lemma CountsStep(c: Contract, events: seq<Event>, r: Run, e: Event)
    requires Counts(c, events, r) && Enabled(r, e)
    ensures Counts(c, events + [e], Step(c, r, e))
  {
    hide Step, Enforce, Recorded, ReachedWarning, UnderLimits, StartsTool, FailsCommand, FailsTest;
    StepStays(c, r, e);
    if Step(c, r, e).status == Running {
      StepTells(c, r, e);
      Enforced(c, Told(r, e));
      ReachedNext(c, events, e);
      OneMore(events, e);
    }
  }

  lemma OneMore(events: seq<Event>, e: Event)
    ensures Count(events + [e], StartsTool) == Count(events, StartsTool) + (if StartsTool(e) then 1 else 0)
    ensures Count(events + [e], FailsCommand) == Count(events, FailsCommand) + (if FailsCommand(e) then 1 else 0)
    ensures Count(events + [e], FailsTest) == Count(events, FailsTest) + (if FailsTest(e) then 1 else 0)
    ensures LastTotal(events + [e]) == if e.TokenUsage? then e.total else LastTotal(events)
    ensures AllRecorded(events + [e]) == AllRecorded(events) + Recorded(Paths(e))
  {
    hide StartsTool, FailsCommand, FailsTest, Recorded, Paths;
    var more := events + [e];
    assert more[..|more| - 1] == events && more[|more| - 1] == e;
  }

  lemma ReachedNext(c: Contract, events: seq<Event>, e: Event)
    ensures ReachedWarning(c, events + [e]) <==>
              ReachedWarning(c, events) || 5 * (LastTotal(events + [e]) + 1) > 4 * c.budget.tokens
  {
    hide LastTotal;
    var more := events + [e];
    assert more[..|more|] == more;
    assert forall k :: 0 <= k <= |events| ==> more[..k] == events[..k];
    if ReachedWarning(c, events) {
      var k :| 0 < k <= |events| && 5 * (LastTotal(events[..k]) + 1) > 4 * c.budget.tokens;
      assert more[..k] == events[..k];
    }
  }

  lemma {:induction false} CountsRun(c: Contract, past: seq<Event>, r: Run, events: seq<Event>)
    requires Counts(c, past, r) && RunFrom(c, r, events).Some?
    ensures Counts(c, past + events, RunFrom(c, r, events).value)
    decreases |events|
  {
    hide Counts, Step;
    if events == [] {
      assert past + events == past;
    } else {
      CountsStep(c, past, r, events[0]);
      CountsRun(c, past + [events[0]], Step(c, r, events[0]), events[1..]);
      assert past + [events[0]] + events[1..] == past + events;
    }
  }

  /**
   Over every interleaving from an accepted run: while it is running, its counters are the numbers of
   started items that are no message, of failed commands and of failed test commands, its tokens the last
   total reported, its files the recorded form of every path reported, and the warning was published
   exactly if four fifths of the budget had been reported at some time.
   */
  lemma CountersAreTrue(c: Contract, events: seq<Event>)
    requires RunFrom(c, ACCEPTED, events).Some? && RunFrom(c, ACCEPTED, events).value.status == Running
    ensures var r := RunFrom(c, ACCEPTED, events).value;
            && r.toolCalls == Count(events, StartsTool)
            && r.failedCommands == Count(events, FailsCommand) && r.failedTests == Count(events, FailsTest)
            && r.tokens == LastTotal(events) && r.changedFiles == AllRecorded(events)
            && (r.warned <==> ReachedWarning(c, events))
  {
    CountsRun(c, [], ACCEPTED, events);
    assert [] + events == events;
    hide RunFrom, ReachedWarning;
  }

  /** So a running run was told less than its budget allows. */
  lemma RunningWithinBudget(c: Contract, events: seq<Event>)
    requires UnderLimits(c, ACCEPTED)
    requires RunFrom(c, ACCEPTED, events).Some? && RunFrom(c, ACCEPTED, events).value.status == Running
    ensures Count(events, StartsTool) < c.budget.tools && LastTotal(events) < c.budget.tokens
    ensures Count(events, FailsCommand) < 3 && Count(events, FailsTest) < 2
    ensures |AllRecorded(events)| <= c.budget.changedFiles
  {
    CountersAreTrue(c, events);
    GuardedRun(c, ACCEPTED, events);
  }

  /**
   Every run started under a budget of the table is guarded from its first event on: while it is
   running it was told fewer items and tokens, and no more files, than its level allows.
   */
  lemma StartedRunIsGuarded(level: Level, isAllowed: string -> bool, events: seq<Event>)
    requires RunFrom(Contract(BudgetFor(level), isAllowed), ACCEPTED, events).Some?
    ensures var c := Contract(BudgetFor(level), isAllowed);
            var end := RunFrom(c, ACCEPTED, events).value;
            && (end.status == Running ==> UnderLimits(c, end) && FilesAllowed(c, end))
            && (end.status == Running ==>
                  && Count(events, StartsTool) < (match level case Tiny => 15 case Standard => 30 case Complex => 50 case Critical => 60)
                  && LastTotal(events) < (match level case Tiny => 250_000 case Standard => 750_000
                                          case Complex => 2_000_000 case Critical => 4_000_000)
                  && |AllRecorded(events)| <= (match level case Tiny => 2 case Standard => 5 case _ => 10))
            && end.warnings <= 1
  {
    var c := Contract(BudgetFor(level), isAllowed);
    GuardedRun(c, ACCEPTED, events);
    hide RunFrom;
    if RunFrom(c, ACCEPTED, events).value.status == Running {
      RunningWithinBudget(c, events);
    }
  }

  // --------------------------------------------------------------- why a run is stopped

  /** What must be so for a limit to be the reason: it is reached, and none tested before it is. */
  predicate LimitReached(c: Contract, r: Run, reason: Reason) {
    match reason
    case TokenBudget => r.tokens >= c.budget.tokens
    case ToolLimit => r.tokens < c.budget.tokens && r.toolCalls >= c.budget.tools
    case FileLimit =>
      r.tokens < c.budget.tokens && r.toolCalls < c.budget.tools && |r.changedFiles| > c.budget.changedFiles
    case CommandFailures =>
      r.tokens < c.budget.tokens && r.toolCalls < c.budget.tools && |r.changedFiles| <= c.budget.changedFiles
      && r.failedCommands >= 3
    case TestFailures =>
      r.tokens < c.budget.tokens && r.toolCalls < c.budget.tools && |r.changedFiles| <= c.budget.changedFiles
      && r.failedCommands < 3 && r.failedTests >= 2
    case _ => false
  }

  /** The first path of some changes that is not on the allow list. */
  predicate FirstDisallowed(c: Contract, changes: seq<string>, path: string) {
    exists i :: 0 <= i < |changes| && changes[i] == path && path != "" && !c.isAllowed(path)
      && forall j :: 0 <= j < i ==> changes[j] == "" || c.isAllowed(changes[j])
  }

  /** What must be so for an event to be stopped for a reason. */
  ghost predicate Explains(c: Contract, e: Event, r': Run, reason: Reason) {
    match reason
    case ForbiddenRoot =>
      (e.ItemEvent? && (e.item.forbidden || (e.item.kind == FileEdit && e.item.changesForbidden)))
      || (e.PatchUpdated? && e.forbidden)
    case Compaction => e.ThreadCompacted? || (e.ItemEvent? && e.item.kind == ContextCompaction)
    case SpawnAgent => e.ItemEvent? && e.item.kind == CollabCall && e.item.spawns
    case FileNotAllowed(path) => FirstDisallowed(c, Paths(e), path)
    case Requested => e.InterruptRequested?
    case _ => LimitReached(c, r', reason)
  }

  lemma {:induction false} RecordExplained(c: Contract, r: Run, changes: seq<string>)
    requires r.status == Running && Record(c, r, changes).status == Interrupting
    ensures var r' := Record(c, r, changes);
            r'.stopReason.Some? && (LimitReached(c, r', r'.stopReason.value) ||
              (r'.stopReason.value.FileNotAllowed? && FirstDisallowed(c, changes, r'.stopReason.value.path)))
    decreases |changes|
  {
    if changes != [] {
      if changes[0] == "" || c.isAllowed(changes[0]) {
        var noted := if changes[0] == "" then r else r.(changedFiles := r.changedFiles + {Slashes(changes[0])});
        RecordExplained(c, noted, changes[1..]);
        var reason := Record(c, noted, changes[1..]).stopReason.value;
        if reason.FileNotAllowed? && FirstDisallowed(c, changes[1..], reason.path) {
          DisallowedLater(c, changes, reason.path);
        }
      } else {
        assert FirstDisallowed(c, changes, changes[0]);
      }
    }
  }

  lemma DisallowedLater(c: Contract, changes: seq<string>, path: string)
    requires changes != [] && (changes[0] == "" || c.isAllowed(changes[0])) && FirstDisallowed(c, changes[1..], path)
    ensures FirstDisallowed(c, changes, path)
  {
    var i :| 0 <= i < |changes| - 1 && changes[1..][i] == path && path != "" && !c.isAllowed(path)
             && forall j :: 0 <= j < i ==> changes[1..][j] == "" || c.isAllowed(changes[1..][j]);
    assert changes[i + 1] == path;
    forall j | 0 <= j < i + 1 ensures changes[j] == "" || c.isAllowed(changes[j]) {
      if j > 0 {
        assert changes[1..][j - 1] == changes[j];
      }
    }
  }

  lemma EnforceExplained(c: Contract, r: Run)
    requires r.status == Running && Enforce(c, r).status == Interrupting
    ensures Enforce(c, r).stopReason.Some? && LimitReached(c, Enforce(c, r), Enforce(c, r).stopReason.value)
  {
  }

  lemma RestExplained(c: Contract, r: Run, item: Item, started: bool)
    requires r.status == Running && Rest(c, r, item).status == Interrupting
    ensures var r' := Rest(c, r, item);
            r'.stopReason.Some? && Explains(c, ItemEvent(item, started), r', r'.stopReason.value)
  {
    hide Enforce, FirstDisallowed;
    var counted := if item.kind.CommandRun? && item.failed
                   then r.(failedCommands := r.failedCommands + 1,
                           failedTests := r.failedTests + (if item.isTest then 1 else 0))
                   else r;
    if Enforce(c, counted).status == Interrupting {
      EnforceExplained(c, counted);
    }
  }

  lemma ChangesExplained(c: Contract, r: Run, changes: seq<string>, forbidden: bool)
    requires r.status == Running && Changes(c, r, changes, forbidden).status == Interrupting
    ensures var r' := Changes(c, r, changes, forbidden);
            && r'.stopReason.Some?
            && (match r'.stopReason.value
                case ForbiddenRoot => forbidden
                case FileNotAllowed(path) => FirstDisallowed(c, changes, path)
                case reason => LimitReached(c, r', reason))
  {
    hide Record, FirstDisallowed;
    if !forbidden {
      RecordExplained(c, r, changes);
    }
  }

  /** A running run that an event stops is given a reason that is true of that event and the counters. */
  lemma StopIsExplained(c: Contract, r: Run, e: Event)
    requires Enabled(r, e) && r.status == Running && Step(c, r, e).status == Interrupting
    requires forall item :: item in r.suspended ==> item.kind == FileEdit
    ensures var r' := Step(c, r, e);
            r'.stopReason.Some? && Explains(c, e, r', r'.stopReason.value)
  {
    hide FirstDisallowed, Enforce, Changes;
    match e
    case TokenUsage(total) => EnforceExplained(c, r.(tokens := total));
    case ItemEvent(item, started) => ItemExplained(c, r, item, started);
    case Resumes(item) =>
      assert item.kind == FileEdit;
      EnforceExplained(c, r.(suspended := r.suspended - multiset{item}));
    case PatchUpdated(changes, forbidden) => ChangesExplained(c, r, changes, forbidden);
    case _ =>
  }

  lemma ItemExplained(c: Contract, r: Run, item: Item, started: bool)
    requires r.status == Running && HandleItem(c, r, item, started).status == Interrupting
    ensures var r' := HandleItem(c, r, item, started);
            r'.stopReason.Some? && Explains(c, ItemEvent(item, started), r', r'.stopReason.value)
  {
    hide FirstDisallowed, Changes, Rest;
    if !item.forbidden && !item.kind.ContextCompaction? {
      var counted := if started && !item.kind.Message? then r.(toolCalls := r.toolCalls + 1) else r;
      if item.kind.FileEdit? {
        ChangesExplained(c, counted, item.changes, item.changesForbidden);
      } else {
        RestExplained(c, counted, item, started);
      }
    }
  }
}
