/** The JSONL lifecycle acceptor: app/codex_process_executor_wsl.py, `parse_codex_jsonl`. */
module Jsonl {
  import opened Bytes
  import opened JsonValues
  import CanonicalJson
  import Utf8

  const MAX_BYTES := 16 * 1024
  const EVENT_KEYS: set<string> := {"type", "thread_id", "turn_id", "item", "usage", "error", "message"}
  const EVENT_TYPES: set<string> := {
    "thread.started", "turn.started", "item.started", "item.updated",
    "item.completed", "turn.completed", "turn.failed", "error"}
  const FORBIDDEN_ITEMS: set<string> := {
    "command_execution", "file_change", "mcp_tool_call", "collab_tool_call", "web_search"}
  const USAGE_FIELDS: set<string> := {
    "input_tokens", "cached_input_tokens", "cache_write_input_tokens", "output_tokens", "reasoning_output_tokens"}

  const INVALID := "jsonl_invalid"
  const TURN_SCHEMA := "jsonl_turn_completed_schema_invalid"
  const PROOF_INVALID := "response_proof_invalid"

  /**
   Rejected raises a PolicyError; Crashed is another exception: the TypeError of looking up an
   unhashable type, or what json.loads raises beside a ValueError, such as a RecursionError.
   */
  datatype Outcome<T> = Ok(value: T) | Rejected(code: string) | Crashed

  /** json.loads, and the digest the final message must have. */
  datatype Config = Config(load: string -> Loaded, expected: Digest<seq<byte>>)

  // ----------------------------------------------------------------------- the lines

  /** The characters str.splitlines breaks lines at. */
  predicate IsBreak(c: char) {
    var code := c as int;
    0x0A <= code <= 0x0D || 0x1C <= code <= 0x1E || code in [0x85, 0x2028, 0x2029]
  }

  /** The characters str.strip removes. */
  predicate IsSpace(c: char) {
    var code := c as int;
    || 0x09 <= code <= 0x0D || 0x1C <= code <= 0x20 || 0x2000 <= code <= 0x200A
    || code in [0x85, 0xA0, 0x1680, 0x2028, 0x2029, 0x202F, 0x205F, 0x3000]
  }

  predicate IsBlank(line: string) {
    forall i :: 0 <= i < |line| ==> IsSpace(line[i])
  }

  function LineEnd(s: string): (n: nat)
    ensures n <= |s| && (n < |s| ==> IsBreak(s[n]))
  {
    if s == "" || IsBreak(s[0]) then 0 else 1 + LineEnd(s[1..])
  }

  /** str.splitlines: a carriage return and a newline after it are one break. */
  function Lines(s: string): (lines: seq<string>)
    decreases |s|
  {
    if s == "" then []
    else
      var n := LineEnd(s);
      if n == |s| then [s]
      else
        var next := if s[n] == '\r' && n + 1 < |s| && s[n + 1] == '\n' then n + 2 else n + 1;
        [s[..n]] + Lines(s[next..])
  }

  // ------------------------------------------------------------------------ one event

  predicate IsUnhashable(v: Json) {
    v.JArr? || v.JObj?
  }

  predicate IsValidUsage(usage: Json) {
    && usage.JObj? && usage.fields.Keys == USAGE_FIELDS
    && forall k :: k in usage.fields ==> usage.fields[k].JInt? && usage.fields[k].number >= 0
  }

  predicate IsValidTurn(fields: map<string, Json>) {
    fields.Keys == {"type", "usage"} && IsValidUsage(fields["usage"])
  }

  /** The item of an event, when it is an object with members. */
  function ItemOf(fields: map<string, Json>): (item: Option<map<string, Json>>) {
    var item := Get(fields, "item");
    if item.JObj? && item.fields != map[] then Some(item.fields) else None
  }

  /** What is wrong with one event whatever came before it, in the order of the tests. */
  function EventFault(turnNamed: bool, loaded: Loaded): (fault: Option<Outcome<()>>) {
    match loaded
    case Malformed => Some(Rejected(if turnNamed then TURN_SCHEMA else INVALID))
    case Escapes => Some(Crashed)
    case Value(event) =>
      if !event.JObj? then Some(Rejected(INVALID))
      else
        var kind, item := Get(event.fields, "type"), ItemOf(event.fields);
        if !(event.fields.Keys <= EVENT_KEYS) then
          Some(Rejected(if kind == JStr("turn.completed") then TURN_SCHEMA else INVALID))
        else if IsUnhashable(kind) then Some(Crashed)
        else if !kind.JStr? || kind.text !in EVENT_TYPES then Some(Rejected(INVALID))
        else if kind.text == "turn.completed" && !IsValidTurn(event.fields) then Some(Rejected(TURN_SCHEMA))
        else if item.Some? && IsUnhashable(Get(item.value, "type")) then Some(Crashed)
        else if item.Some? && Get(item.value, "type").JStr? && Get(item.value, "type").text in FORBIDDEN_ITEMS then
          Some(Rejected(PROOF_INVALID))
        else if kind.text in {"turn.failed", "error"} then Some(Rejected(PROOF_INVALID))
        else None
  }

  /** Types of the events a lifecycle may contain. */
  predicate IsLifecycleKind(kind: string) {
    kind in EVENT_TYPES && kind != "turn.failed" && kind != "error"
  }

  /** An item the lifecycle may contain: of no forbidden type. */
  predicate IsAllowedItem(item: map<string, Json>) {
    var kind := Get(item, "type");
    !IsUnhashable(kind) && forall name :: name in FORBIDDEN_ITEMS ==> kind != JStr(name)
  }

  /**
   An event the lifecycle may contain: an object with known keys only, of a known type that is no
   failure, with a valid usage when it completes the turn, and without a forbidden item.
   */
  predicate IsEvent(loaded: Loaded) {
    && loaded.Value? && loaded.json.JObj?
    && var fields := loaded.json.fields;
    && fields.Keys <= EVENT_KEYS
    && Get(fields, "type").JStr? && IsLifecycleKind(Get(fields, "type").text)
    && (Get(fields, "type").text == "turn.completed" ==> IsValidTurn(fields))
    && (ItemOf(fields).Some? ==> IsAllowedItem(ItemOf(fields).value))
  }

  /** One round finds no fault exactly with such an event. */
  lemma NoFaultIffEvent(turnNamed: bool, loaded: Loaded)
    ensures EventFault(turnNamed, loaded) == None <==> IsEvent(loaded)
  {
    hide IsValidTurn, ItemOf;
    if loaded.Value? && loaded.json.JObj? && ItemOf(loaded.json.fields).Some? {
      ItemFault(ItemOf(loaded.json.fields).value);
    }
  }

  /** An event whose tests raise another exception than a policy error, or whose loading does. */
  predicate EventCrashes(loaded: Loaded) {
    match loaded
    case Malformed => false
    case Escapes => true
    case Value(event) =>
      && event.JObj? && event.fields.Keys <= EVENT_KEYS
      && var kind, item := Get(event.fields, "type"), ItemOf(event.fields);
      || IsUnhashable(kind)
      || (kind.JStr? && kind.text in EVENT_TYPES && (kind.text == "turn.completed" ==> IsValidTurn(event.fields))
          && item.Some? && IsUnhashable(Get(item.value, "type")))
  }

  lemma FaultCrashesIff(turnNamed: bool, loaded: Loaded)
    ensures EventFault(turnNamed, loaded) == Some(Crashed) <==> EventCrashes(loaded)
    ensures EventFault(turnNamed, loaded).Some? && !EventCrashes(loaded) ==> EventFault(turnNamed, loaded).value.Rejected?
  {
    hide IsValidTurn, ItemOf;
  }

  lemma ItemFault(item: map<string, Json>)
    ensures var kind := Get(item, "type");
            IsAllowedItem(item) <==> !IsUnhashable(kind) && !(kind.JStr? && kind.text in FORBIDDEN_ITEMS)
  {
  }

  function KindOf(event: Json): (kind: string)
    requires IsEvent(Value(event))
  {
    Get(event.fields, "type").text
  }

  predicate IsMessage(event: Json)
    requires IsEvent(Value(event))
  {
    && KindOf(event) == "item.completed"
    && ItemOf(event.fields).Some? && Get(ItemOf(event.fields).value, "type") == JStr("agent_message")
  }

  /** The octets of an agent message, None when its text is no string or has no UTF-8 encoding. */
  function MessageBytes(event: Json): (output: Option<seq<byte>>)
    requires IsEvent(Value(event)) && IsMessage(event)
  {
    var text := Get(ItemOf(event.fields).value, "text");
    if text.JStr? then Some(Utf8.EncodeAll(CanonicalJson.Scalars(text.text))) else None
  }

  predicate IsExpectedMessage(cfg: Config, event: Json)
    requires IsEvent(Value(event)) && IsMessage(event)
  {
    MessageBytes(event).Some? && Sha256(MessageBytes(event).value) == cfg.expected
  }

  // ------------------------------------------------------------------------- the loop

  /** What the loop has collected. */
  datatype Seen = Seen(types: seq<string>, counts: map<string, nat>, messages: nat,
                       output: Option<seq<byte>>, usage: Option<Json>)

  const NOTHING := Seen([], map[], 0, None, None)

  function CountOf(counts: map<string, nat>, kind: string): (n: nat) {
    if kind in counts then counts[kind] else 0
  }

  /** One round of the loop. */
  function Step(cfg: Config, turnNamed: bool, seen: Seen, line: string): (r: Outcome<Seen>) {
    var loaded := cfg.load(line);
    match EventFault(turnNamed, loaded)
    case Some(Rejected(code)) => Rejected(code)
    case Some(_) => Crashed
    case None =>
      NoFaultIffEvent(turnNamed, loaded);
      StepWith(cfg, seen, loaded.json)
  }

  /** What a round does with an event. */
  function StepWith(cfg: Config, seen: Seen, event: Json): (r: Outcome<Seen>)
    requires IsEvent(Value(event))
  {
    if !IsMessage(event) then Ok(Noted(seen, event))
    else if seen.messages > 0 then Rejected("jsonl_agent_message_duplicate")
    else if !IsExpectedMessage(cfg, event) then Rejected("jsonl_output_mismatch")
    else Ok(Noted(seen, event).(messages := 1, output := MessageBytes(event)))
  }

  /** The type and the usage of an event are noted. */
  function Noted(seen: Seen, event: Json): (seen': Seen)
    requires IsEvent(Value(event))
  {
    var kind := KindOf(event);
    var usage := if kind == "turn.completed" then Some(event.fields["usage"]) else seen.usage;
    Seen(seen.types + [kind], seen.counts[kind := CountOf(seen.counts, kind) + 1], seen.messages, seen.output, usage)
  }

  /** The first `n` rounds. */
  function Rounds(cfg: Config, turnNamed: bool, lines: seq<string>, n: nat): (r: Outcome<Seen>)
    requires n <= |lines|
  {
    if n == 0 then Ok(NOTHING)
    else
      match Rounds(cfg, turnNamed, lines, n - 1)
      case Ok(seen) => Step(cfg, turnNamed, seen, lines[n - 1])
      case other => other
  }

  /** The checks after the loop. */
  function Verdict(seen: Seen): (r: Outcome<Seen>) {
    if CountOf(seen.counts, "thread.started") != 1 then Rejected("cli_no_event_exit")
    else if CountOf(seen.counts, "turn.started") != 1 then Rejected("cli_no_turn")
    else if CountOf(seen.counts, "turn.completed") == 0 then Rejected("jsonl_terminal_event_missing")
    else if CountOf(seen.counts, "turn.completed") != 1 then Rejected(TURN_SCHEMA)
    else if seen.messages == 0 then Rejected("jsonl_agent_message_missing")
    else if seen.types == [] || seen.types[0] != "thread.started" || seen.types[|seen.types| - 1] != "turn.completed"
            || seen.output == None then Rejected(PROOF_INVALID)
    else Ok(seen)
  }

  function Lifecycle(cfg: Config, turnNamed: bool, lines: seq<string>): (r: Outcome<Seen>) {
    match Rounds(cfg, turnNamed, lines, |lines|)
    case Ok(seen) => Verdict(seen)
    case other => other
  }

  // -------------------------------------------------------------- the declared language

  ghost predicate AllEvents(cfg: Config, lines: seq<string>, n: nat)
    requires n <= |lines|
  {
    forall i :: 0 <= i < n ==> IsEvent(cfg.load(lines[i]))
  }

  function EventAt(cfg: Config, lines: seq<string>, i: nat): (event: Json)
    requires i < |lines| && IsEvent(cfg.load(lines[i]))
  {
    cfg.load(lines[i]).json
  }

  predicate KindAt(cfg: Config, lines: seq<string>, i: nat, kind: string)
    requires i < |lines|
  {
    IsEvent(cfg.load(lines[i])) && KindOf(EventAt(cfg, lines, i)) == kind
  }

  predicate MessageAt(cfg: Config, lines: seq<string>, i: nat)
    requires i < |lines|
  {
    IsEvent(cfg.load(lines[i])) && IsMessage(EventAt(cfg, lines, i))
  }

  predicate ExpectedAt(cfg: Config, lines: seq<string>, i: nat)
    requires i < |lines|
  {
    MessageAt(cfg, lines, i) && IsExpectedMessage(cfg, EventAt(cfg, lines, i))
  }

  /** Event `at` is the only one of its kind. */
  ghost predicate OnlyAt(cfg: Config, lines: seq<string>, kind: string, at: nat) {
    at < |lines| && forall i :: 0 <= i < |lines| ==> (KindAt(cfg, lines, i, kind) <==> i == at)
  }

  ghost predicate OnlyMessageAt(cfg: Config, lines: seq<string>, n: nat, at: nat)
    requires n <= |lines|
  {
    at < n && forall i :: 0 <= i < n ==> (MessageAt(cfg, lines, i) <==> i == at)
  }

  /**
   The lifecycle: events only, `thread.started` first and nowhere else, one `turn.started`, a valid
   `turn.completed` last and nowhere else, and one completed agent message, the expected one.
   */
  ghost predicate IsLifecycle(cfg: Config, lines: seq<string>) {
    && lines != [] && AllEvents(cfg, lines, |lines|)
    && OnlyAt(cfg, lines, "thread.started", 0)
    && (exists at :: OnlyAt(cfg, lines, "turn.started", at))
    && OnlyAt(cfg, lines, "turn.completed", |lines| - 1)
    && exists at :: OnlyMessageAt(cfg, lines, |lines|, at) && ExpectedAt(cfg, lines, at)
  }

  // ------------------------------------------------------------------ what is collected

  function Occurrences(types: seq<string>, kind: string): (n: nat) {
    if types == [] then 0
    else Occurrences(types[..|types| - 1], kind) + (if types[|types| - 1] == kind then 1 else 0)
  }

  /** `counts` is the histogram of `types`. */
  ghost predicate IsHistogram(counts: map<string, nat>, types: seq<string>) {
    && (forall k :: CountOf(counts, k) == Occurrences(types, k))
    && forall k :: k in counts ==> counts[k] > 0
  }

  lemma HistogramSnoc(counts: map<string, nat>, types: seq<string>, kind: string)
    requires IsHistogram(counts, types)
    ensures IsHistogram(counts[kind := CountOf(counts, kind) + 1], types + [kind])
  {
    var more := types + [kind];
    assert more[..|more| - 1] == types;
    forall k ensures Occurrences(more, k) == Occurrences(types, k) + (if k == kind then 1 else 0) {
    }
  }

  ghost predicate KindsAre(cfg: Config, lines: seq<string>, types: seq<string>) {
    |types| <= |lines| && forall i :: 0 <= i < |types| ==> KindAt(cfg, lines, i, types[i])
  }

  predicate OutputAt(cfg: Config, lines: seq<string>, i: nat, output: Option<seq<byte>>)
    requires i < |lines|
  {
    ExpectedAt(cfg, lines, i) && output == MessageBytes(EventAt(cfg, lines, i))
  }

  /** The one message among the first `n` lines is the expected one, or there is none. */
  ghost predicate MessagesAre(cfg: Config, lines: seq<string>, n: nat, messages: nat, output: Option<seq<byte>>)
    requires n <= |lines|
  {
    if messages == 0 then output == None && forall i :: 0 <= i < n ==> !MessageAt(cfg, lines, i)
    else
      messages == 1 && exists at :: OnlyMessageAt(cfg, lines, n, at) && OutputAt(cfg, lines, at, output)
  }

  function UsageAt(cfg: Config, lines: seq<string>, i: nat): (usage: Json)
    requires i < |lines| && KindAt(cfg, lines, i, "turn.completed")
  {
    EventAt(cfg, lines, i).fields["usage"]
  }

  /** The usage of the last completed turn among the first `n` lines. */
  function LastUsage(cfg: Config, lines: seq<string>, n: nat): (usage: Option<Json>)
    requires n <= |lines|
  {
    if n == 0 then None
    else if KindAt(cfg, lines, n - 1, "turn.completed") then Some(UsageAt(cfg, lines, n - 1))
    else LastUsage(cfg, lines, n - 1)
  }

  ghost predicate Collected(cfg: Config, lines: seq<string>, n: nat, seen: Seen) {
    && n <= |lines| && |seen.types| == n
    && KindsAre(cfg, lines, seen.types)
    && IsHistogram(seen.counts, seen.types)
    && MessagesAre(cfg, lines, n, seen.messages, seen.output)
    && seen.usage == LastUsage(cfg, lines, n)
  }

  /** The first `n` lines hold events only, and at most one message, the expected one. */
  ghost predicate Passes(cfg: Config, lines: seq<string>, n: nat)
    requires n <= |lines|
  {
    && AllEvents(cfg, lines, n)
    && forall i :: 0 <= i < n && MessageAt(cfg, lines, i) ==>
         ExpectedAt(cfg, lines, i) && OnlyMessageAt(cfg, lines, n, i)
  }

  lemma MessagesStep(cfg: Config, lines: seq<string>, n: nat, messages: nat, output: Option<seq<byte>>)
    requires n < |lines| && MessagesAre(cfg, lines, n, messages, output)
    ensures !MessageAt(cfg, lines, n) ==> MessagesAre(cfg, lines, n + 1, messages, output)
    ensures MessageAt(cfg, lines, n) && messages == 0 && ExpectedAt(cfg, lines, n) ==>
              MessagesAre(cfg, lines, n + 1, 1, MessageBytes(EventAt(cfg, lines, n)))
  {
    if MessageAt(cfg, lines, n) && messages == 0 && ExpectedAt(cfg, lines, n) {
      assert OutputAt(cfg, lines, n, MessageBytes(EventAt(cfg, lines, n)));
    }
    hide MessageAt, ExpectedAt, OutputAt, MessageBytes, EventAt;
    if MessageAt(cfg, lines, n) && messages == 0 {
      assert OnlyMessageAt(cfg, lines, n + 1, n);
    }
    if !MessageAt(cfg, lines, n) && messages == 1 {
      var at :| OnlyMessageAt(cfg, lines, n, at) && OutputAt(cfg, lines, at, output);
      assert OnlyMessageAt(cfg, lines, n + 1, at);
    }
  }

  lemma LastUsageStep(cfg: Config, lines: seq<string>, n: nat)
    requires n < |lines|
    ensures LastUsage(cfg, lines, n + 1) ==
            if KindAt(cfg, lines, n, "turn.completed") then Some(UsageAt(cfg, lines, n)) else LastUsage(cfg, lines, n)
  {
  }

  /** What one round does with an event. */
  lemma StepEvent(cfg: Config, turnNamed: bool, lines: seq<string>, n: nat, seen: Seen)
    requires n < |lines|
    ensures var r := Step(cfg, turnNamed, seen, lines[n]);
            && (r.Ok? <==> IsEvent(cfg.load(lines[n]))
                           && (MessageAt(cfg, lines, n) ==> seen.messages == 0 && ExpectedAt(cfg, lines, n)))
            && (r.Ok? ==>
                  var kind := KindOf(EventAt(cfg, lines, n));
                  && KindAt(cfg, lines, n, kind)
                  && r.value.types == seen.types + [kind]
                  && r.value.counts == seen.counts[kind := CountOf(seen.counts, kind) + 1]
                  && r.value.usage == (if kind == "turn.completed" then Some(UsageAt(cfg, lines, n)) else seen.usage)
                  && r.value.messages == (if MessageAt(cfg, lines, n) then 1 else seen.messages)
                  && r.value.output ==
                     (if MessageAt(cfg, lines, n) then MessageBytes(EventAt(cfg, lines, n)) else seen.output))
  {
    NoFaultIffEvent(turnNamed, cfg.load(lines[n]));
    hide EventFault, IsExpectedMessage, MessageBytes, IsMessage, CountOf;
  }

  lemma {:induction false} StepCollects(cfg: Config, turnNamed: bool, lines: seq<string>, n: nat, seen: Seen)
    requires n < |lines| && Collected(cfg, lines, n, seen)
    ensures var r := Step(cfg, turnNamed, seen, lines[n]);
            && (r.Ok? ==> Collected(cfg, lines, n + 1, r.value))
            && (r.Ok? <==> IsEvent(cfg.load(lines[n]))
                           && (MessageAt(cfg, lines, n) ==> seen.messages == 0 && ExpectedAt(cfg, lines, n)))
  {
    StepEvent(cfg, turnNamed, lines, n, seen);
    MessagesStep(cfg, lines, n, seen.messages, seen.output);
    if IsEvent(cfg.load(lines[n])) {
      HistogramSnoc(seen.counts, seen.types, KindOf(EventAt(cfg, lines, n)));
    }
    LastUsageStep(cfg, lines, n);
    hide MessagesAre, IsHistogram, IsEvent, MessageAt, ExpectedAt, MessageBytes, UsageAt, LastUsage, Step, CountOf;
  }

  lemma PassesStep(cfg: Config, lines: seq<string>, n: nat)
    requires n < |lines|
    ensures Passes(cfg, lines, n + 1) <==>
              && Passes(cfg, lines, n) && IsEvent(cfg.load(lines[n]))
              && (MessageAt(cfg, lines, n) ==>
                    ExpectedAt(cfg, lines, n) && forall i :: 0 <= i < n ==> !MessageAt(cfg, lines, i))
  {
    hide IsEvent, MessageAt, ExpectedAt;
    if Passes(cfg, lines, n + 1) {
      forall i | 0 <= i < n && MessageAt(cfg, lines, i) ensures OnlyMessageAt(cfg, lines, n, i) && !MessageAt(cfg, lines, n) {
        assert OnlyMessageAt(cfg, lines, n + 1, i);
      }
    }
    if Passes(cfg, lines, n) && IsEvent(cfg.load(lines[n])) {
      if !MessageAt(cfg, lines, n) {
        forall i | 0 <= i < n + 1 && MessageAt(cfg, lines, i) ensures OnlyMessageAt(cfg, lines, n + 1, i) {
          assert OnlyMessageAt(cfg, lines, n, i);
        }
      }
    }
  }

  lemma NoneBefore(cfg: Config, lines: seq<string>, n: nat, seen: Seen)
    requires Collected(cfg, lines, n, seen)
    ensures seen.messages == 0 <==> forall i :: 0 <= i < n ==> !MessageAt(cfg, lines, i)
  {
    if seen.messages != 0 {
      var at :| OnlyMessageAt(cfg, lines, n, at) && OutputAt(cfg, lines, at, seen.output);
      assert MessageAt(cfg, lines, at);
    }
  }

  /** The loop gets through exactly the lines that pass, and collects what they hold. */
  lemma {:induction false} RoundsCollect(cfg: Config, turnNamed: bool, lines: seq<string>, n: nat)
    requires n <= |lines|
    ensures Rounds(cfg, turnNamed, lines, n).Ok? <==> Passes(cfg, lines, n)
    ensures Rounds(cfg, turnNamed, lines, n).Ok? ==> Collected(cfg, lines, n, Rounds(cfg, turnNamed, lines, n).value)
  {
    if n == 0 {
    } else {
      RoundsCollect(cfg, turnNamed, lines, n - 1);
      PassesStep(cfg, lines, n - 1);
      var before := Rounds(cfg, turnNamed, lines, n - 1);
      if before.Ok? {
        NoneBefore(cfg, lines, n - 1, before.value);
        StepCollects(cfg, turnNamed, lines, n - 1, before.value);
      }
      hide Passes, Collected, IsEvent, MessageAt, ExpectedAt, Step;
    }
  }

  ghost predicate OnlyIn(types: seq<string>, kind: string, at: nat) {
    at < |types| && forall i :: 0 <= i < |types| ==> (types[i] == kind <==> i == at)
  }

  lemma OnlyInInit(types: seq<string>, kind: string, at: nat)
    requires types != []
    ensures var init := types[..|types| - 1];
            OnlyIn(types, kind, at) <==>
              if types[|types| - 1] == kind then at == |init| && kind !in init else OnlyIn(init, kind, at)
  {
  }

  /** Counting to one and naming the one place are the same. */
  lemma {:induction false} OccursOnce(types: seq<string>, kind: string)
    ensures Occurrences(types, kind) == 0 <==> kind !in types
    ensures Occurrences(types, kind) == 1 <==> exists at :: OnlyIn(types, kind, at)
  {
    if types != [] {
      var init, last := types[..|types| - 1], types[|types| - 1];
      OccursOnce(init, kind);
      assert types == init + [last];
      forall at: nat ensures OnlyIn(types, kind, at) <==>
                             if last == kind then at == |init| && kind !in init else OnlyIn(init, kind, at) {
        OnlyInInit(types, kind, at);
      }
      hide OnlyIn;
      assert last == kind && kind !in init ==> OnlyIn(types, kind, |init|);
    }
  }

  lemma OnlyAtIff(cfg: Config, lines: seq<string>, types: seq<string>, kind: string, at: nat)
    requires |types| == |lines| && KindsAre(cfg, lines, types)
    ensures OnlyAt(cfg, lines, kind, at) <==> OnlyIn(types, kind, at)
  {
    forall i | 0 <= i < |types| ensures KindAt(cfg, lines, i, kind) <==> types[i] == kind {
      assert KindAt(cfg, lines, i, types[i]);
    }
  }

  lemma OnceIff(cfg: Config, lines: seq<string>, seen: Seen, kind: string)
    requires Collected(cfg, lines, |lines|, seen)
    ensures CountOf(seen.counts, kind) == 1 <==> exists at :: OnlyAt(cfg, lines, kind, at)
    ensures forall at: nat :: at < |lines| ==>
              (OnlyAt(cfg, lines, kind, at) <==> CountOf(seen.counts, kind) == 1 && seen.types[at] == kind)
  {
    OccursOnce(seen.types, kind);
    forall at: nat ensures OnlyAt(cfg, lines, kind, at) <==> OnlyIn(seen.types, kind, at) {
      OnlyAtIff(cfg, lines, seen.types, kind, at);
    }
    hide OnlyAt, KindsAre, MessagesAre, LastUsage, CountOf, Occurrences;
  }

  /** The checks after the loop and the declared order of events agree. */
  lemma VerdictIff(cfg: Config, lines: seq<string>, seen: Seen)
    requires Collected(cfg, lines, |lines|, seen)
    ensures Verdict(seen) == Ok(seen) || Verdict(seen).Rejected?
    ensures Verdict(seen).Ok? <==>
              && lines != [] && OnlyAt(cfg, lines, "thread.started", 0)
              && (exists at :: OnlyAt(cfg, lines, "turn.started", at))
              && OnlyAt(cfg, lines, "turn.completed", |lines| - 1)
              && seen.messages != 0
  {
    OnceIff(cfg, lines, seen, "thread.started");
    OnceIff(cfg, lines, seen, "turn.started");
    OnceIff(cfg, lines, seen, "turn.completed");
    assert seen.messages != 0 ==> seen.output.Some?;
    hide OnlyAt, KindsAre, MessagesAre, IsHistogram, LastUsage, CountOf;
  }

  /** The acceptor accepts exactly the lifecycles, and never crashes on one. */
  lemma LifecycleIff(cfg: Config, turnNamed: bool, lines: seq<string>)
    ensures Lifecycle(cfg, turnNamed, lines).Ok? <==> IsLifecycle(cfg, lines)
  {
    RoundsCollect(cfg, turnNamed, lines, |lines|);
    var r := Rounds(cfg, turnNamed, lines, |lines|);
    if r.Ok? {
      VerdictIff(cfg, lines, r.value);
      NoneBefore(cfg, lines, |lines|, r.value);
    }
    PassesWithOne(cfg, lines);
    hide Rounds, Passes, Collected, Verdict, OnlyAt, OnlyMessageAt, MessageAt, ExpectedAt, AllEvents;
  }

  lemma PassesWithOne(cfg: Config, lines: seq<string>)
    ensures (Passes(cfg, lines, |lines|) && exists i :: 0 <= i < |lines| && MessageAt(cfg, lines, i)) <==>
              && AllEvents(cfg, lines, |lines|)
              && exists at :: OnlyMessageAt(cfg, lines, |lines|, at) && ExpectedAt(cfg, lines, at)
  {
    hide IsEvent, MessageAt, ExpectedAt;
    if at :| OnlyMessageAt(cfg, lines, |lines|, at) && ExpectedAt(cfg, lines, at) {
      assert MessageAt(cfg, lines, at);
    }
  }

  /** What an accepted lifecycle reports. */
  lemma AcceptedReport(cfg: Config, turnNamed: bool, lines: seq<string>)
    requires Lifecycle(cfg, turnNamed, lines).Ok?
    ensures var seen := Lifecycle(cfg, turnNamed, lines).value;
            && |seen.types| == |lines| && KindsAre(cfg, lines, seen.types)
            && IsHistogram(seen.counts, seen.types)
            && seen.messages == 1 && seen.output.Some? && Sha256(seen.output.value) == cfg.expected
            && KindAt(cfg, lines, |lines| - 1, "turn.completed")
            && seen.usage == Some(UsageAt(cfg, lines, |lines| - 1)) && IsValidUsage(seen.usage.value)
  {
    RoundsCollect(cfg, turnNamed, lines, |lines|);
    LifecycleIff(cfg, turnNamed, lines);
    var seen := Rounds(cfg, turnNamed, lines, |lines|).value;
    VerdictIff(cfg, lines, seen);
    LastUsageStep(cfg, lines, |lines| - 1);
    ReportParts(cfg, lines, seen);
    hide Rounds, Verdict, IsHistogram, KindsAre, LastUsage, Passes, MessagesAre, IsValidUsage;
  }

  lemma ReportParts(cfg: Config, lines: seq<string>, seen: Seen)
    requires Collected(cfg, lines, |lines|, seen) && seen.messages != 0 && lines != []
    requires OnlyAt(cfg, lines, "turn.completed", |lines| - 1)
    ensures seen.messages == 1 && seen.output.Some? && Sha256(seen.output.value) == cfg.expected
    ensures KindAt(cfg, lines, |lines| - 1, "turn.completed") && IsValidUsage(UsageAt(cfg, lines, |lines| - 1))
  {
    var at :| OnlyMessageAt(cfg, lines, |lines|, at) && OutputAt(cfg, lines, at, seen.output);
    assert KindAt(cfg, lines, |lines| - 1, "turn.completed");
    hide LastUsage, IsHistogram, KindsAre, MessagesAre, OnlyMessageAt;
  }

  // ------------------------------------------------------------------------ the bytes

  /** turn.completed */
  const TURN_COMPLETED: seq<byte> := [0x74, 0x75, 0x72, 0x6E, 0x2E, 0x63, 0x6F, 0x6D, 0x70, 0x6C, 0x65, 0x74, 0x65, 0x64]

  predicate Contains(s: seq<byte>, part: seq<byte>) {
    part <= s || (s != [] && Contains(s[1..], part))
  }

  predicate AnyBlank(lines: seq<string>) {
    exists i :: 0 <= i < |lines| && IsBlank(lines[i])
  }

  function TextOf(value: seq<byte>): (text: string)
    requires Utf8.WellFormed(value)
  {
    CanonicalJson.Chars(Utf8.Decode(value))
  }

  function Accept(cfg: Config, value: seq<byte>): (r: Outcome<Seen>) {
    var turnNamed := Contains(value, TURN_COMPLETED);
    if |value| > MAX_BYTES then Rejected("output_limit")
    else if value != [] && value[|value| - 1] != NEWLINE then Rejected("jsonl_final_line_incomplete")
    else if !Utf8.WellFormed(value) then Rejected(if turnNamed then TURN_SCHEMA else INVALID)
    else
      var lines := Lines(TextOf(value));
      if lines == [] then Rejected("cli_no_event_exit")
      else if AnyBlank(lines) then Rejected(INVALID)
      else Lifecycle(cfg, turnNamed, lines)
  }

  /** The accepted outputs are exactly the bounded, newline-terminated UTF-8 texts of a lifecycle. */
  lemma AcceptIff(cfg: Config, value: seq<byte>)
    ensures Accept(cfg, value).Ok? <==>
              && 0 < |value| <= MAX_BYTES && value[|value| - 1] == NEWLINE && Utf8.WellFormed(value)
              && !AnyBlank(Lines(TextOf(value))) && IsLifecycle(cfg, Lines(TextOf(value)))
  {
    if Utf8.WellFormed(value) {
      LifecycleIff(cfg, Contains(value, TURN_COMPLETED), Lines(TextOf(value)));
    }
    hide Lifecycle, IsLifecycle, AnyBlank, Contains;
  }

  lemma RoundsStop(cfg: Config, turnNamed: bool, lines: seq<string>, n: nat, m: nat)
    requires n <= m <= |lines| && !Rounds(cfg, turnNamed, lines, n).Ok?
    ensures Rounds(cfg, turnNamed, lines, m) == Rounds(cfg, turnNamed, lines, n)
  {
    if n < m {
      RoundsStop(cfg, turnNamed, lines, n, m - 1);
    }
  }

  /** The message checks of one round; `none` says no message was seen before. */
  method CheckMessage(cfg: Config, event: Json, messages: nat) returns (fault: Option<string>, output: Option<seq<byte>>)
    requires IsEvent(Value(event)) && IsMessage(event)
    ensures fault == None <==> messages == 0 && IsExpectedMessage(cfg, event)
    ensures fault.Some? ==>
              fault.value == if messages > 0 then "jsonl_agent_message_duplicate" else "jsonl_output_mismatch"
    ensures fault == None ==> output == MessageBytes(event)
  {
    if messages + 1 > 1 {
      return Some("jsonl_agent_message_duplicate"), None;
    }
    output := MessageBytes(event);
    if output == None || Sha256(output.value) != cfg.expected {
      return Some("jsonl_output_mismatch"), None;
    }
    fault := None;
  }

  method ParseJsonl(cfg: Config, value: seq<byte>) returns (r: Outcome<Seen>)
    ensures r == Accept(cfg, value)
  {
    if |value| > MAX_BYTES {
      return Rejected("output_limit");
    }
    if value != [] && value[|value| - 1] != NEWLINE {
      return Rejected("jsonl_final_line_incomplete");
    }
    var turnNamed := Contains(value, TURN_COMPLETED);
    if !Utf8.WellFormed(value) {
      return Rejected(if turnNamed then TURN_SCHEMA else INVALID);
    }
    var lines := Lines(TextOf(value));
    if lines == [] {
      return Rejected("cli_no_event_exit");
    }
    if AnyBlank(lines) {
      return Rejected(INVALID);
    }
    hide Contains, AnyBlank, Lines, Accept;
    r := ReadEvents(cfg, turnNamed, lines);
  }

  lemma NextRound(cfg: Config, turnNamed: bool, lines: seq<string>, n: nat, seen: Seen)
    requires n < |lines| && Rounds(cfg, turnNamed, lines, n) == Ok(seen)
    ensures var r := Step(cfg, turnNamed, seen, lines[n]);
            && Rounds(cfg, turnNamed, lines, n + 1) == r
            && (!r.Ok? ==> Lifecycle(cfg, turnNamed, lines) == r)
  {
    hide Step, Verdict;
    if !Step(cfg, turnNamed, seen, lines[n]).Ok? {
      RoundsStop(cfg, turnNamed, lines, n + 1, |lines|);
    }
  }

  lemma StepCases(cfg: Config, turnNamed: bool, seen: Seen, line: string)
    ensures var fault := EventFault(turnNamed, cfg.load(line));
            if fault.Some? then
              Step(cfg, turnNamed, seen, line) == if fault.value.Rejected? then Rejected(fault.value.code) else Crashed
            else
              IsEvent(cfg.load(line)) && cfg.load(line).Value?
              && Step(cfg, turnNamed, seen, line) == StepWith(cfg, seen, cfg.load(line).json)
  {
    hide EventFault, StepWith;
    NoFaultIffEvent(turnNamed, cfg.load(line));
    FaultCrashesIff(turnNamed, cfg.load(line));
  }

  method ReadEvents(cfg: Config, turnNamed: bool, lines: seq<string>) returns (r: Outcome<Seen>)
    ensures r == Lifecycle(cfg, turnNamed, lines)
  {
    var types: seq<string>, counts: map<string, nat>, messages: nat := [], map[], 0;
    var output: Option<seq<byte>>, usage: Option<Json> := None, None;
    for i := 0 to |lines|
      invariant Rounds(cfg, turnNamed, lines, i) == Ok(Seen(types, counts, messages, output, usage))
    {
      hide EventFault, IsEvent, KindOf, IsMessage, IsExpectedMessage, MessageBytes, CountOf, Rounds, Lifecycle, Step;
      ghost var seen := Seen(types, counts, messages, output, usage);
      NextRound(cfg, turnNamed, lines, i, seen);
      var loaded := cfg.load(lines[i]);
      StepCases(cfg, turnNamed, seen, lines[i]);
      var fault := EventFault(turnNamed, loaded);
      if fault.Some? {
        return if fault.value.Rejected? then Rejected(fault.value.code) else Crashed;
      }
      var event := loaded.json;
      var kind := KindOf(event);
      if kind == "turn.completed" {
        usage := Some(event.fields["usage"]);
      }
      types := types + [kind];
      counts := counts[kind := CountOf(counts, kind) + 1];
      assert Seen(types, counts, messages, output, usage) == Noted(seen, event);
      hide Noted;
      if IsMessage(event) {
        var wrong, bytes := CheckMessage(cfg, event, messages);
        if wrong.Some? {
          return Rejected(wrong.value);
        }
        messages, output := messages + 1, bytes;
      }
    }
    r := Verdict(Seen(types, counts, messages, output, usage));
  }

  // ------------------------------------------------------------------------ crashes

  lemma StepCrashesIff(cfg: Config, turnNamed: bool, seen: Seen, line: string)
    ensures Step(cfg, turnNamed, seen, line) == Crashed <==> EventCrashes(cfg.load(line))
  {
    NoFaultIffEvent(turnNamed, cfg.load(line));
    FaultCrashesIff(turnNamed, cfg.load(line));
    hide EventFault, IsMessage, IsExpectedMessage, MessageBytes;
  }

  /** Line `n` is reached and makes its round crash. */
  ghost predicate CrashesAt(cfg: Config, lines: seq<string>, n: nat) {
    n < |lines| && Passes(cfg, lines, n) && EventCrashes(cfg.load(lines[n]))
  }

  /** Line `n` crashes exactly when the rounds before it succeed and its own does not load or test. */
  lemma RoundCrashes(cfg: Config, turnNamed: bool, lines: seq<string>, n: nat)
    requires n < |lines|
    ensures Rounds(cfg, turnNamed, lines, n + 1) == Crashed <==>
              Rounds(cfg, turnNamed, lines, n) == Crashed || CrashesAt(cfg, lines, n)
  {
    hide Step, Passes, EventCrashes, Collected;
    RoundsCollect(cfg, turnNamed, lines, n);
    var before := Rounds(cfg, turnNamed, lines, n);
    if before.Ok? {
      StepCrashesIff(cfg, turnNamed, before.value, lines[n]);
    }
  }

  lemma {:induction false} RoundsCrashIff(cfg: Config, turnNamed: bool, lines: seq<string>, n: nat)
    requires n <= |lines|
    ensures Rounds(cfg, turnNamed, lines, n) == Crashed <==> exists m: nat :: m < n && CrashesAt(cfg, lines, m)
  {
    hide CrashesAt, Rounds;
    if n == 0 {
      NoRounds(cfg, turnNamed, lines);
    } else {
      RoundsCrashIff(cfg, turnNamed, lines, n - 1);
      RoundCrashes(cfg, turnNamed, lines, n - 1);
    }
  }

  lemma NoRounds(cfg: Config, turnNamed: bool, lines: seq<string>)
    ensures Rounds(cfg, turnNamed, lines, 0).Ok?
  {
  }

  lemma LifecycleCrashesIff(cfg: Config, turnNamed: bool, lines: seq<string>)
    ensures Lifecycle(cfg, turnNamed, lines) == Crashed <==> exists n: nat :: CrashesAt(cfg, lines, n)
  {
    RoundsCrashIff(cfg, turnNamed, lines, |lines|);
    assert forall n: nat :: CrashesAt(cfg, lines, n) ==> n < |lines|;
    hide Rounds, CrashesAt;
  }

  /**
   The acceptor crashes exactly on bounded, newline-terminated UTF-8 without blank lines in which
   a line that is reached does: one json.loads cannot cope with, or an event whose type, or whose
   item's type, is a list or an object.
   */
  lemma AcceptCrashesIff(cfg: Config, value: seq<byte>)
    ensures Accept(cfg, value) == Crashed <==>
              && 0 < |value| <= MAX_BYTES && value[|value| - 1] == NEWLINE && Utf8.WellFormed(value)
              && !AnyBlank(Lines(TextOf(value)))
              && exists n: nat :: CrashesAt(cfg, Lines(TextOf(value)), n)
  {
    hide AnyBlank, Contains, Lifecycle, Lines, TextOf, CrashesAt;
    if Utf8.WellFormed(value) {
      LifecycleCrashesIff(cfg, Contains(value, TURN_COMPLETED), Lines(TextOf(value)));
    }
    NoText();
    NoLineCrashes(cfg);
  }

  lemma NoText()
    ensures Utf8.WellFormed([]) && Lines(TextOf([])) == []
  {
  }

  lemma NoLineCrashes(cfg: Config)
    ensures forall n: nat :: !CrashesAt(cfg, [], n)
  {
  }

  // --------------------------------------------------------------- an output that crashes

  /** json.loads as far as CanonicalJson models it. */
  function PlainLoad(text: string): (r: Loaded) {
    match CanonicalJson.Read(text)
    case Some(v) => Value(v)
    case None => Malformed
  }

  const LIST_TYPE := "{\"type\":[]}"

  const LIST_EVENT := JObj(map["type" := JArr([])])

  lemma {:induction false} LineEndOfOne(s: string)
    requires forall i :: 0 <= i < |s| ==> !IsBreak(s[i])
    ensures LineEnd(s + "\n") == |s|
  {
    hide IsBreak;
    if s == "" {
      assert IsBreak('\n') by { NewlineBreaks(); }
    } else {
      assert (s + "\n")[1..] == s[1..] + "\n";
      LineEndOfOne(s[1..]);
    }
  }

  lemma NewlineBreaks()
    ensures IsBreak('\n')
  {
  }

  lemma OneLine(s: string)
    requires forall i :: 0 <= i < |s| ==> !IsBreak(s[i])
    ensures Lines(s + "\n") == [s]
  {
    LineEndOfOne(s);
    hide IsBreak, LineEnd;
    assert (s + "\n")[..|s|] == s && (s + "\n")[|s| + 1..] == "";
    assert Lines("") == [];
  }

  /** The event is read from its text. */
  lemma ReadListType()
    ensures PlainLoad(LIST_TYPE) == Value(LIST_EVENT)
  {
    hide CanonicalJson.Print, CanonicalJson.Read, CanonicalJson.PrintString, CanonicalJson.IsPlain;
    ListEventIsPlain();
    CanonicalJson.ReadPrint(LIST_EVENT);
    CanonicalJson.PrintOneMember("type", JArr([]));
    TypeEscaped();
    NoItems();
    assert "{" + "\"type\"" + ":" + "[]" + "}" == LIST_TYPE;
  }

  lemma ListEventIsPlain()
    ensures CanonicalJson.IsPlain(LIST_EVENT)
  {
    assert CanonicalJson.IsPlain(JArr([]));
  }

  lemma NoItems()
    ensures CanonicalJson.Print(JArr([])) == "[]"
  {
    assert CanonicalJson.PrintItems(JArr([]), 0) == "";
  }

  lemma TypeEscaped()
    ensures CanonicalJson.PrintString("type") == "\"type\""
  {
    hide CanonicalJson.Escape;
    assert CanonicalJson.Escape('t') == "t" && CanonicalJson.Escape('y') == "y"
           && CanonicalJson.Escape('p') == "p" && CanonicalJson.Escape('e') == "e" by {
      PlainEscape('t');
      PlainEscape('y');
      PlainEscape('p');
      PlainEscape('e');
    }
    assert CanonicalJson.EscapeAll("") == "";
    assert CanonicalJson.EscapeAll("e") == "e";
    assert CanonicalJson.EscapeAll("pe") == "pe";
    assert CanonicalJson.EscapeAll("ype") == "ype";
    assert CanonicalJson.EscapeAll("type") == "type";
  }

  lemma PlainEscape(c: char)
    requires 'a' <= c <= 'z'
    ensures CanonicalJson.Escape(c) == [c]
  {
  }

  /** The octets of ASCII text. */
  function Octets(s: string): (value: seq<byte>)
    requires forall i :: 0 <= i < |s| ==> s[i] < 0x80 as char
  {
    seq(|s|, i requires 0 <= i < |s| => s[i] as int)
  }

  lemma TextOfOctets(s: string)
    requires forall i :: 0 <= i < |s| ==> s[i] < 0x80 as char
    ensures Utf8.WellFormed(Octets(s)) && TextOf(Octets(s)) == s
  {
    Utf8.AsciiIsWellFormed(Octets(s));
  }

  /** A line of ASCII text whose event crashes makes an output that crashes. */
  lemma OneLineCrashes(cfg: Config, line: string)
    requires EventCrashes(cfg.load(line)) && !IsBlank(line) && |line| < MAX_BYTES
    requires forall i :: 0 <= i < |line| ==> line[i] < 0x80 as char && !IsBreak(line[i])
    ensures Accept(cfg, Octets(line + "\n")) == Crashed
  {
    hide EventCrashes, IsBlank, IsBreak, Lines, TextOf, Accept;
    var value := Octets(line + "\n");
    TextOfOctets(line + "\n");
    OneLine(line);
    assert CrashesAt(cfg, [line], 0);
    hide CrashesAt;
    assert |value| == |line| + 1 && value[|value| - 1] == NEWLINE;
    assert !AnyBlank([line]);
    AcceptCrashesIff(cfg, value);
  }

  /** An output the acceptor crashes on: one event, whose type is a list. */
  lemma ListTypeCrashes(expected: Digest<seq<byte>>)
    ensures Accept(Config(PlainLoad, expected), Octets(LIST_TYPE + "\n")) == Crashed
  {
    hide PlainLoad, Accept, IsBlank;
    ReadListType();
    assert EventCrashes(Value(LIST_EVENT));
    assert !IsBlank(LIST_TYPE) by { NotBlank(LIST_TYPE, 0); }
    hide EventCrashes;
    OneLineCrashes(Config(PlainLoad, expected), LIST_TYPE);
  }

  lemma NotBlank(line: string, i: nat)
    requires i < |line| && !IsSpace(line[i])
    ensures !IsBlank(line)
  {
  }
}
