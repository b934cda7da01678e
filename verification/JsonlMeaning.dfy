/**
 What the JSONL acceptor accepts, and what its error codes mean, in terms of JSON values: the
 reading of app/codex_process_executor_wsl.py, `parse_codex_jsonl`, its callers rely on.
 */
module JsonlMeaning {
  import opened Bytes
  import opened JsonValues
  import opened Jsonl
  import CanonicalJson
  import Utf8

  // ---------------------------------------------------------------------- characters

  /** The ten characters str.splitlines breaks at; each of them is white space. */
  lemma BreakCharacters(c: char)
    ensures IsBreak(c) <==>
              c as int in [0x0A, 0x0B, 0x0C, 0x0D, 0x1C, 0x1D, 0x1E, 0x85, 0x2028, 0x2029]
    ensures IsBreak(c) ==> IsSpace(c)
  {
  }

  /** The white space of str.strip: breaks, the blanks, and the unit separator. */
  lemma SpaceCharacters(c: char)
    ensures IsSpace(c) <==>
              || IsBreak(c)
              || c as int in [0x09, 0x1F, 0x20, 0xA0, 0x1680, 0x202F, 0x205F, 0x3000]
              || c as int in [0x2000, 0x2001, 0x2002, 0x2003, 0x2004, 0x2005, 0x2006, 0x2007, 0x2008, 0x2009, 0x200A]
  {
  }

  /** Lines, each ended by a newline, or by a carriage return and a newline. */
  function Joined(lines: seq<string>, end: string): (text: string) {
    if lines == [] then "" else lines[0] + end + Joined(lines[1..], end)
  }

  lemma {:induction false} LineEndOf(line: string, rest: string)
    requires (forall i :: 0 <= i < |line| ==> !IsBreak(line[i])) && rest != "" && IsBreak(rest[0])
    ensures LineEnd(line + rest) == |line|
  {
    hide IsBreak;
    if line == "" {
      assert line + rest == rest;
    } else {
      assert (line + rest)[1..] == line[1..] + rest;
      LineEndOf(line[1..], rest);
    }
  }

  lemma LinesStep(line: string, end: string, tail: string)
    requires end == "\n" || end == "\r\n"
    requires forall i :: 0 <= i < |line| ==> !IsBreak(line[i])
    ensures Lines(line + end + tail) == [line] + Lines(tail)
  {
    var text, rest := line + end + tail, end + tail;
    assert text == line + rest && rest[0] == end[0];
    assert IsBreak(end[0]);
    LineEndOf(line, rest);
    hide IsBreak, LineEnd;
    assert text[|line|] == end[0] && text[..|line|] == line && text[|line| + |end|..] == tail;
    assert end == "\r\n" ==> text[|line| + 1] == '\n';
  }

  /** Splitting gives the lines back, with either end. */
  lemma {:induction false} LinesOfJoined(lines: seq<string>, end: string)
    requires end == "\n" || end == "\r\n"
    requires forall k :: 0 <= k < |lines| ==> forall i :: 0 <= i < |lines[k]| ==> !IsBreak(lines[k][i])
    ensures Lines(Joined(lines, end)) == lines
  {
    if lines != [] {
      hide Lines, IsBreak;
      LinesOfJoined(lines[1..], end);
      LinesStep(lines[0], end, Joined(lines[1..], end));
    }
  }

  // ---------------------------------------------------------------------- one event

  /** The counts a completed turn reports. */
  datatype Counts = Counts(input: nat, cached: nat, written: nat, output: nat, reasoning: nat)

  function UsageOf(c: Counts): (v: Json) {
    JObj(Usage(JInt(c.input), JInt(c.cached), JInt(c.written), JInt(c.output), JInt(c.reasoning)))
  }

  /** Five counts, and nothing else. */
  ghost predicate IsUsage(v: Json) {
    exists c :: v == UsageOf(c)
  }

  /** The object with these five values. */
  function Usage(input: Json, cached: Json, written: Json, output: Json, reasoning: Json): (fields: map<string, Json>) {
    map["input_tokens" := input, "cached_input_tokens" := cached, "cache_write_input_tokens" := written,
        "output_tokens" := output, "reasoning_output_tokens" := reasoning]
  }

  lemma UsageKeys(input: Json, cached: Json, written: Json, output: Json, reasoning: Json)
    ensures Usage(input, cached, written, output, reasoning).Keys == USAGE_FIELDS
  {
  }

  lemma UsageValue(input: Json, cached: Json, written: Json, output: Json, reasoning: Json, k: string)
    requires k in USAGE_FIELDS
    ensures Usage(input, cached, written, output, reasoning)[k] ==
              if k == "input_tokens" then input
              else if k == "cached_input_tokens" then cached
              else if k == "cache_write_input_tokens" then written
              else if k == "output_tokens" then output
              else reasoning
  {
  }

  lemma UsageRebuilt(f: map<string, Json>)
    requires f.Keys == USAGE_FIELDS
    ensures f == Usage(f["input_tokens"], f["cached_input_tokens"], f["cache_write_input_tokens"], f["output_tokens"],
                       f["reasoning_output_tokens"])
  {
    var g := Usage(f["input_tokens"], f["cached_input_tokens"], f["cache_write_input_tokens"], f["output_tokens"],
                   f["reasoning_output_tokens"]);
    UsageKeys(f["input_tokens"], f["cached_input_tokens"], f["cache_write_input_tokens"], f["output_tokens"],
              f["reasoning_output_tokens"]);
    hide Usage;
    forall k | k in f ensures f[k] == g[k] {
      UsageValue(f["input_tokens"], f["cached_input_tokens"], f["cache_write_input_tokens"], f["output_tokens"],
                 f["reasoning_output_tokens"], k);
    }
  }

  lemma UsageIff(v: Json)
    ensures IsValidUsage(v) <==> IsUsage(v)
  {
    hide IsValidUsage, IsUsage;
    if IsValidUsage(v) {
      ValidUsage(v);
    }
    if IsUsage(v) {
      FiveCounts(v);
    }
  }

  lemma CountAt(f: map<string, Json>, k: string)
    requires IsValidUsage(JObj(f)) && k in USAGE_FIELDS
    ensures k in f && f[k].JInt? && f[k].number >= 0
  {
  }

  lemma ValidUsage(v: Json)
    requires IsValidUsage(v)
    ensures IsUsage(v)
  {
    var f := v.fields;
    assert f.Keys == USAGE_FIELDS && v == JObj(f);
    hide IsValidUsage, Usage;
    UsageRebuilt(f);
    CountAt(f, "input_tokens");
    CountAt(f, "cached_input_tokens");
    CountAt(f, "cache_write_input_tokens");
    CountAt(f, "output_tokens");
    CountAt(f, "reasoning_output_tokens");
    FiveAreUsage(f["input_tokens"], f["cached_input_tokens"], f["cache_write_input_tokens"], f["output_tokens"],
                 f["reasoning_output_tokens"]);
  }

  lemma FiveAreUsage(input: Json, cached: Json, written: Json, output: Json, reasoning: Json)
    requires input.JInt? && input.number >= 0 && cached.JInt? && cached.number >= 0 && written.JInt? && written.number >= 0
    requires output.JInt? && output.number >= 0 && reasoning.JInt? && reasoning.number >= 0
    ensures IsUsage(JObj(Usage(input, cached, written, output, reasoning)))
  {
    hide Usage;
    assert JObj(Usage(input, cached, written, output, reasoning)) ==
           UsageOf(Counts(input.number, cached.number, written.number, output.number, reasoning.number));
  }

  lemma UsageRange(input: Json, cached: Json, written: Json, output: Json, reasoning: Json, k: string)
    requires k in Usage(input, cached, written, output, reasoning)
    ensures var v := Usage(input, cached, written, output, reasoning)[k];
            v == input || v == cached || v == written || v == output || v == reasoning
  {
  }

  lemma UsageOfCounts(c: Counts)
    ensures IsValidUsage(UsageOf(c))
  {
    hide Usage;
    UsageKeys(JInt(c.input), JInt(c.cached), JInt(c.written), JInt(c.output), JInt(c.reasoning));
    forall k | k in UsageOf(c).fields ensures UsageOf(c).fields[k].JInt? && UsageOf(c).fields[k].number >= 0 {
      UsageRange(JInt(c.input), JInt(c.cached), JInt(c.written), JInt(c.output), JInt(c.reasoning), k);
    }
  }

  lemma FiveCounts(v: Json)
    requires IsUsage(v)
    ensures IsValidUsage(v)
  {
    hide UsageOf, IsValidUsage;
    var c :| v == UsageOf(c);
    UsageOfCounts(c);
  }

  /** A type that names no forbidden item, and can be looked up. */
  predicate IsHarmless(kind: Json) {
    !kind.JArr? && !kind.JObj?
    && kind != JStr("command_execution") && kind != JStr("file_change") && kind != JStr("mcp_tool_call")
    && kind != JStr("collab_tool_call") && kind != JStr("web_search")
  }

  ghost predicate HasKnownKeys(fields: map<string, Json>) {
    forall k :: k in fields ==> k in ["type", "thread_id", "turn_id", "item", "usage", "error", "message"]
  }

  predicate IsPassingType(kind: Json) {
    || kind == JStr("thread.started") || kind == JStr("turn.started") || kind == JStr("turn.completed")
    || kind == JStr("item.started") || kind == JStr("item.updated") || kind == JStr("item.completed")
  }

  /** A completed turn reports its usage and nothing else. */
  ghost predicate IsTurnReport(fields: map<string, Json>) {
    exists usage :: fields == map["type" := JStr("turn.completed"), "usage" := usage] && IsUsage(usage)
  }

  predicate HasHarmlessItem(fields: map<string, Json>) {
    var item := Get(fields, "item");
    item.JObj? && item.fields != map[] ==> IsHarmless(Get(item.fields, "type"))
  }

  /** An event the acceptor lets pass. */
  ghost predicate MayPass(v: Json) {
    && v.JObj? && HasKnownKeys(v.fields) && IsPassingType(Get(v.fields, "type")) && HasHarmlessItem(v.fields)
    && (Get(v.fields, "type") == JStr("turn.completed") ==> IsTurnReport(v.fields))
  }

  lemma EventIff(v: Json)
    ensures IsEvent(Value(v)) <==> MayPass(v)
  {
    hide HasKnownKeys, IsPassingType, HasHarmlessItem, IsTurnReport, IsValidTurn, IsLifecycleKind, ItemOf, IsAllowedItem, Get;
    if v.JObj? {
      KeysIff(v.fields);
      KindIff(Get(v.fields, "type"));
      ItemIff(v.fields);
      if Get(v.fields, "type") == JStr("turn.completed") {
        TurnIff(v.fields);
      }
    }
  }

  lemma KeysIff(fields: map<string, Json>)
    ensures fields.Keys <= EVENT_KEYS <==> HasKnownKeys(fields)
  {
  }

  lemma KindIff(kind: Json)
    ensures kind.JStr? && IsLifecycleKind(kind.text) <==> IsPassingType(kind)
  {
  }

  lemma TurnIff(fields: map<string, Json>)
    requires Get(fields, "type") == JStr("turn.completed")
    ensures IsValidTurn(fields) <==> IsTurnReport(fields)
  {
    hide IsUsage, IsValidUsage;
    if IsValidTurn(fields) {
      UsageIff(fields["usage"]);
      assert fields == map["type" := JStr("turn.completed"), "usage" := fields["usage"]];
    }
    if IsTurnReport(fields) {
      var usage :| fields == map["type" := JStr("turn.completed"), "usage" := usage] && IsUsage(usage);
      UsageIff(usage);
    }
  }

  lemma ItemIff(fields: map<string, Json>)
    ensures (ItemOf(fields).Some? ==> IsAllowedItem(ItemOf(fields).value)) <==> HasHarmlessItem(fields)
  {
  }

  /** A completed item that is an agent message. */
  predicate IsAgentMessage(v: Json) {
    v.JObj? && Get(v.fields, "type") == JStr("item.completed")
    && Get(v.fields, "item").JObj? && Get(Get(v.fields, "item").fields, "type") == JStr("agent_message")
  }

  /** The text it says, if it says one. */
  predicate Says(v: Json, text: string) {
    IsAgentMessage(v) && Get(Get(v.fields, "item").fields, "text") == JStr(text)
  }

  lemma MessageIff(cfg: Config, v: Json)
    requires IsEvent(Value(v))
    ensures IsMessage(v) <==> IsAgentMessage(v)
    ensures IsMessage(v) ==> (IsExpectedMessage(cfg, v) <==>
              exists text :: Says(v, text) && Sha256(Utf8.EncodeAll(CanonicalJson.Scalars(text))) == cfg.expected)
  {
    hide IsValidTurn, IsAllowedItem, IsLifecycleKind;
    if IsMessage(v) && MessageBytes(v).Some? {
      assert Says(v, Get(ItemOf(v.fields).value, "text").text);
    }
  }

  // ---------------------------------------------------------------------- the stream

  function TypeOf(v: Json): (kind: Json) {
    if v.JObj? then Get(v.fields, "type") else JNull
  }

  /** Exactly event `at` has this type. */
  ghost predicate OnlyType(events: seq<Json>, kind: string, at: int) {
    0 <= at < |events| && forall i :: 0 <= i < |events| ==> (TypeOf(events[i]) == JStr(kind) <==> i == at)
  }

  /** Event `at` is the only agent message, and says the expected text. */
  ghost predicate OnlyMessage(cfg: Config, events: seq<Json>, at: int) {
    && 0 <= at < |events| && (forall i :: 0 <= i < |events| ==> (IsAgentMessage(events[i]) <==> i == at))
    && exists text :: Says(events[at], text) && Sha256(Utf8.EncodeAll(CanonicalJson.Scalars(text))) == cfg.expected
  }

  /**
   The events of a whole turn: each may pass, the thread starts first and only there, the turn starts once
   and is completed last and only there, and a single agent message says the expected text.
   */
  ghost predicate IsTurn(cfg: Config, events: seq<Json>) {
    && (forall i :: 0 <= i < |events| ==> MayPass(events[i]))
    && OnlyType(events, "thread.started", 0) && OnlyType(events, "turn.completed", |events| - 1)
    && (exists at :: OnlyType(events, "turn.started", at))
    && exists at :: OnlyMessage(cfg, events, at)
  }

  ghost predicate AreEvents(cfg: Config, lines: seq<string>, events: seq<Json>) {
    |lines| == |events| && forall i :: 0 <= i < |lines| ==> cfg.load(lines[i]) == Value(events[i])
  }

  lemma PlaceIff(cfg: Config, lines: seq<string>, events: seq<Json>, i: nat, kind: string)
    requires AreEvents(cfg, lines, events) && i < |lines| && MayPass(events[i])
    ensures KindAt(cfg, lines, i, kind) <==> TypeOf(events[i]) == JStr(kind)
    ensures MessageAt(cfg, lines, i) <==> IsAgentMessage(events[i])
    ensures MessageAt(cfg, lines, i) ==> (ExpectedAt(cfg, lines, i) <==>
              exists text :: Says(events[i], text) && Sha256(Utf8.EncodeAll(CanonicalJson.Scalars(text))) == cfg.expected)
  {
    EventIff(events[i]);
    MessageIff(cfg, events[i]);
    hide MayPass, IsMessage, IsExpectedMessage, IsAgentMessage, Says, IsAllowedItem, IsLifecycleKind, IsValidTurn;
  }

  lemma OnlyTypeIff(cfg: Config, lines: seq<string>, events: seq<Json>, kind: string, at: nat)
    requires AreEvents(cfg, lines, events) && forall i :: 0 <= i < |events| ==> MayPass(events[i])
    ensures OnlyAt(cfg, lines, kind, at) <==> OnlyType(events, kind, at)
  {
    hide MayPass, KindAt, TypeOf;
    forall i: nat | i < |lines| ensures KindAt(cfg, lines, i, kind) <==> TypeOf(events[i]) == JStr(kind) {
      PlaceIff(cfg, lines, events, i, kind);
    }
  }

  lemma OnlyMessageIff(cfg: Config, lines: seq<string>, events: seq<Json>, at: nat)
    requires AreEvents(cfg, lines, events) && forall i :: 0 <= i < |events| ==> MayPass(events[i])
    ensures OnlyMessageAt(cfg, lines, |lines|, at) && ExpectedAt(cfg, lines, at) <==> OnlyMessage(cfg, events, at)
  {
    hide MayPass, MessageAt, IsAgentMessage, Says, ExpectedAt;
    forall i: nat | i < |lines| ensures MessageAt(cfg, lines, i) <==> IsAgentMessage(events[i]) {
      PlaceIff(cfg, lines, events, i, "");
    }
    if at < |lines| {
      PlaceIff(cfg, lines, events, at, "");
    }
  }

  lemma TurnIffLifecycle(cfg: Config, lines: seq<string>, events: seq<Json>)
    requires AreEvents(cfg, lines, events)
    ensures IsLifecycle(cfg, lines) <==> IsTurn(cfg, events)
  {
    hide IsEvent, MayPass, OnlyAt, OnlyType, OnlyMessageAt, OnlyMessage, ExpectedAt;
    forall i | 0 <= i < |lines| ensures IsEvent(cfg.load(lines[i])) <==> MayPass(events[i]) {
      EventIff(events[i]);
    }
    if forall i :: 0 <= i < |events| ==> MayPass(events[i]) {
      TypesIff(cfg, lines, events);
    }
    if lines == [] {
      NoTurn(cfg);
    }
  }

  lemma NoTurn(cfg: Config)
    ensures !IsTurn(cfg, [])
  {
  }

  lemma TypesIff(cfg: Config, lines: seq<string>, events: seq<Json>)
    requires AreEvents(cfg, lines, events) && forall i :: 0 <= i < |events| ==> MayPass(events[i])
    ensures OnlyAt(cfg, lines, "thread.started", 0) <==> OnlyType(events, "thread.started", 0)
    ensures |lines| > 0 ==>
              (OnlyAt(cfg, lines, "turn.completed", |lines| - 1) <==> OnlyType(events, "turn.completed", |lines| - 1))
    ensures (exists at :: OnlyAt(cfg, lines, "turn.started", at)) <==> exists at :: OnlyType(events, "turn.started", at)
    ensures (exists at :: OnlyMessageAt(cfg, lines, |lines|, at) && ExpectedAt(cfg, lines, at)) <==>
              exists at :: OnlyMessage(cfg, events, at)
  {
    hide MayPass, OnlyAt, OnlyMessage, ExpectedAt, MessageAt;
    forall kind, at: nat ensures OnlyAt(cfg, lines, kind, at) <==> OnlyType(events, kind, at) {
      OnlyTypeIff(cfg, lines, events, kind, at);
    }
    forall at: nat | at < |lines|
      ensures OnlyMessageAt(cfg, lines, |lines|, at) && ExpectedAt(cfg, lines, at) <==> OnlyMessage(cfg, events, at)
    {
      OnlyMessageIff(cfg, lines, events, at);
    }
    if exists at :: OnlyMessage(cfg, events, at) {
      var at :| OnlyMessage(cfg, events, at);
      MessageIsThere(cfg, events, at);
    }
  }

  lemma MessageIsThere(cfg: Config, events: seq<Json>, at: int)
    requires OnlyMessage(cfg, events, at)
    ensures 0 <= at < |events|
  {
  }

  /**
   The acceptor accepts exactly bounded UTF-8 that ends with a newline, has no blank line, and whose lines load
   to the events of a whole turn.
   */
  lemma AcceptsTurns(cfg: Config, value: seq<byte>)
    ensures Accept(cfg, value).Ok? <==>
              && 0 < |value| <= 16384 && value[|value| - 1] == 0x0A && Utf8.WellFormed(value)
              && (forall i :: 0 <= i < |Lines(TextOf(value))| ==> !IsBlank(Lines(TextOf(value))[i]))
              && exists events :: AreEvents(cfg, Lines(TextOf(value)), events) && IsTurn(cfg, events)
  {
    AcceptIff(cfg, value);
    if Utf8.WellFormed(value) {
      var lines := Lines(TextOf(value));
      hide Accept, Lines, TextOf, IsLifecycle, IsTurn, IsBlank, Utf8.WellFormed;
      if IsLifecycle(cfg, lines) {
        LoadsAll(cfg, lines);
        var events := seq(|lines|, i requires 0 <= i < |lines| && cfg.load(lines[i]).Value? => cfg.load(lines[i]).json);
        TurnIffLifecycle(cfg, lines, events);
      }
      forall events | AreEvents(cfg, lines, events) && IsTurn(cfg, events) ensures IsLifecycle(cfg, lines) {
        TurnIffLifecycle(cfg, lines, events);
      }
    }
  }

  lemma LoadsAll(cfg: Config, lines: seq<string>)
    requires IsLifecycle(cfg, lines)
    ensures forall i :: 0 <= i < |lines| ==> cfg.load(lines[i]).Value?
  {
  }

  /** The bytes looked for before anything is decoded are those of "turn.completed", anywhere in the output. */
  lemma NamesTurn(value: seq<byte>)
    ensures TURN_COMPLETED == Octets("turn.completed")
    ensures Contains(value, TURN_COMPLETED) <==> exists i :: 0 <= i <= |value| && TURN_COMPLETED <= value[i..]
  {
    ContainsIff(value, TURN_COMPLETED);
  }

  lemma {:induction false} ContainsIff(s: seq<byte>, part: seq<byte>)
    ensures Contains(s, part) <==> exists i :: 0 <= i <= |s| && part <= s[i..]
  {
    assert s[0..] == s;
    if s != [] {
      ContainsIff(s[1..], part);
      assert forall i :: 0 < i <= |s| ==> s[i..] == s[1..][i - 1..];
      if exists i :: 0 <= i <= |s[1..]| && part <= s[1..][i..] {
        var i :| 0 <= i <= |s[1..]| && part <= s[1..][i..];
        assert s[i + 1..] == s[1..][i..];
      }
    }
  }

  // ---------------------------------------------------------------------- error codes

  /** What a line must be like to be refused with a code before it is noted. */
  ghost predicate IsFault(turnNamed: bool, loaded: Loaded, code: string) {
    match loaded
    case Malformed => code == if turnNamed then "jsonl_turn_completed_schema_invalid" else "jsonl_invalid"
    case Escapes => false
    case Value(v) =>
      || (code == "jsonl_invalid" &&
          (!v.JObj? || (!HasKnownKeys(v.fields) && TypeOf(v) != JStr("turn.completed"))
           || !(IsPassingType(TypeOf(v)) || IsFailureType(TypeOf(v)))))
      || (code == "jsonl_turn_completed_schema_invalid" && TypeOf(v) == JStr("turn.completed") && !IsTurnReport(v.fields))
      || (code == "response_proof_invalid" && v.JObj? && (IsFailureType(TypeOf(v)) || !HasHarmlessItem(v.fields)))
  }

  predicate IsFailureType(kind: Json) {
    kind == JStr("turn.failed") || kind == JStr("error")
  }

  /** A round refuses a line only with a code that is true of it. */
  lemma FaultIsTrue(turnNamed: bool, loaded: Loaded, code: string)
    requires EventFault(turnNamed, loaded) == Some(Rejected(code))
    ensures IsFault(turnNamed, loaded, code)
  {
    if loaded.Value? && loaded.json.JObj? {
      var fields := loaded.json.fields;
      KeysIff(fields);
      TypeIff(Get(fields, "type"));
      ItemIff(fields);
      if ItemOf(fields).Some? {
        ForbiddenItem(fields);
      }
      if Get(fields, "type") == JStr("turn.completed") {
        TurnIff(fields);
        if !HasKnownKeys(fields) {
          ReportKeys(fields);
        }
      }
    }
    hide HasKnownKeys, IsPassingType, IsFailureType, HasHarmlessItem, IsTurnReport, IsValidTurn, IsLifecycleKind, ItemOf,
         IsAllowedItem, Get;
  }

  lemma ReportKeys(fields: map<string, Json>)
    requires !HasKnownKeys(fields)
    ensures !IsTurnReport(fields)
  {
  }

  lemma TypeIff(kind: Json)
    ensures kind.JStr? && kind.text in EVENT_TYPES <==> IsPassingType(kind) || IsFailureType(kind)
    ensures kind.JStr? && kind.text in {"turn.failed", "error"} <==> IsFailureType(kind)
  {
  }

  lemma ForbiddenItem(fields: map<string, Json>)
    requires ItemOf(fields).Some?
    ensures var kind := Get(ItemOf(fields).value, "type");
            kind.JStr? && kind.text in FORBIDDEN_ITEMS ==> !HasHarmlessItem(fields)
  {
  }

  /** What the types and messages noted must be like for a code after the last line. */
  ghost predicate IsIncomplete(seen: Seen, code: string) {
    var threads, turns, ends := Occurrences(seen.types, "thread.started"), Occurrences(seen.types, "turn.started"),
                                Occurrences(seen.types, "turn.completed");
    if threads != 1 then code == "cli_no_event_exit"
    else if turns != 1 then code == "cli_no_turn"
    else if ends == 0 then code == "jsonl_terminal_event_missing"
    else if ends > 1 then code == "jsonl_turn_completed_schema_invalid"
    else if seen.messages == 0 then code == "jsonl_agent_message_missing"
    else
      code == "response_proof_invalid"
      && (seen.types == [] || seen.types[0] != "thread.started" || seen.types[|seen.types| - 1] != "turn.completed"
          || seen.output == None)
  }

  lemma VerdictIsTrue(seen: Seen, code: string)
    requires IsHistogram(seen.counts, seen.types) && Verdict(seen) == Rejected(code)
    ensures IsIncomplete(seen, code)
  {
    assert CountOf(seen.counts, "thread.started") == Occurrences(seen.types, "thread.started");
    assert CountOf(seen.counts, "turn.started") == Occurrences(seen.types, "turn.started");
    assert CountOf(seen.counts, "turn.completed") == Occurrences(seen.types, "turn.completed");
    hide CountOf, Occurrences, IsHistogram;
  }

  /** Line `n` is the first that is refused, with a code that is true of it. */
  ghost predicate IsRefused(cfg: Config, turnNamed: bool, lines: seq<string>, n: nat, code: string) {
    && n < |lines| && Passes(cfg, lines, n)
    && (IsFault(turnNamed, cfg.load(lines[n]), code)
        || (code == "jsonl_agent_message_duplicate" && MessageAt(cfg, lines, n) && exists i: nat :: i < n && MessageAt(cfg, lines, i))
        || (code == "jsonl_output_mismatch" && MessageAt(cfg, lines, n) && !ExpectedAt(cfg, lines, n)))
  }

  lemma StepIsTrue(cfg: Config, turnNamed: bool, lines: seq<string>, n: nat, code: string)
    requires n < |lines| && Rounds(cfg, turnNamed, lines, n).Ok? && Rounds(cfg, turnNamed, lines, n + 1) == Rejected(code)
    ensures IsRefused(cfg, turnNamed, lines, n, code)
  {
    RoundsCollect(cfg, turnNamed, lines, n);
    var seen := Rounds(cfg, turnNamed, lines, n).value;
    var loaded := cfg.load(lines[n]);
    var fault := EventFault(turnNamed, loaded);
    hide EventFault, Passes, Collected, IsMessage, IsExpectedMessage, MessageBytes, IsFault, IsEvent;
    StepCases(cfg, turnNamed, seen, lines[n]);
    assert Rounds(cfg, turnNamed, lines, n + 1) == Step(cfg, turnNamed, seen, lines[n]);
    hide Rounds, Step;
    if fault.Some? {
      assert fault == Some(Rejected(code)) by { FaultIsNoSuccess(turnNamed, loaded); }
      FaultIsTrue(turnNamed, loaded, code);
    } else if seen.messages > 0 {
      MessageBefore(cfg, lines, n, seen);
    }
  }

  lemma FaultIsNoSuccess(turnNamed: bool, loaded: Loaded)
    ensures EventFault(turnNamed, loaded).Some? ==> !EventFault(turnNamed, loaded).value.Ok?
  {
    hide IsValidTurn, ItemOf;
  }

  lemma MessageBefore(cfg: Config, lines: seq<string>, n: nat, seen: Seen)
    requires Collected(cfg, lines, n, seen) && seen.messages > 0
    ensures exists i: nat :: i < n && MessageAt(cfg, lines, i)
  {
    hide MessageAt, KindsAre, IsHistogram, LastUsage, OutputAt;
    var at :| OnlyMessageAt(cfg, lines, n, at) && OutputAt(cfg, lines, at, seen.output);
    assert MessageAt(cfg, lines, at);
  }

  lemma {:induction false} FirstRefusal(cfg: Config, turnNamed: bool, lines: seq<string>, n: nat, code: string)
    requires n <= |lines| && Rounds(cfg, turnNamed, lines, n) == Rejected(code)
    ensures exists m: nat :: IsRefused(cfg, turnNamed, lines, m, code)
  {
    if Rounds(cfg, turnNamed, lines, n - 1).Ok? {
      StepIsTrue(cfg, turnNamed, lines, n - 1, code);
    } else {
      FirstRefusal(cfg, turnNamed, lines, n - 1, code);
    }
  }

  /** What an output must be like to be refused with a code. */
  ghost predicate IsRefusal(cfg: Config, value: seq<byte>, code: string) {
    var turnNamed := Contains(value, TURN_COMPLETED);
    if |value| > 16384 then code == "output_limit"
    else if value != [] && value[|value| - 1] != 0x0A then code == "jsonl_final_line_incomplete"
    else if !Utf8.WellFormed(value) then
      code == if turnNamed then "jsonl_turn_completed_schema_invalid" else "jsonl_invalid"
    else
      var lines := Lines(TextOf(value));
      if lines == [] then code == "cli_no_event_exit"
      else if exists i :: 0 <= i < |lines| && IsBlank(lines[i]) then code == "jsonl_invalid"
      else
        || (exists n: nat :: IsRefused(cfg, turnNamed, lines, n, code))
        || (exists seen :: Collected(cfg, lines, |lines|, seen) && IsIncomplete(seen, code))
  }

  /** The code an output is refused with is true of it: of its bytes, its first faulty line, or what all lines amount to. */
  lemma CodesAreTrue(cfg: Config, value: seq<byte>, code: string)
    requires Accept(cfg, value) == Rejected(code)
    ensures IsRefusal(cfg, value, code)
  {
    hide Contains, Lines, TextOf, IsBlank, Rounds, Verdict, IsIncomplete, IsRefused, Collected, Utf8.WellFormed;
    if |value| <= MAX_BYTES && Utf8.WellFormed(value) {
      var turnNamed, lines := Contains(value, TURN_COMPLETED), Lines(TextOf(value));
      if Lifecycle(cfg, turnNamed, lines) == Rejected(code) {
        var r := Rounds(cfg, turnNamed, lines, |lines|);
        if r.Ok? {
          RoundsCollect(cfg, turnNamed, lines, |lines|);
          CollectedHistogram(cfg, lines, r.value);
          VerdictIsTrue(r.value, code);
        } else {
          FirstRefusal(cfg, turnNamed, lines, |lines|, code);
        }
      }
    }
  }

  lemma CollectedHistogram(cfg: Config, lines: seq<string>, seen: Seen)
    requires Collected(cfg, lines, |lines|, seen)
    ensures IsHistogram(seen.counts, seen.types)
  {
    hide IsHistogram, MessagesAre, KindsAre, LastUsage;
  }
}
