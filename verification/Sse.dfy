/**
 Server-sent events of the wire fixtures: app/codex_wire_contract.py, `canonical_sse_bytes`,
 `_parse_event_block` and `_parse_fixture_stream`.
 */
module Sse {
  import opened Bytes
  import opened JsonValues
  import CanonicalJson
  import Utf8

  const EVENT_TYPES: set<string> := {"response.output_item.done", "response.completed"}

  predicate IsEventType(kind: string) {
    kind in EVENT_TYPES
  }

  lemma TypesAreOneLine(kind: string)
    requires IsEventType(kind)
    ensures IsOneLine(kind)
  {
  }

  const BLANK_LINE := "\n\n"

  /** canonical_json as text; a string holding an unpaired surrogate equals no decoded text. */
  datatype Printed = Text(text: string) | Unencodable | Raises

  /** The library calls, canonical_json and json.loads; the parser catches a JSONDecodeError. */
  datatype Codec = Codec(canonical: Json -> Printed, load: string -> Loaded)

  predicate IsOneLine(s: string) {
    '\n' !in s && '\r' !in s
  }

  /** Loading canonical JSON gives the value back, and canonical JSON is one line. */
  ghost predicate IsFaithful(codec: Codec) {
    forall v :: codec.canonical(v).Text? ==>
      codec.load(codec.canonical(v).text) == Value(v) && IsOneLine(codec.canonical(v).text)
  }

  datatype Outcome<T> = Ok(value: T) | Rejected(code: string) | Crashed

  // ------------------------------------------------------------------- splitting text

  /** Where a separator occurs first. */
  function Find(s: string, sep: string): (at: Option<nat>)
    requires sep != ""
    ensures at.Some? ==> at.value + |sep| <= |s| && s[at.value..at.value + |sep|] == sep
  {
    if |s| < |sep| then None
    else if sep <= s then Some(0)
    else
      match Find(s[1..], sep)
      case None => None
      case Some(i) =>
        assert s[i + 1..i + 1 + |sep|] == s[1..][i..i + |sep|];
        Some(i + 1)
  }

  function Split(s: string, sep: string): (parts: seq<string>)
    requires sep != ""
    ensures parts != []
    decreases |s|
  {
    match Find(s, sep)
    case None => [s]
    case Some(i) => [s[..i]] + Split(s[i + |sep|..], sep)
  }

  function Join(parts: seq<string>, sep: string): (s: string)
    requires parts != []
  {
    if |parts| == 1 then parts[0] else parts[0] + sep + Join(parts[1..], sep)
  }

  lemma {:induction false} JoinSplit(s: string, sep: string)
    requires sep != ""
    ensures Join(Split(s, sep), sep) == s
    decreases |s|
  {
    if Find(s, sep).Some? {
      var i := Find(s, sep).value;
      var rest := s[i + |sep|..];
      JoinSplit(rest, sep);
      assert Split(s, sep)[1..] == Split(rest, sep);
      assert s == s[..i] + sep + rest;
    }
  }

  /** The first separator of `part + sep + rest` is the one after `part`. */
  ghost predicate Separates(part: string, sep: string)
    requires sep != ""
  {
    Find(part, sep) == None && forall rest: string :: Find(part + (sep + rest), sep) == Some(|part|)
  }

  lemma SplitAlone(part: string, sep: string)
    requires sep != "" && Separates(part, sep)
    ensures Split(part, sep) == [part]
  {
  }

  lemma {:induction false} Cut(part: string, sep: string, rest: string)
    ensures (part + (sep + rest))[..|part|] == part && (part + (sep + rest))[|part| + |sep|..] == rest
  {
  }

  lemma {:induction false} SplitFirst(s: string, sep: string, at: nat)
    requires sep != "" && Find(s, sep) == Some(at)
    ensures Split(s, sep) == [s[..at]] + Split(s[at + |sep|..], sep)
  {
    hide Find;
  }

  lemma FoundAfter(part: string, sep: string, rest: string)
    requires sep != "" && Separates(part, sep)
    ensures Find(part + (sep + rest), sep) == Some(|part|)
  {
  }

  lemma {:induction false} SplitStep(part: string, rest: string, sep: string)
    requires sep != "" && Separates(part, sep)
    ensures Split(part + (sep + rest), sep) == [part] + Split(rest, sep)
  {
    hide Find, Separates, Split;
    FoundAfter(part, sep, rest);
    SplitFirst(part + (sep + rest), sep, |part|);
    Cut(part, sep, rest);
  }

  lemma {:induction false} SplitJoin(parts: seq<string>, sep: string)
    requires sep != "" && parts != [] && forall i :: 0 <= i < |parts| ==> Separates(parts[i], sep)
    ensures Split(Join(parts, sep), sep) == parts
  {
    hide Separates, Split;
    if |parts| == 1 {
      SplitAlone(parts[0], sep);
    } else {
      var rest := Join(parts[1..], sep);
      SplitJoin(parts[1..], sep);
      SplitStep(parts[0], rest, sep);
      assert Join(parts, sep) == parts[0] + (sep + rest);
    }
  }

  lemma {:induction false} FindNewline(part: string, rest: string)
    requires '\n' !in part
    ensures Find(part, "\n") == None && Find(part + ("\n" + rest), "\n") == Some(|part|)
  {
    var s := part + ("\n" + rest);
    if part == "" {
      assert "\n" <= s;
    } else {
      assert part[0] in part;
      FindNewline(part[1..], rest);
      assert s[1..] == part[1..] + ("\n" + rest);
    }
  }

  /** No blank line inside, and no newline at the end that could start one. */
  predicate IsParagraph(part: string) {
    forall i :: 0 <= i < |part| && part[i] == '\n' ==> i + 1 < |part| && part[i + 1] != '\n'
  }

  lemma {:induction false} FindBlankLine(part: string, rest: string)
    requires IsParagraph(part)
    ensures Find(part, BLANK_LINE) == None && Find(part + (BLANK_LINE + rest), BLANK_LINE) == Some(|part|)
  {
    var s := part + (BLANK_LINE + rest);
    if part == "" {
      assert BLANK_LINE <= s;
    } else {
      assert s[1..] == part[1..] + (BLANK_LINE + rest);
      assert IsParagraph(part[1..]) by {
        assert forall i :: 0 <= i < |part[1..]| ==> part[1..][i] == part[i + 1];
      }
      FindBlankLine(part[1..], rest);
      assert !(BLANK_LINE <= s) by { assert s[0] == '\n' ==> s[1] == part[1]; }
      assert !(BLANK_LINE <= part);
    }
  }

  lemma ParagraphSeparates(part: string)
    requires IsParagraph(part)
    ensures Separates(part, BLANK_LINE)
  {
    FindBlankLine(part, "");
    forall rest: string ensures Find(part + (BLANK_LINE + rest), BLANK_LINE) == Some(|part|) {
      FindBlankLine(part, rest);
    }
  }

  lemma LineSeparates(line: string)
    requires '\n' !in line
    ensures Separates(line, "\n")
  {
    FindNewline(line, "");
    forall rest: string ensures Find(line + ("\n" + rest), "\n") == Some(|line|) {
      FindNewline(line, rest);
    }
  }

  // ------------------------------------------------------------------ printing events

  function TypeOf(event: Json): (kind: Option<string>) {
    if event.JObj? && "type" in event.fields && event.fields["type"].JStr? then Some(event.fields["type"].text)
    else None
  }

  function Block(kind: string, json: string): (block: string) {
    "event: " + kind + "\n" + ("data: " + json)
  }

  /** The text canonical_sse_bytes encodes for events with a type and canonical JSON. */
  function PrintStream(codec: Codec, events: seq<Json>): (text: Option<string>) {
    if events == [] then Some("")
    else
      var event, rest := events[0], PrintStream(codec, events[1..]);
      if TypeOf(event).Some? && codec.canonical(event).Text? && rest.Some? then
        Some(Block(TypeOf(event).value, codec.canonical(event).text) + BLANK_LINE + rest.value)
      else None
  }

  // ------------------------------------------------------------------- parsing events

  const EVENT_FIELD := "event: "
  const DATA_FIELD := "data: "

  function ParseBlock(codec: Codec, block: string): (r: Outcome<Json>) {
    var lines := Split(block, "\n");
    if |lines| != 2 || !(EVENT_FIELD <= lines[0]) || !(DATA_FIELD <= lines[1]) then
      Rejected("codex_wire_frame_schema_invalid")
    else
      var kind, json := lines[0][7..], lines[1][6..];
      if !IsEventType(kind) then Rejected("codex_wire_event_policy_violation")
      else
        match codec.load(json)
        case Malformed => Rejected("codex_wire_frame_json_invalid")
        case Escapes => Crashed
        case Value(value) =>
          if TypeOf(value) != Some(kind) then Rejected("codex_wire_frame_schema_invalid")
          else
            match codec.canonical(value)
            case Raises => Crashed
            case Unencodable => Rejected("codex_wire_frame_schema_invalid")
            case Text(again) => if again == json then Ok(value) else Rejected("codex_wire_frame_schema_invalid")
  }

  /** The first block that is not parsed decides. */
  function ParseBlocks(codec: Codec, blocks: seq<string>): (r: Outcome<seq<Json>>) {
    if blocks == [] then Ok([])
    else
      match ParseBlock(codec, blocks[0])
      case Rejected(code) => Rejected(code)
      case Crashed => Crashed
      case Ok(event) =>
        match ParseBlocks(codec, blocks[1..])
        case Ok(rest) => Ok([event] + rest)
        case other => other
  }

  function Types(events: seq<Json>): (kinds: seq<Option<string>>) {
    seq(|events|, i requires 0 <= i < |events| => TypeOf(events[i]))
  }

  /**
   The stream parser: `order` is the expected order of types, and `differs` is the comparison
   with the expected events, None when Python finds them equal.
   */
  function ParseStream(codec: Codec, text: string, order: seq<string>, differs: seq<Json> -> Option<string>)
    : (r: Outcome<seq<Json>>)
  {
    if '\r' in text then Rejected("codex_wire_frame_newline_invalid")
    else if |text| < 2 || text[|text| - 2..] != BLANK_LINE then Rejected("codex_wire_frame_incomplete")
    else
      var blocks := Split(text[..|text| - 2], BLANK_LINE);
      if |blocks| != |order| then Rejected("codex_wire_frame_count_invalid")
      else
        match ParseBlocks(codec, blocks)
        case Rejected(code) => Rejected(code)
        case Crashed => Crashed
        case Ok(events) =>
          if Types(events) != seq(|order|, i requires 0 <= i < |order| => Some(order[i])) then
            Rejected("codex_wire_event_order_invalid")
          else
            match differs(events)
            case Some(code) => Rejected(code)
            case None => Ok(events)
  }

  // --------------------------------------------------------------------- the two laws

  ghost predicate IsEvent(codec: Codec, event: Json) {
    TypeOf(event).Some? && IsEventType(TypeOf(event).value) && codec.canonical(event).Text?
  }

  function BlockOf(codec: Codec, event: Json): (block: string)
    requires TypeOf(event).Some? && codec.canonical(event).Text?
  {
    Block(TypeOf(event).value, codec.canonical(event).text)
  }

  /** A block is parsed exactly when it is the block of an event of an allowed type. */
  lemma ParseBlockIff(codec: Codec, block: string, event: Json)
    requires IsFaithful(codec)
    ensures ParseBlock(codec, block) == Ok(event) <==> IsEvent(codec, event) && block == BlockOf(codec, event)
  {
    if ParseBlock(codec, block) == Ok(event) {
      var lines := Split(block, "\n");
      JoinSplit(block, "\n");
      assert lines[0] == EVENT_FIELD + lines[0][7..] && lines[1] == DATA_FIELD + lines[1][6..];
      assert Join(lines, "\n") == lines[0] + "\n" + Join(lines[1..], "\n");
    }
    if IsEvent(codec, event) && block == BlockOf(codec, event) {
      ParseOwnBlock(codec, event);
    }
  }

  lemma ParseOwnBlock(codec: Codec, event: Json)
    requires IsFaithful(codec) && IsEvent(codec, event)
    ensures ParseBlock(codec, BlockOf(codec, event)) == Ok(event)
  {
    var kind, json := TypeOf(event).value, codec.canonical(event).text;
    TypesAreOneLine(kind);
    hide IsEventType;
    SplitOwnBlock(kind, json);
    hide Split;
    assert (EVENT_FIELD + kind)[7..] == kind && (DATA_FIELD + json)[6..] == json;
  }

  lemma SplitOwnBlock(kind: string, json: string)
    requires '\n' !in kind && '\n' !in json
    ensures Split(Block(kind, json), "\n") == [EVENT_FIELD + kind, DATA_FIELD + json]
  {
    var lines := [EVENT_FIELD + kind, DATA_FIELD + json];
    LineSeparates(lines[0]);
    LineSeparates(lines[1]);
    SplitJoin(lines, "\n");
    hide Split, Separates;
    assert Join(lines, "\n") == lines[0] + "\n" + Join(lines[1..], "\n");
    assert Block(kind, json) == Join(lines, "\n");
  }

  lemma BlockIsParagraph(kind: string, json: string)
    requires '\n' !in kind && '\n' !in json
    ensures IsParagraph(Block(kind, json))
  {
    var head, data := EVENT_FIELD + kind, DATA_FIELD + json;
    var block := Block(kind, json);
    assert block == head + "\n" + data;
    assert forall i :: 0 <= i < |head| ==> block[i] == head[i] && head[i] in head;
    assert forall i :: |head| < i < |block| ==> block[i] == data[i - |head| - 1] && data[i - |head| - 1] in data;
    assert '\n' !in head && '\n' !in data;
    assert block[|head| + 1] == data[0] == 'd';
  }

  function Blocks(codec: Codec, events: seq<Json>): (blocks: seq<string>)
    requires forall i :: 0 <= i < |events| ==> TypeOf(events[i]).Some? && codec.canonical(events[i]).Text?
  {
    seq(|events|, i requires 0 <= i < |events| => BlockOf(codec, events[i]))
  }

  /** Printing joins the blocks with blank lines and adds one at the end. */
  lemma {:induction false} PrintJoins(codec: Codec, events: seq<Json>)
    requires events != []
    requires forall i :: 0 <= i < |events| ==> TypeOf(events[i]).Some? && codec.canonical(events[i]).Text?
    ensures PrintStream(codec, events) == Some(Join(Blocks(codec, events), BLANK_LINE) + BLANK_LINE)
  {
    var blocks := Blocks(codec, events);
    var block, text := blocks[0], PrintStream(codec, events[1..]);
    assert PrintStream(codec, events) == if text.Some? then Some(block + BLANK_LINE + text.value) else None;
    if |events| == 1 {
      assert block + BLANK_LINE + "" == block + BLANK_LINE;
    } else {
      PrintJoins(codec, events[1..]);
      assert blocks[1..] == Blocks(codec, events[1..]);
      hide PrintStream, Blocks, BlockOf;
      var joined := Join(blocks[1..], BLANK_LINE);
      assert block + BLANK_LINE + (joined + BLANK_LINE) == (block + BLANK_LINE + joined) + BLANK_LINE;
    }
  }

  /** These are the blocks of these events, which all have an allowed type. */
  ghost predicate AreBlocksOf(codec: Codec, blocks: seq<string>, events: seq<Json>) {
    && |blocks| == |events|
    && forall i :: 0 <= i < |events| ==> IsEvent(codec, events[i]) && blocks[i] == BlockOf(codec, events[i])
  }

  lemma BlocksStep(codec: Codec, blocks: seq<string>, events: seq<Json>)
    ensures blocks != [] && events != [] ==>
              (AreBlocksOf(codec, blocks, events) <==>
                IsEvent(codec, events[0]) && blocks[0] == BlockOf(codec, events[0])
                && AreBlocksOf(codec, blocks[1..], events[1..]))
  {
    hide IsEvent, BlockOf;
    if blocks != [] && events != [] && |blocks| == |events| {
      assert forall i :: 0 < i < |events| ==> events[i] == events[1..][i - 1] && blocks[i] == blocks[1..][i - 1];
      assert forall i :: 0 <= i < |events[1..]| ==> events[1..][i] == events[i + 1] && blocks[1..][i] == blocks[i + 1];
    }
  }

  lemma {:induction false} ParseBlocksIff(codec: Codec, blocks: seq<string>, events: seq<Json>)
    requires IsFaithful(codec)
    ensures ParseBlocks(codec, blocks) == Ok(events) <==> AreBlocksOf(codec, blocks, events)
  {
    if blocks != [] && events != [] {
      ParseBlockIff(codec, blocks[0], events[0]);
      ParseBlocksIff(codec, blocks[1..], events[1..]);
      BlocksStep(codec, blocks, events);
      hide ParseBlock, AreBlocksOf, IsEvent, BlockOf, IsFaithful;
      assert events == [events[0]] + events[1..];
    }
  }

  /** Every accepted stream prints to its own text again. */
  lemma AcceptedReprints(codec: Codec, text: string, order: seq<string>, differs: seq<Json> -> Option<string>)
    requires IsFaithful(codec) && ParseStream(codec, text, order, differs).Ok?
    ensures PrintStream(codec, ParseStream(codec, text, order, differs).value) == Some(text)
  {
    hide Split, ParseBlocks, Join, PrintStream, IsFaithful;
    var body := text[..|text| - 2];
    var events := ParseStream(codec, text, order, differs).value;
    var blocks := Split(body, BLANK_LINE);
    hide ParseStream;
    ParseBlocksIff(codec, blocks, events);
    JoinSplit(body, BLANK_LINE);
    PrintJoins(codec, events);
    assert blocks == Blocks(codec, events);
    assert text == body + BLANK_LINE;
  }

  /** Any events of the allowed types are found again in their printed text; no events print nothing. */
  lemma PrintedParses(codec: Codec, events: seq<Json>)
    requires IsFaithful(codec) && forall i :: 0 <= i < |events| ==> IsEvent(codec, events[i])
    ensures PrintStream(codec, events).Some?
    ensures events == [] ==> PrintStream(codec, events).value == ""
    ensures var text := PrintStream(codec, events).value;
            events != [] ==>
              && '\r' !in text && |text| >= 2 && text[|text| - 2..] == BLANK_LINE
              && ParseBlocks(codec, Split(text[..|text| - 2], BLANK_LINE)) == Ok(events)
  {
    if events != [] {
      PrintedEventsParse(codec, events);
    }
  }

  lemma PrintedEventsParse(codec: Codec, events: seq<Json>)
    requires IsFaithful(codec) && events != [] && forall i :: 0 <= i < |events| ==> IsEvent(codec, events[i])
    ensures PrintStream(codec, events).Some?
    ensures var text := PrintStream(codec, events).value;
            && '\r' !in text && |text| >= 2 && text[|text| - 2..] == BLANK_LINE
            && ParseBlocks(codec, Split(text[..|text| - 2], BLANK_LINE)) == Ok(events)
  {
    var blocks := Blocks(codec, events);
    PrintJoins(codec, events);
    forall i | 0 <= i < |blocks| ensures Separates(blocks[i], BLANK_LINE) && '\r' !in blocks[i] {
      EventBlock(codec, events[i]);
    }
    ParseBlocksIff(codec, blocks, events);
    hide ParseBlocks, PrintStream, Separates, Split, IsEvent, IsFaithful, BlockOf;
    SplitJoin(blocks, BLANK_LINE);
    JoinHasNoReturn(blocks);
    var body := Join(blocks, BLANK_LINE);
    assert (body + BLANK_LINE)[..|body|] == body;
  }

  /**
   With its own types as the expected order, only the comparison with the expected events decides
   on a printed stream; the empty one is incomplete.
   */
  lemma PrintedStreamParses(codec: Codec, events: seq<Json>, order: seq<string>, differs: seq<Json> -> Option<string>)
    requires IsFaithful(codec) && forall i :: 0 <= i < |events| ==> IsEvent(codec, events[i])
    requires |order| == |events| && forall i :: 0 <= i < |events| ==> TypeOf(events[i]) == Some(order[i])
    ensures PrintStream(codec, events).Some?
    ensures ParseStream(codec, PrintStream(codec, events).value, order, differs) ==
            if events == [] then Rejected("codex_wire_frame_incomplete")
            else match differs(events) { case None => Ok(events) case Some(code) => Rejected(code) }
  {
    PrintedParses(codec, events);
    if events != [] {
      hide PrintStream, Split, ParseBlocks, IsFaithful, TypeOf;
      assert Types(events) == seq(|order|, i requires 0 <= i < |order| => Some(order[i]));
      var text := PrintStream(codec, events).value;
      ParseBlocksIff(codec, Split(text[..|text| - 2], BLANK_LINE), events);
    }
  }

  lemma EventBlock(codec: Codec, event: Json)
    requires IsFaithful(codec) && IsEvent(codec, event)
    ensures Separates(BlockOf(codec, event), BLANK_LINE) && '\r' !in BlockOf(codec, event)
  {
    var kind, json := TypeOf(event).value, codec.canonical(event).text;
    TypesAreOneLine(kind);
    hide IsEventType;
    BlockIsParagraph(kind, json);
    hide IsParagraph;
    ParagraphSeparates(Block(kind, json));
    hide Separates;
    BlockHasNoReturn(kind, json);
  }

  lemma BlockHasNoReturn(kind: string, json: string)
    requires '\r' !in kind && '\r' !in json
    ensures '\r' !in Block(kind, json)
  {
    assert '\r' !in EVENT_FIELD && '\r' !in "\n" && '\r' !in DATA_FIELD;
    assert Block(kind, json) == EVENT_FIELD + kind + "\n" + (DATA_FIELD + json);
  }

  lemma {:induction false} JoinHasNoReturn(parts: seq<string>)
    requires parts != [] && forall i :: 0 <= i < |parts| ==> '\r' !in parts[i]
    ensures '\r' !in Join(parts, BLANK_LINE)
  {
    if |parts| > 1 {
      JoinHasNoReturn(parts[1..]);
    }
  }

  // ------------------------------------------------------------------------- octets

  /** What the stream parser is given: octets, a string, or something else. */
  datatype Raw = Octets(octets: seq<byte>) | Str(text: string) | IllFormedStr | OtherType

  function OctetsOf(text: string): (octets: seq<byte>) {
    Utf8.EncodeAll(CanonicalJson.Scalars(text))
  }

  function ParseOctets(codec: Codec, octets: seq<byte>, order: seq<string>, differs: seq<Json> -> Option<string>)
    : (r: Outcome<seq<Json>>)
  {
    if !Utf8.WellFormed(octets) then Rejected("codex_wire_frame_invalid_utf8")
    else ParseStream(codec, CanonicalJson.Chars(Utf8.Decode(octets)), order, differs)
  }

  /** `_parse_fixture_stream`; a string with an unpaired surrogate has no strict encoding. */
  function ParseRaw(codec: Codec, raw: Raw, order: seq<string>, differs: seq<Json> -> Option<string>)
    : (r: Outcome<seq<Json>>)
  {
    match raw
    case Octets(octets) => ParseOctets(codec, octets, order, differs)
    case Str(text) => ParseOctets(codec, OctetsOf(text), order, differs)
    case IllFormedStr => Crashed
    case OtherType => Rejected("codex_wire_frame_invalid")
  }

  /** `canonical_sse_bytes`, None where it raises. */
  function PrintOctets(codec: Codec, events: seq<Json>): (octets: Option<seq<byte>>) {
    match PrintStream(codec, events)
    case None => None
    case Some(text) => Some(OctetsOf(text))
  }

  lemma TextOctets(text: string)
    ensures Utf8.WellFormed(OctetsOf(text)) && CanonicalJson.Chars(Utf8.Decode(OctetsOf(text))) == text
  {
    Utf8.EncodeAllRoundTrips(CanonicalJson.Scalars(text));
  }

  lemma OctetsText(octets: seq<byte>)
    requires Utf8.WellFormed(octets)
    ensures OctetsOf(CanonicalJson.Chars(Utf8.Decode(octets))) == octets
  {
    Utf8.DecodeRoundTrips(octets);
    assert CanonicalJson.Scalars(CanonicalJson.Chars(Utf8.Decode(octets))) == Utf8.Decode(octets);
  }

  /** Every accepted stream prints to its own octets again: the canonical bytes stored are the ones received. */
  lemma AcceptedOctetsReprint(codec: Codec, raw: Raw, order: seq<string>, differs: seq<Json> -> Option<string>)
    requires IsFaithful(codec) && ParseRaw(codec, raw, order, differs).Ok?
    ensures raw.Octets? || raw.Str?
    ensures PrintOctets(codec, ParseRaw(codec, raw, order, differs).value) ==
              Some(if raw.Octets? then raw.octets else OctetsOf(raw.text))
  {
    var octets := if raw.Octets? then raw.octets else OctetsOf(raw.text);
    OctetsText(octets);
    hide ParseStream, PrintStream, IsFaithful, Utf8.WellFormed, Utf8.Decode, OctetsOf, CanonicalJson.Chars;
    AcceptedReprints(codec, CanonicalJson.Chars(Utf8.Decode(octets)), order, differs);
  }

  /** Printed octets parse with the same outcome as their text, whichever way they are given. */
  lemma PrintedOctetsParse(codec: Codec, events: seq<Json>, order: seq<string>, differs: seq<Json> -> Option<string>)
    requires IsFaithful(codec) && forall i :: 0 <= i < |events| ==> IsEvent(codec, events[i])
    requires |order| == |events| && forall i :: 0 <= i < |events| ==> TypeOf(events[i]) == Some(order[i])
    ensures PrintOctets(codec, events).Some? && PrintStream(codec, events).Some?
    ensures var octets, text := PrintOctets(codec, events).value, PrintStream(codec, events).value;
            ParseRaw(codec, Octets(octets), order, differs) == ParseRaw(codec, Str(text), order, differs) ==
            if events == [] then Rejected("codex_wire_frame_incomplete")
            else match differs(events) { case None => Ok(events) case Some(code) => Rejected(code) }
  {
    PrintedStreamParses(codec, events, order, differs);
    TextOctets(PrintStream(codec, events).value);
    hide ParseStream, PrintStream, IsFaithful, IsEvent, Utf8.WellFormed, Utf8.Decode, OctetsOf, CanonicalJson.Chars;
  }

  // ------------------------------------------------------------------------- crashes

  /** A block for which the parser meets an error that is no contract error. */
  ghost predicate CrashesParser(codec: Codec, kind: string, json: string) {
    IsEventType(kind) &&
    match codec.load(json)
    case Malformed => false
    case Escapes => true
    case Value(value) => TypeOf(value) == Some(kind) && codec.canonical(value) == Raises
  }

  /** Parsing a block crashes exactly when its data do: json.loads or canonical_json raises past the handler. */
  lemma ParseBlockCrashesIff(codec: Codec, block: string)
    ensures ParseBlock(codec, block) == Crashed <==>
              exists kind, json ::
                block == Block(kind, json) && '\n' !in json && CrashesParser(codec, kind, json)
  {
    if ParseBlock(codec, block) == Crashed {
      var lines := Split(block, "\n");
      TwoLines(block, lines);
      assert CrashesParser(codec, lines[0][7..], lines[1][6..]);
    }
    if kind, json :| block == Block(kind, json) && '\n' !in json && CrashesParser(codec, kind, json) {
      CrashBlock(codec, kind, json);
    }
  }

  lemma TwoLines(block: string, lines: seq<string>)
    requires lines == Split(block, "\n") && |lines| == 2 && EVENT_FIELD <= lines[0] && DATA_FIELD <= lines[1]
    ensures block == Block(lines[0][7..], lines[1][6..]) && '\n' !in lines[1][6..]
  {
    JoinSplit(block, "\n");
    SplitHasNone(block);
    hide Split;
    assert lines[0] == EVENT_FIELD + lines[0][7..] && lines[1] == DATA_FIELD + lines[1][6..];
    assert Join(lines, "\n") == lines[0] + "\n" + Join(lines[1..], "\n");
    assert forall i :: 0 <= i < |lines[1][6..]| ==> lines[1][6..][i] == lines[1][i + 6];
  }

  lemma CrashBlock(codec: Codec, kind: string, json: string)
    requires '\n' !in json && CrashesParser(codec, kind, json)
    ensures ParseBlock(codec, Block(kind, json)) == Crashed
  {
    TypesAreOneLine(kind);
    hide IsEventType;
    SplitOwnBlock(kind, json);
    hide Split;
    assert (EVENT_FIELD + kind)[7..] == kind && (DATA_FIELD + json)[6..] == json;
  }

  lemma {:induction false} NoneBefore(s: string)
    ensures Find(s, "\n").None? ==> '\n' !in s
    ensures Find(s, "\n").Some? ==> '\n' !in s[..Find(s, "\n").value]
  {
    if s != "" {
      NoneBefore(s[1..]);
      if !("\n" <= s) {
        assert s[0] != '\n';
        if Find(s[1..], "\n").Some? {
          var i := Find(s[1..], "\n").value;
          assert s[..i + 1] == [s[0]] + s[1..][..i];
        } else {
          assert s == [s[0]] + s[1..];
        }
      }
    }
  }

  /** The lines of a text hold no newline. */
  lemma {:induction false} SplitHasNone(s: string)
    ensures forall i :: 0 <= i < |Split(s, "\n")| ==> '\n' !in Split(s, "\n")[i]
    decreases |s|
  {
    NoneBefore(s);
    if Find(s, "\n").Some? {
      SplitHasNone(s[Find(s, "\n").value + 1..]);
    }
  }

  /** The codec of the modelled canonical JSON. */
  ghost function PlainCodec(): (codec: Codec) {
    Codec((v: Json) => if CanonicalJson.IsPlain(v) then Text(CanonicalJson.Print(v)) else Unencodable,
          (text: string) =>
            match CanonicalJson.Read(text) { case Some(v) => Value(v) case None => Malformed })
  }

  lemma PlainCodecIsFaithful()
    ensures IsFaithful(PlainCodec())
  {
    forall v: Json | CanonicalJson.IsPlain(v)
      ensures CanonicalJson.Read(CanonicalJson.Print(v)) == Some(v) && IsOneLine(CanonicalJson.Print(v))
    {
      CanonicalJson.ReadPrint(v);
      CanonicalJson.PrintPrintable(v);
    }
  }
}
