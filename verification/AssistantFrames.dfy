/** The assistant's event stream: cutting text into frames as it arrives, and delivering their events. */
module AssistantFrames {
  import opened Sequences
  import opened Wrappers

  /** A UTF-16 code unit: what text length counts. */
  newtype CodeUnit = x: int | 0 <= x < 0x1_0000

  type Text = seq<CodeUnit>

  const CR: CodeUnit := 13
  const LF: CodeUnit := 10
  const MAX_INPUT := 0x10_0000
  const MAX_EVENTS := 10000

  // --- frames ---

  /** The length of a line break at the start of the text; zero if there is none. */
  function BreakAt(text: Text): (n: nat)
    ensures n <= |text|
  {
    if |text| >= 1 && text[0] == LF then 1
    else if |text| >= 2 && text[0] == CR && text[1] == LF then 2
    else 0
  }

  /** The length of a frame separator, two line breaks, at the start of the text; zero if there is none. */
  function SeparatorAt(text: Text): (n: nat)
    ensures n <= |text|
  {
    var first := BreakAt(text);
    if first == 0 || BreakAt(text[first..]) == 0 then 0 else first + BreakAt(text[first..])
  }

  /** The length of a separator at a position. */
  function SeparatorFrom(text: Text, k: nat): (n: nat)
    requires k <= |text|
    ensures k + n <= |text|
  {
    SeparatorAt(text[k..])
  }

  /** Where the first separator starts, or the length of the text. */
  function Leftmost(text: Text): (i: nat)
    ensures i <= |text|
    ensures i < |text| ==> SeparatorFrom(text, i) > 0
    ensures forall k :: 0 <= k < i ==> SeparatorFrom(text, k) == 0
    decreases |text|
  {
    assert text[0..] == text;
    if text == [] || SeparatorAt(text) > 0 then 0
    else
      var more := Leftmost(text[1..]);
      assert forall k :: 0 < k <= |text| ==> text[k..] == text[1..][k - 1..];
      assert forall k :: 0 < k <= |text| ==> SeparatorFrom(text, k) == SeparatorFrom(text[1..], k - 1);
      1 + more
  }

  datatype Cut = Cut(frames: seq<Text>, rest: Text)

  /** All complete frames, and what follows the last separator. */
  function Split(text: Text): (cut: Cut)
    ensures |cut.rest| <= |text|
    decreases |text|
  {
    var i := Leftmost(text);
    if i == |text| then Cut([], text) else Under(text[..i], Split(text[i + SeparatorFrom(text, i)..]))
  }

  function Under(frame: Text, cut: Cut): Cut {
    Cut([frame] + cut.frames, cut.rest)
  }

  lemma LeftmostIs(text: Text, i: nat)
    requires i < |text| && SeparatorFrom(text, i) > 0
    requires forall k :: 0 <= k < i ==> SeparatorFrom(text, k) == 0
    ensures Leftmost(text) == i
  {
  }

  /** A separator found stays the first one, whatever arrives later: no earlier one can complete. */
  lemma LeftmostStays(a: Text, b: Text)
    requires Leftmost(a) < |a|
    ensures Leftmost(a + b) == Leftmost(a)
    ensures SeparatorFrom(a + b, Leftmost(a)) == SeparatorFrom(a, Leftmost(a))
  {
    hide Leftmost, SeparatorAt;
    var i := Leftmost(a);
    forall k | 0 <= k < i
      ensures SeparatorFrom(a + b, k) == 0
    {
      assert SeparatorFrom(a, k) == 0;
      assert (a + b)[k..] == a[k..] + b;
      assert a[k..][i - k..] == a[i..];
      SeparatorSettled(a[k..], b, i - k);
    }
    assert (a + b)[i..] == a[i..] + b;
    SeparatorGrows(a[i..], b);
    LeftmostIs(a + b, i);
  }

  lemma SeparatorGrows(a: Text, b: Text)
    requires SeparatorAt(a) > 0
    ensures SeparatorAt(a + b) == SeparatorAt(a)
  {
  }

  lemma SeparatorSettled(a: Text, b: Text, i: nat)
    requires 0 < i < |a| && SeparatorAt(a) == 0 && SeparatorAt(a[i..]) > 0
    ensures SeparatorAt(a + b) == 0
  {
  }

  /** Splitting text that arrives in two parts: split the first, keep the rest, go on. */
  lemma {:induction false} SplitInParts(a: Text, b: Text)
    ensures Split(a + b) == Cut(Split(a).frames + Split(Split(a).rest + b).frames, Split(Split(a).rest + b).rest)
    decreases |a|
  {
    hide Leftmost, SeparatorFrom;
    var i := Leftmost(a);
    if i == |a| {
      assert [] + Split(a + b).frames == Split(a + b).frames;
    } else {
      LeftmostStays(a, b);
      var n := SeparatorFrom(a, i);
      var tail := a[i + n..];
      assert (a + b)[i + n..] == tail + b;
      assert (a + b)[..i] == a[..i];
      SplitInParts(tail, b);
      Associate([a[..i]], Split(tail).frames, Split(Split(tail).rest + b).frames);
    }
  }

  function Concat(chunks: seq<Text>): Text {
    if chunks == [] then [] else chunks[0] + Concat(chunks[1..])
  }

  /** Feeding chunks one after the other, keeping the rest. */
  function Feed(rest: Text, chunks: seq<Text>): Cut
    decreases |chunks|
  {
    if chunks == [] then Cut([], rest)
    else
      var cut := Split(rest + chunks[0]);
      var more := Feed(cut.rest, chunks[1..]);
      Cut(cut.frames + more.frames, more.rest)
  }

  lemma {:induction false} RestIsWhole(text: Text)
    ensures Split(Split(text).rest) == Cut([], Split(text).rest)
    decreases |text|
  {
    hide Leftmost, SeparatorFrom;
    var i := Leftmost(text);
    if i < |text| {
      RestIsWhole(text[i + SeparatorFrom(text, i)..]);
    }
  }

  /** However the text is cut into chunks, the frames and the remainder are those of splitting it once. */
  lemma {:induction false} ChunkingDoesNotMatter(rest: Text, chunks: seq<Text>)
    requires Split(rest) == Cut([], rest)
    ensures Feed(rest, chunks) == Split(rest + Concat(chunks))
    decreases |chunks|
  {
    hide Split;
    if chunks == [] {
      assert rest + [] == rest;
    } else {
      var text := rest + chunks[0];
      RestIsWhole(text);
      ChunkingDoesNotMatter(Split(text).rest, chunks[1..]);
      SplitInParts(text, Concat(chunks[1..]));
      assert text + Concat(chunks[1..]) == rest + Concat(chunks);
    }
  }

  /** The frames, each followed by its separator, and then the rest. */
  function Glued(frames: seq<Text>, separators: seq<Text>, rest: Text): Text
    requires |frames| == |separators|
  {
    if frames == [] then rest else frames[0] + separators[0] + Glued(frames[1..], separators[1..], rest)
  }

  /** A separator, and none that starts earlier in the frame before it. */
  ghost predicate EndsFrame(frame: Text, separator: Text) {
    separator != [] && SeparatorAt(separator) == |separator| && Leftmost(frame + separator) == |frame|
  }

  /** Splitting cuts a text exactly at its separators, from the left: the frames and separators make up the text, no
      separator starts inside a frame, and none is left in the rest. */
  lemma {:induction false} SplitCuts(text: Text) returns (separators: seq<Text>)
    ensures |separators| == |Split(text).frames| && text == Glued(Split(text).frames, separators, Split(text).rest)
    ensures forall i :: 0 <= i < |separators| ==> EndsFrame(Split(text).frames[i], separators[i])
    ensures Leftmost(Split(text).rest) == |Split(text).rest|
    decreases |text|
  {
    hide Leftmost, SeparatorAt;
    var i := Leftmost(text);
    if i == |text| {
      separators := [];
    } else {
      var n := SeparatorFrom(text, i);
      var more := SplitCuts(text[i + n..]);
      separators := [text[i..i + n]] + more;
      assert text == text[..i] + text[i..i + n] + text[i + n..];
      FrameCut(text, i, n);
      assert Split(text).frames[1..] == Split(text[i + n..]).frames && separators[1..] == more;
    }
  }

  lemma FrameCut(text: Text, i: nat, n: nat)
    requires i == Leftmost(text) < |text| && n == SeparatorFrom(text, i)
    ensures EndsFrame(text[..i], text[i..i + n])
  {
    hide Leftmost, SeparatorAt;
    var frame, separator := text[..i], text[i..i + n];
    assert text[i..][..n] == separator;
    SeparatorAlone(text[i..]);
    var alone := frame + separator;
    assert alone[i..] == separator && alone == text[..i + n];
    forall k | 0 <= k < i
      ensures SeparatorFrom(alone, k) == 0
    {
      assert SeparatorFrom(text, k) == 0;
      assert text[k..] == alone[k..] + text[i + n..];
      if SeparatorAt(alone[k..]) > 0 {
        SeparatorGrows(alone[k..], text[i + n..]);
      }
    }
    LeftmostIs(alone, i);
  }

  lemma SeparatorAlone(text: Text)
    requires SeparatorAt(text) > 0
    ensures SeparatorAt(text[..SeparatorAt(text)]) == SeparatorAt(text)
  {
  }

  // --- the data of a frame ---

  function Lines(text: Text, line: Text): seq<Text>
    decreases |text|
  {
    if text == [] then [line]
    else if BreakAt(text) > 0 then [line] + Lines(text[BreakAt(text)..], [])
    else Lines(text[1..], line + [text[0]])
  }

  predicate IsSpace(u: CodeUnit) {
    || 9 <= u <= 13 || u == 0x20 || u == 0xA0 || u == 0x1680 || 0x2000 <= u <= 0x200A
    || u == 0x2028 || u == 0x2029 || u == 0x202F || u == 0x205F || u == 0x3000 || u == 0xFEFF
  }

  function TrimStart(text: Text): Text {
    if text != [] && IsSpace(text[0]) then TrimStart(text[1..]) else text
  }

  /** "data:" */
  const FIELD: Text := [100, 97, 116, 97, 58]

  /** "[DONE]" */
  const DONE: Text := [91, 68, 79, 78, 69, 93]

  function DataLines(lines: seq<Text>): seq<Text> {
    if lines == [] then []
    else (if FIELD <= lines[0] then [TrimStart(lines[0][5..])] else []) + DataLines(lines[1..])
  }

  function Join(lines: seq<Text>): Text {
    if lines == [] then [] else if |lines| == 1 then lines[0] else lines[0] + [LF] + Join(lines[1..])
  }

  function Data(frame: Text): Text {
    Join(DataLines(Lines(frame, [])))
  }

  // --- what a frame says, on text as a server writes it ---

  /** A line that carries data after some white space, or any other line. */
  datatype Line = DataLine(space: Text, payload: Text) | OtherLine(text: Text)

  function Written(line: Line): Text {
    match line
    case DataLine(space, payload) => FIELD + space + payload
    case OtherLine(text) => text
  }

  /** No line feed inside and no carriage return at the end; the payload starts after the white space, and other
      lines do not start like a data line. */
  predicate Proper(line: Line) {
    && OneLine(Written(line))
    && match line
       case DataLine(space, payload) =>
         (forall i :: 0 <= i < |space| ==> IsSpace(space[i])) && (payload != [] ==> !IsSpace(payload[0]))
       case OtherLine(text) => !(FIELD <= text)
  }

  predicate OneLine(text: Text) {
    LF !in text && (text != [] ==> text[|text| - 1] != CR)
  }

  /** Lines with a line feed, or carriage return and line feed, after each but the last. */
  function FrameText(lines: seq<Line>, breaks: seq<Text>): Text
    requires |lines| == |breaks| + 1
  {
    if breaks == [] then Written(lines[0]) else Written(lines[0]) + breaks[0] + FrameText(lines[1..], breaks[1..])
  }

  predicate Breaks(breaks: seq<Text>) {
    forall i :: 0 <= i < |breaks| ==> breaks[i] == [LF] || breaks[i] == [CR, LF]
  }

  function Payloads(lines: seq<Line>): seq<Text> {
    if lines == [] then []
    else (if lines[0].DataLine? then [lines[0].payload] else []) + Payloads(lines[1..])
  }

  function AllWritten(lines: seq<Line>): (r: seq<Text>)
    ensures |r| == |lines| && forall i :: 0 <= i < |r| ==> r[i] == Written(lines[i])
  {
    seq(|lines|, i requires 0 <= i < |lines| => Written(lines[i]))
  }

  /** A line, up to its end or its break. */
  lemma {:induction false} LastLine(text: Text, line: Text)
    requires OneLine(text)
    ensures Lines(text, line) == [line + text]
    decreases |text|
  {
    if text == [] {
      assert line + [] == line;
    } else {
      assert BreakAt(text) == 0;
      assert line + text == line + [text[0]] + text[1..];
      LastLine(text[1..], line + [text[0]]);
    }
  }

  lemma {:induction false} LineBeforeBreak(text: Text, line: Text, end: Text, more: Text)
    requires OneLine(text) && (end == [LF] || end == [CR, LF])
    ensures Lines(text + end + more, line) == [line + text] + Lines(more, [])
    decreases |text|
  {
    var all := text + end + more;
    if text == [] {
      assert all == end + more && all[|end|..] == more && line + [] == line;
      assert BreakAt(all) == |end|;
    } else {
      assert all[0] == text[0] && all[1..] == text[1..] + end + more;
      assert |text| > 1 ==> all[1] == text[1];
      assert BreakAt(all) == 0;
      assert line + text == line + [text[0]] + text[1..];
      LineBeforeBreak(text[1..], line + [text[0]], end, more);
    }
  }

  /** Cutting a frame into lines gives the lines it was written from. */
  lemma {:induction false} LinesOfFrame(lines: seq<Line>, breaks: seq<Text>)
    requires |lines| == |breaks| + 1 && Breaks(breaks) && forall i :: 0 <= i < |lines| ==> Proper(lines[i])
    ensures Lines(FrameText(lines, breaks), []) == AllWritten(lines)
    decreases |lines|
  {
    hide Lines, OneLine, Written;
    var first := Written(lines[0]);
    assert [] + first == first;
    if breaks == [] {
      LastLine(first, []);
    } else {
      LinesOfFrame(lines[1..], breaks[1..]);
      LineBeforeBreak(first, [], breaks[0], FrameText(lines[1..], breaks[1..]));
      assert AllWritten(lines) == [first] + AllWritten(lines[1..]);
    }
  }

  lemma {:induction false} TrimStartIs(space: Text, payload: Text)
    requires forall i :: 0 <= i < |space| ==> IsSpace(space[i])
    requires payload != [] ==> !IsSpace(payload[0])
    ensures TrimStart(space + payload) == payload
    decreases |space|
  {
    if space == [] {
      assert space + payload == payload;
    } else {
      assert (space + payload)[0] == space[0] && (space + payload)[1..] == space[1..] + payload;
      TrimStartIs(space[1..], payload);
    }
  }

  lemma {:induction false} DataLinesOf(lines: seq<Line>)
    requires forall i :: 0 <= i < |lines| ==> Proper(lines[i])
    ensures DataLines(AllWritten(lines)) == Payloads(lines)
    decreases |lines|
  {
    if lines != [] {
      var all := AllWritten(lines);
      assert all[1..] == AllWritten(lines[1..]);
      DataLinesOf(lines[1..]);
      if lines[0].DataLine? {
        assert all[0] == FIELD + (lines[0].space + lines[0].payload);
        assert all[0][5..] == lines[0].space + lines[0].payload;
        TrimStartIs(lines[0].space, lines[0].payload);
      }
    }
  }

  /** The data of a frame is what its data lines carry, joined by line feeds. */
  lemma DataOfFrame(lines: seq<Line>, breaks: seq<Text>)
    requires |lines| == |breaks| + 1 && Breaks(breaks) && forall i :: 0 <= i < |lines| ==> Proper(lines[i])
    ensures Data(FrameText(lines, breaks)) == Join(Payloads(lines))
  {
    LinesOfFrame(lines, breaks);
    DataLinesOf(lines);
  }

  /** Joining by line feeds is undone by cutting into lines. */
  lemma {:induction false} JoinUndone(lines: seq<Text>)
    requires lines != [] && forall i :: 0 <= i < |lines| ==> OneLine(lines[i])
    ensures Lines(Join(lines), []) == lines
    decreases |lines|
  {
    hide Lines, OneLine;
    assert [] + lines[0] == lines[0];
    if |lines| == 1 {
      LastLine(lines[0], []);
    } else {
      LineBeforeBreak(lines[0], [], [LF], Join(lines[1..]));
      JoinUndone(lines[1..]);
    }
  }

  // --- events ---

  datatype Kind = MessageDone | AgentStatus(settled: bool) | ErrorReport | OtherKind

  /** An event; settled means the status is queued, succeeded, failed or cancelled. */
  datatype Event = Event(kind: Kind, session: string, sequence: real, id: string)

  datatype Key = Key(sequence: real, id: string)

  /** JSON decoding and the type checks; nothing where they throw. */
  type Parser = Text -> Option<Event>

  datatype Decoded = Malformed | Ignored | Decoded(event: Event)

  function Decode(parse: Parser, frame: Text): Decoded {
    var data := Data(frame);
    if data == [] || data == DONE then Ignored
    else if parse(data).None? then Malformed
    else Decoded(parse(data).value)
  }

  /** The events of the frames, or nothing if one is malformed. */
  function Events(parse: Parser, frames: seq<Text>): Option<seq<Event>> {
    if frames == [] then Some([])
    else
      var first, more := Decode(parse, frames[0]), Events(parse, frames[1..]);
      if first.Malformed? || more.None? then None
      else Some((if first.Decoded? then [first.event] else []) + more.value)
  }

  lemma {:induction false} EventsAppend(parse: Parser, a: seq<Text>, b: seq<Text>)
    ensures Events(parse, a + b) ==
            if Events(parse, a).None? || Events(parse, b).None? then None
            else Some(Events(parse, a).value + Events(parse, b).value)
    decreases |a|
  {
    if a == [] {
      assert a + b == b;
      if Events(parse, b).Some? {
        assert [] + Events(parse, b).value == Events(parse, b).value;
      }
    } else {
      hide Decode;
      assert (a + b)[0] == a[0] && (a + b)[1..] == a[1..] + b;
      EventsAppend(parse, a[1..], b);
      var first := Decode(parse, a[0]);
      if !first.Malformed? && Events(parse, a[1..]).Some? && Events(parse, b).Some? {
        Associate(if first.Decoded? then [first.event] else [], Events(parse, a[1..]).value, Events(parse, b).value);
      }
    }
  }

  lemma OneFrame(parse: Parser, frame: Text)
    ensures Events(parse, [frame]) ==
            match Decode(parse, frame)
            case Malformed => None
            case Ignored => Some([])
            case Decoded(event) => Some([event])
  {
    hide Decode;
    assert [frame][1..] == [];
    assert Events(parse, [frame][1..]) == Some([]);
    var first := Decode(parse, frame);
    var none: seq<Event> := [];
    assert Events(parse, [frame][1..]).value == none && none + none == none;
    if first.Decoded? {
      assert [first.event] + none == [first.event];
    }
  }

  /** One more frame is the events so far and its own. */
  lemma NextFrame(parse: Parser, frames: seq<Text>, i: nat, found: seq<Event>)
    requires i < |frames| && Events(parse, frames[..i]) == Some(found)
    ensures Events(parse, frames[..i + 1]) ==
            match Decode(parse, frames[i])
            case Malformed => None
            case Ignored => Some(found)
            case Decoded(event) => Some(found + [event])
    ensures Decode(parse, frames[i]).Malformed? ==> Events(parse, frames).None?
  {
    hide Decode, Events;
    var before, frame, after := frames[..i], frames[i], frames[i + 1..];
    assert frames[..i + 1] == before + [frame];
    assert frames == (before + [frame]) + after;
    FrameAfter(parse, before, frame, found);
    EventsAppend(parse, before + [frame], after);
  }

  lemma FrameAfter(parse: Parser, before: seq<Text>, frame: Text, found: seq<Event>)
    requires Events(parse, before) == Some(found)
    ensures Events(parse, before + [frame]) ==
            match Decode(parse, frame)
            case Malformed => None
            case Ignored => Some(found)
            case Decoded(event) => Some(found + [event])
  {
    hide Decode, Events;
    EventsAppend(parse, before, [frame]);
    OneFrame(parse, frame);
    assert found + [] == found;
  }

  /** Of a frame as a server writes it: no data and "[DONE]" are passed over, anything else is one event or refused. */
  lemma EventsOfFrame(parse: Parser, lines: seq<Line>, breaks: seq<Text>, a: seq<Text>, b: seq<Text>)
    requires |lines| == |breaks| + 1 && Breaks(breaks) && forall i :: 0 <= i < |lines| ==> Proper(lines[i])
    ensures var frame, data := FrameText(lines, breaks), Join(Payloads(lines));
            if data == [] || data == DONE then Events(parse, a + [frame] + b) == Events(parse, a + b)
            else Events(parse, [frame]) == if parse(data).None? then None else Some([parse(data).value])
  {
    var frame := FrameText(lines, breaks);
    DataOfFrame(lines, breaks);
    OneFrame(parse, frame);
    EventsAppend(parse, a, [frame]);
    EventsAppend(parse, a + [frame], b);
    EventsAppend(parse, a, b);
    if Events(parse, a).Some? {
      assert Events(parse, a).value + [] == Events(parse, a).value;
    }
  }

  /** So a closing "[DONE]", and a frame without data, add nothing and refuse nothing, whatever the parser says. */
  lemma DoneIsIgnored(parse: Parser, space: Text, comment: Text, a: seq<Text>, b: seq<Text>)
    requires Proper(DataLine(space, DONE)) && Proper(OtherLine(comment))
    ensures Events(parse, a + [FIELD + space + DONE] + b) == Events(parse, a + b)
    ensures Events(parse, a + [comment] + b) == Events(parse, a + b)
  {
    EventsOfFrame(parse, [DataLine(space, DONE)], [], a, b);
    EventsOfFrame(parse, [OtherLine(comment)], [], a, b);
  }

  method ParseAssistantFrames(parse: Parser, input: Text) returns (events: Option<seq<Event>>, rest: Text)
    ensures |input| > MAX_INPUT ==> events.None?
    ensures |input| <= MAX_INPUT ==> events == Events(parse, Split(input).frames) && rest == Split(input).rest
  {
    if |input| > MAX_INPUT {
      return None, [];
    }
    hide Split, Data;
    var cut := Split(input);
    rest := cut.rest;
    var found: seq<Event> := [];
    for i := 0 to |cut.frames|
      invariant Events(parse, cut.frames[..i]) == Some(found)
    {
      NextFrame(parse, cut.frames, i, found);
      var data := Data(cut.frames[i]);
      if data == [] || data == DONE {
        continue;
      }
      var event := parse(data);
      if event.None? {
        return None, rest;
      }
      found := found + [event.value];
    }
    assert cut.frames[..|cut.frames|] == cut.frames;
    events := Some(found);
  }

  // --- delivery ---

  datatype Progress = Progress(seen: set<Key>, terminal: bool, delivered: seq<Event>)

  datatype Reason = TooLarge | BadFrame | OtherSession | TooMany | Reported | EndedEarly

  datatype State = Going(progress: Progress) | Stopped(delivered: seq<Event>, reason: Reason)

  function DeliveredBy(s: State): seq<Event> {
    if s.Going? then s.progress.delivered else s.delivered
  }

  function KeyOf(e: Event): Key {
    Key(e.sequence, e.id)
  }

  predicate Settles(e: Event) {
    e.kind.MessageDone? || (e.kind.AgentStatus? && e.kind.settled)
  }

  /** One event: refused from another conversation, skipped if seen, counted, and delivered. */
  function Deliver(session: string, p: Progress, e: Event): State {
    if e.session != session then Stopped(p.delivered, OtherSession)
    else if KeyOf(e) in p.seen then Going(p)
    else if |p.seen + {KeyOf(e)}| > MAX_EVENTS then Stopped(p.delivered, TooMany)
    else if e.kind.ErrorReport? then Stopped(p.delivered, Reported)
    else Going(Progress(p.seen + {KeyOf(e)}, p.terminal || Settles(e), p.delivered + [e]))
  }

  function DeliverAll(session: string, s: State, events: seq<Event>): State
    decreases |events|
  {
    if s.Stopped? || events == [] then s
    else DeliverAll(session, Deliver(session, s.progress, events[0]), events[1..])
  }

  lemma {:induction false} DeliverAppend(session: string, s: State, a: seq<Event>, b: seq<Event>)
    ensures DeliverAll(session, s, a + b) == DeliverAll(session, DeliverAll(session, s, a), b)
    decreases |a|
  {
    if a == [] {
      assert a + b == b;
    } else if s.Going? {
      assert (a + b)[0] == a[0] && (a + b)[1..] == a[1..] + b;
      DeliverAppend(session, Deliver(session, s.progress, a[0]), a[1..], b);
    }
  }

  const FRESH := Going(Progress({}, false, []))

  /** After the last chunk: nothing may be left over and a terminal event must have come. */
  function Finish(s: State, rest: Text): State {
    if s.Stopped? then s
    else if TrimStart(rest) != [] || !s.progress.terminal then Stopped(s.progress.delivered, EndedEarly)
    else s
  }

  /** The read loop over the chunks: the last one flushes the decoder. */
  function Stream(parse: Parser, session: string, s: State, rest: Text, chunks: seq<Text>): State
    decreases |chunks|
  {
    if s.Stopped? then s
    else if chunks == [] then Finish(s, rest)
    else
      var input := rest + chunks[0];
      if |input| > MAX_INPUT then Stopped(s.progress.delivered, TooLarge)
      else
        var events := Events(parse, Split(input).frames);
        if events.None? then Stopped(s.progress.delivered, BadFrame)
        else Stream(parse, session, DeliverAll(session, s, events.value), Split(input).rest, chunks[1..])
  }

  /** No input, rest and chunk together, is longer than the limit. */
  predicate WithinLimit(rest: Text, chunks: seq<Text>)
    decreases |chunks|
  {
    chunks == [] || (|rest + chunks[0]| <= MAX_INPUT && WithinLimit(Split(rest + chunks[0]).rest, chunks[1..]))
  }

  /** While all frames decode, the chunks make no difference to what is delivered and how it ends. */
  lemma {:induction false} StreamIsChunkFree(parse: Parser, session: string, s: State, rest: Text, chunks: seq<Text>)
    requires Split(rest) == Cut([], rest) && WithinLimit(rest, chunks)
    requires Events(parse, Split(rest + Concat(chunks)).frames).Some?
    ensures var whole := Split(rest + Concat(chunks));
            Stream(parse, session, s, rest, chunks)
            == Finish(DeliverAll(session, s, Events(parse, whole.frames).value), whole.rest)
    decreases |chunks|
  {
    hide Split, Deliver, Decode;
    if chunks == [] {
      assert rest + [] == rest;
    } else if s.Going? {
      var input, later := rest + chunks[0], Concat(chunks[1..]);
      RestIsWhole(input);
      SplitInParts(input, later);
      assert input + later == rest + Concat(chunks);
      EventsAppend(parse, Split(input).frames, Split(Split(input).rest + later).frames);
      var events := Events(parse, Split(input).frames).value;
      StreamIsChunkFree(parse, session, DeliverAll(session, s, events), Split(input).rest, chunks[1..]);
      DeliverAppend(session, s, events, Events(parse, Split(Split(input).rest + later).frames).value);
    }
  }

  // --- malformed frames: exactly when the chunks make a difference ---

  /** The events before the first malformed frame. */
  function Good(parse: Parser, frames: seq<Text>): seq<Event> {
    if frames == [] || Decode(parse, frames[0]).Malformed? then []
    else
      var first := Decode(parse, frames[0]);
      (if first.Decoded? then [first.event] else []) + Good(parse, frames[1..])
  }

  lemma {:induction false} GoodIsAll(parse: Parser, frames: seq<Text>)
    requires Events(parse, frames).Some?
    ensures Good(parse, frames) == Events(parse, frames).value
  {
    hide Decode;
    if frames != [] {
      GoodIsAll(parse, frames[1..]);
    }
  }

  lemma {:induction false} GoodAppend(parse: Parser, a: seq<Text>, b: seq<Text>)
    requires Events(parse, a).Some?
    ensures Good(parse, a + b) == Events(parse, a).value + Good(parse, b)
    decreases |a|
  {
    hide Decode;
    if a == [] {
      assert a + b == b;
      assert [] + Good(parse, b) == Good(parse, b);
    } else {
      assert (a + b)[0] == a[0] && (a + b)[1..] == a[1..] + b;
      GoodAppend(parse, a[1..], b);
      var first := Decode(parse, a[0]);
      Associate(if first.Decoded? then [first.event] else [], Events(parse, a[1..]).value, Good(parse, b));
    }
  }

  lemma {:induction false} DeliverGrows(session: string, s: State, events: seq<Event>)
    ensures DeliveredBy(s) <= DeliveredBy(DeliverAll(session, s, events))
    decreases |events|
  {
    if s.Going? && events != [] {
      DeliverGrows(session, Deliver(session, s.progress, events[0]), events[1..]);
    }
  }

  lemma {:induction false} StreamGrows(parse: Parser, session: string, s: State, rest: Text, chunks: seq<Text>)
    ensures DeliveredBy(s) <= DeliveredBy(Stream(parse, session, s, rest, chunks))
    decreases |chunks|
  {
    hide Split, Events, DeliverAll;
    if s.Going? && chunks != [] {
      var events := Events(parse, Split(rest + chunks[0]).frames);
      if events.Some? {
        DeliverGrows(session, s, events.value);
        StreamGrows(parse, session, DeliverAll(session, s, events.value), Split(rest + chunks[0]).rest, chunks[1..]);
      }
    }
  }

  /** Whatever the chunks, nothing is delivered beyond the events before the first malformed frame. */
  lemma {:induction false} StreamDeliversGood(parse: Parser, session: string, s: State, rest: Text, chunks: seq<Text>)
    requires Split(rest) == Cut([], rest)
    ensures DeliveredBy(Stream(parse, session, s, rest, chunks))
            <= DeliveredBy(DeliverAll(session, s, Good(parse, Split(rest + Concat(chunks)).frames)))
    decreases |chunks|
  {
    hide Split, Events, Deliver, Good;
    DeliverGrows(session, s, Good(parse, Split(rest + Concat(chunks)).frames));
    if s.Going? && chunks != [] {
      var input, later := rest + chunks[0], Concat(chunks[1..]);
      var events := Events(parse, Split(input).frames);
      if |input| <= MAX_INPUT && events.Some? {
        RestIsWhole(input);
        SplitInParts(input, later);
        assert input + later == rest + Concat(chunks);
        var after := Split(Split(input).rest + later).frames;
        GoodAppend(parse, Split(input).frames, after);
        StreamDeliversGood(parse, session, DeliverAll(session, s, events.value), Split(input).rest, chunks[1..]);
        DeliverAppend(session, s, events.value, Good(parse, after));
      }
    }
  }

  lemma {:induction false} ShortIsWithin(rest: Text, chunks: seq<Text>)
    requires |rest| + |Concat(chunks)| <= MAX_INPUT
    ensures WithinLimit(rest, chunks)
    decreases |chunks|
  {
    hide Split;
    if chunks != [] {
      ShortIsWithin(Split(rest + chunks[0]).rest, chunks[1..]);
    }
  }

  lemma PrefixHasNone(head: Text, tail: Text, k: nat)
    requires k <= |head| && SeparatorFrom(head + tail, k) == 0
    ensures SeparatorFrom(head, k) == 0
  {
  }

  lemma PrefixHasIt(head: Text, tail: Text, i: nat)
    requires i < |head| && i + SeparatorFrom(head + tail, i) == |head|
    ensures SeparatorFrom(head, i) == |head| - i
  {
  }

  /** A first frame with its separator starts with that separator's frame. */
  lemma HeadSplits(head: Text, tail: Text)
    requires var i := Leftmost(head + tail);
             i < |head| && i + SeparatorFrom(head + tail, i) == |head|
    ensures Leftmost(head) == Leftmost(head + tail) && SeparatorFrom(head, Leftmost(head)) == |head| - Leftmost(head)
  {
    hide Leftmost, SeparatorFrom;
    var i := Leftmost(head + tail);
    PrefixHasIt(head, tail, i);
    forall k | 0 <= k < i
      ensures SeparatorFrom(head, k) == 0
    {
      PrefixHasNone(head, tail, k);
    }
    LeftmostIs(head, i);
  }

  /** A frame with its separator splits off alone. */
  lemma FirstFrameAlone(head: Text, tail: Text, more: Text)
    requires var i := Leftmost(head + tail);
             i < |head| && i + SeparatorFrom(head + tail, i) == |head|
    ensures Split(head + more) == Cut([head[..Leftmost(head + tail)]] + Split(more).frames, Split(more).rest)
  {
    hide Leftmost, SeparatorFrom, Split;
    HeadSplits(head, tail);
    LeftmostStays(head, more);
    SplitFirst(head + more);
    assert (head + more)[|head|..] == more;
    assert (head + more)[..Leftmost(head)] == head[..Leftmost(head)];
  }

  /** The text up to the first malformed frame. */
  lemma {:induction false} CutBeforeBad(parse: Parser, text: Text) returns (a: Text, b: Text)
    requires Events(parse, Split(text).frames).None?
    ensures text == a + b
    ensures Events(parse, Split(a).frames) == Some(Good(parse, Split(text).frames))
    decreases |text|
  {
    hide Leftmost, Decode, SeparatorFrom, Events, Good, Split;
    NoFrames(parse);
    SplitFirst(text);
    var i := Leftmost(text);
    var frames := Split(text).frames;
    if Decode(parse, frames[0]).Malformed? {
      a, b := [], text;
      GoodStops(parse, frames);
    } else {
      var n := SeparatorFrom(text, i);
      var tail := text[i + n..];
      GoodFirst(parse, text[..i], Split(tail).frames, Split(tail).frames);
      var inner;
      inner, b := CutBeforeBad(parse, tail);
      var head := text[..i + n];
      a := head + inner;
      assert text == head + tail;
      assert head[..i] == text[..i];
      FirstFrameAlone(head, tail, inner);
      GoodFirst(parse, text[..i], Split(inner).frames, Split(tail).frames);
    }
  }

  lemma NoFrames(parse: Parser)
    ensures Split([]) == Cut([], []) && Events(parse, []) == Some([])
  {
  }

  lemma SplitFirst(text: Text)
    ensures var i := Leftmost(text);
            Split(text) == if i == |text| then Cut([], text)
              else Under(text[..i], Split(text[i + SeparatorFrom(text, i)..]))
  {
    hide Leftmost, SeparatorFrom, Under;
  }

  lemma GoodStops(parse: Parser, frames: seq<Text>)
    requires frames != [] && Decode(parse, frames[0]).Malformed?
    ensures Good(parse, frames) == []
  {
  }

  lemma GoodFirst(parse: Parser, frame: Text, cut: seq<Text>, all: seq<Text>)
    requires !Decode(parse, frame).Malformed?
    ensures Events(parse, cut) == Some(Good(parse, all)) ==>
              Events(parse, [frame] + cut) == Some(Good(parse, [frame] + all))
    ensures Events(parse, [frame] + cut).None? ==> Events(parse, cut).None?
  {
  }

  /** No frame is malformed, or nothing is delivered before the first malformed one. */
  predicate Steady(parse: Parser, session: string, text: Text) {
    var frames := Split(text).frames;
    Events(parse, frames).Some? || DeliveredBy(DeliverAll(session, FRESH, Good(parse, frames))) == []
  }

  function Delivered(parse: Parser, session: string, chunks: seq<Text>): seq<Event> {
    DeliveredBy(Stream(parse, session, FRESH, [], chunks))
  }

  lemma SteadyIsEnough(parse: Parser, session: string, text: Text, chunks: seq<Text>)
    requires |text| <= MAX_INPUT && Concat(chunks) == text && Steady(parse, session, text)
    ensures Delivered(parse, session, chunks)
              == DeliveredBy(DeliverAll(session, FRESH, Good(parse, Split(text).frames)))
  {
    hide Events, Good, DeliverAll, WithinLimit;
    assert Split([]) == Cut([], []);
    assert [] + Concat(chunks) == text;
    if Events(parse, Split(text).frames).Some? {
      ShortIsWithin([], chunks);
      StreamIsChunkFree(parse, session, FRESH, [], chunks);
      GoodIsAll(parse, Split(text).frames);
    } else {
      StreamDeliversGood(parse, session, FRESH, [], chunks);
    }
  }

  lemma ConcatTwo(a: Text, b: Text)
    ensures Concat([a, b]) == a + b && [a, b][1..] == [b]
  {
    assert [b][1..] == [];
    assert Concat([b]) == b + [] == b;
  }

  lemma UnsteadyDiffers(parse: Parser, session: string, text: Text) returns (chunks: seq<Text>)
    requires |text| <= MAX_INPUT && !Steady(parse, session, text)
    ensures Concat(chunks) == text && Delivered(parse, session, chunks) != [] && Delivered(parse, session, [text]) == []
  {
    hide Split, Events, Good, DeliverAll;
    assert [] + text == text;
    var a, b := CutBeforeBad(parse, text);
    chunks := [a, b];
    ConcatTwo(a, b);
    assert [] + a == a;
    var s := DeliverAll(session, FRESH, Good(parse, Split(text).frames));
    StreamGrows(parse, session, s, Split(a).rest, chunks[1..]);
  }

  /** For every text within the limit: all ways of cutting it deliver the same events exactly if no frame
      is malformed or nothing comes before the first malformed frame. */
  lemma ChunkingExactly(parse: Parser, session: string, text: Text)
    requires |text| <= MAX_INPUT
    ensures Steady(parse, session, text) <==>
            forall chunks :: Concat(chunks) == text ==>
              Delivered(parse, session, chunks) == Delivered(parse, session, [text])
  {
    hide Steady, Delivered;
    assert Concat([text]) == text by {
      assert [text][1..] == [];
      assert text + [] == text;
    }
    if Steady(parse, session, text) {
      SteadyIsEnough(parse, session, text, [text]);
      forall chunks | Concat(chunks) == text
        ensures Delivered(parse, session, chunks) == Delivered(parse, session, [text])
      {
        SteadyIsEnough(parse, session, text, chunks);
      }
    } else {
      var chunks := UnsteadyDiffers(parse, session, text);
      assert Concat(chunks) == text;
    }
  }

  /** "data:1", a blank line, "data:2", a blank line. */
  const GOOD_FRAME: Text := [100, 97, 116, 97, 58, 49]
  const BAD_FRAME: Text := [100, 97, 116, 97, 58, 50]

  function ParseOne(data: Text): Option<Event> {
    if data == [49] then Some(Event(OtherKind, "s", 1.0, "e")) else None
  }

  lemma PlainData(digit: CodeUnit)
    requires digit == 49 || digit == 50
    ensures Data([100, 97, 116, 97, 58, digit]) == [digit]
  {
    hide Data;
    var line := DataLine([], [digit]);
    assert Written(line) == [100, 97, 116, 97, 58, digit];
    DataOfFrame([line], []);
    assert Payloads([line][1..]) == [] && Payloads([line]) == [[digit]];
  }

  lemma NoBreak(text: Text)
    requires text != [] && text[0] != CR && text[0] != LF
    ensures SeparatorAt(text) == 0
  {
  }

  lemma TwoBreaks(more: Text)
    ensures SeparatorAt([LF, LF] + more) == 2
  {
  }

  lemma PlainFrame(frame: Text, more: Text)
    requires frame == GOOD_FRAME || frame == BAD_FRAME
    ensures Split(frame + [LF, LF] + more) == Cut([frame] + Split(more).frames, Split(more).rest)
  {
    hide Split, SeparatorAt;
    var text := frame + [LF, LF] + more;
    forall k | 0 <= k < 6
      ensures SeparatorFrom(text, k) == 0
    {
      assert text[k..][0] == frame[k];
      NoBreak(text[k..]);
    }
    assert text[6..] == [LF, LF] + more;
    TwoBreaks(more);
    LeftmostIs(text, 6);
    SplitFirst(text);
    assert text[8..] == more && text[..6] == frame;
  }

  /** Two chunkings of one text that deliver different events. */
  lemma ChunkingCanMatter()
    ensures var first, second := GOOD_FRAME + [LF, LF], BAD_FRAME + [LF, LF];
            && Delivered(ParseOne, "s", [first, second]) == [Event(OtherKind, "s", 1.0, "e")]
            && Delivered(ParseOne, "s", [first + second]) == []
  {
    hide Split, Data, Leftmost, SeparatorFrom;
    var first, second := GOOD_FRAME + [LF, LF], BAD_FRAME + [LF, LF];
    NoFrames(ParseOne);
    PlainFrame(GOOD_FRAME, []);
    PlainFrame(BAD_FRAME, []);
    PlainFrame(GOOD_FRAME, second);
    PlainData(49);
    PlainData(50);
    assert first + [] == first && second + [] == second;
    assert [] + first == first && [] + (first + second) == first + second;
    var e := Event(OtherKind, "s", 1.0, "e");
    OneFrame(ParseOne, GOOD_FRAME);
    OneFrame(ParseOne, BAD_FRAME);
    assert Events(ParseOne, Split(first).frames) == Some([e]);
    assert Events(ParseOne, Split(second).frames) == None;
    EventsAppend(ParseOne, [GOOD_FRAME], [BAD_FRAME]);
    assert [e][1..] == [];
    var s := Going(Progress({KeyOf(e)}, false, [e]));
    assert FRESH.progress.seen + {KeyOf(e)} == {KeyOf(e)} && FRESH.progress.delivered + [e] == [e];
    assert DeliverAll("s", FRESH, [e]) == s;
    assert [first, second][1..] == [second];
    assert Split(first).rest == [] && [] + second == second;
    assert Stream(ParseOne, "s", s, [], [second]) == Stopped([e], BadFrame);
    assert Stream(ParseOne, "s", FRESH, [], [first, second]) == Stream(ParseOne, "s", s, [], [second]);
  }

  // --- what is delivered, for every way the stream arrives and ends ---

  /** Events of one conversation, each once, no error reports, at most 10000. */
  ghost predicate OneConversation(session: string, events: seq<Event>) {
    && |events| <= MAX_EVENTS
    && (forall i :: 0 <= i < |events| ==> events[i].session == session && !events[i].kind.ErrorReport?)
    && (forall i, j :: 0 <= i < j < |events| ==> KeyOf(events[i]) != KeyOf(events[j]))
  }

  ghost predicate Settled(events: seq<Event>) {
    exists i :: 0 <= i < |events| && Settles(events[i])
  }

  ghost predicate SoundState(session: string, s: State) {
    && OneConversation(session, DeliveredBy(s))
    && (s.Going? ==>
          && (forall i :: 0 <= i < |s.progress.delivered| ==> KeyOf(s.progress.delivered[i]) in s.progress.seen)
          && |s.progress.seen| == |s.progress.delivered|
          && (s.progress.terminal <==> Settled(s.progress.delivered)))
  }

  lemma DeliverSound(session: string, p: Progress, e: Event)
    requires SoundState(session, Going(p))
    ensures SoundState(session, Deliver(session, p, e))
  {
    var s := Deliver(session, p, e);
    if s.Going? && s.progress != p {
      var more := s.progress.delivered;
      assert forall i :: 0 <= i < |p.delivered| ==> more[i] == p.delivered[i];
      assert Settled(more) <==> Settled(p.delivered) || Settles(more[|p.delivered|]);
    }
  }

  lemma {:induction false} DeliverAllSound(session: string, s: State, events: seq<Event>)
    requires SoundState(session, s)
    ensures SoundState(session, DeliverAll(session, s, events))
    decreases |events|
  {
    hide SoundState, Deliver;
    if s.Going? && events != [] {
      assert s == Going(s.progress);
      DeliverSound(session, s.progress, events[0]);
      DeliverAllSound(session, Deliver(session, s.progress, events[0]), events[1..]);
    }
  }

  lemma {:induction false} StreamSound(parse: Parser, session: string, s: State, rest: Text, chunks: seq<Text>)
    requires SoundState(session, s)
    ensures SoundState(session, Stream(parse, session, s, rest, chunks))
    ensures var r := Stream(parse, session, s, rest, chunks); s.Going? && r.Going? ==> r.progress.terminal
    decreases |chunks|
  {
    hide Split, Events, DeliverAll;
    if s.Going? && chunks != [] {
      var events := Events(parse, Split(rest + chunks[0]).frames);
      if events.Some? {
        DeliverAllSound(session, s, events.value);
        StreamSound(parse, session, DeliverAll(session, s, events.value), Split(rest + chunks[0]).rest, chunks[1..]);
        assert Stream(parse, session, Stopped([], TooLarge), rest, chunks).Stopped?;
      }
    }
  }

  /** The loop of the client: reads chunks until the last, delivering as it goes. */
  method StreamAssistant(parse: Parser, session: string, chunks: seq<Text>) returns (end: State)
    ensures end == Stream(parse, session, FRESH, [], chunks)
    ensures OneConversation(session, DeliveredBy(end))
    ensures end.Going? ==> Settled(DeliveredBy(end))
  {
    hide Split, Events, OneConversation, Settled, IsSpace;
    assert SoundState(session, FRESH) by { StartsSound(session); }
    StreamSound(parse, session, FRESH, [], chunks);
    var seen: set<Key>, terminal, delivered: seq<Event>, rest: Text := {}, false, [], [];
    for i := 0 to |chunks|
      invariant Stream(parse, session, FRESH, [], chunks)
             == Stream(parse, session, Going(Progress(seen, terminal, delivered)), rest, chunks[i..])
    {
      assert chunks[i..][0] == chunks[i] && chunks[i..][1..] == chunks[i + 1..];
      ghost var before := Going(Progress(seen, terminal, delivered));
      var events, left := ParseAssistantFrames(parse, rest + chunks[i]);
      if events.None? {
        return Stopped(delivered, if |rest + chunks[i]| > MAX_INPUT then TooLarge else BadFrame);
      }
      for k := 0 to |events.value|
        invariant DeliverAll(session, before, events.value)
               == DeliverAll(session, Going(Progress(seen, terminal, delivered)), events.value[k..])
      {
        var event := events.value[k];
        assert events.value[k..][0] == event && events.value[k..][1..] == events.value[k + 1..];
        if event.session != session {
          return Stopped(delivered, OtherSession);
        }
        if KeyOf(event) in seen {
          continue;
        }
        seen := seen + {KeyOf(event)};
        if |seen| > MAX_EVENTS {
          return Stopped(delivered, TooMany);
        }
        if event.kind.ErrorReport? {
          return Stopped(delivered, Reported);
        }
        terminal := terminal || Settles(event);
        delivered := delivered + [event];
      }
      rest := left;
    }
    if TrimStart(rest) != [] || !terminal {
      return Stopped(delivered, EndedEarly);
    }
    end := Going(Progress(seen, terminal, delivered));
  }

  lemma StartsSound(session: string)
    ensures SoundState(session, FRESH)
  {
  }
}
