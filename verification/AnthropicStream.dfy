/** The server-sent-event reader for interleaved content blocks: accumulators per block index,
    and the proof that tool calls never mix, for every sequence of lines. */
module AnthropicStream {

  import opened Collections
  import opened GatewayStream

  datatype EventName = BlockDelta | BlockStart | BlockStop | MessageDelta | MessageStop | OtherName

  datatype DeltaType = TextDelta | InputJsonDelta | OtherDelta

  /** The fields of a data line's JSON; valid says whether it decoded. */
  datatype Payload = Payload(
    valid: bool, index: int, deltaType: DeltaType, text: string, partialJson: string,
    toolUse: bool, id: string, name: string, stopReason: string, outputTokens: int)

  datatype Line = EventLine(event: EventName) | DataLine(payload: Payload) | DoneLine | OtherLine

  /** What a line means, given the event name in force. */
  datatype Ev =
    | Text(text: string) | Json(index: int, part: string) | Start(index: int, id: string, name: string)
    | Stop(index: int) | Message(reason: string, tokens: int)
    | End | Cancelled | ScanFailed | Nothing

  function Decode(event: EventName, line: Line): Ev
  {
    match line
    case DoneLine => End
    case DataLine(p) =>
      if event.MessageStop? then End
      else if !p.valid then Nothing
      else
        (match event
         case BlockDelta =>
           (match p.deltaType
            case TextDelta => Text(p.text)
            case InputJsonDelta => Json(p.index, p.partialJson)
            case OtherDelta => Nothing)
         case BlockStart => if p.toolUse then Start(p.index, p.id, p.name) else Nothing
         case BlockStop => Stop(p.index)
         case MessageDelta => Message(p.stopReason, p.outputTokens)
         case _ => Nothing)
    case _ => Nothing
  }

  function NameAfter(event: EventName, line: Line): EventName
  {
    if line.EventLine? then line.event else event
  }

  /** The events of a body; ctxDone(i) says whether the context is found done at line i, and
      scanFails whether reading the body ends with an error. */
  function Events(lines: seq<Line>, event: EventName, i: nat, ctxDone: nat -> bool, scanFails: bool): seq<Ev>
  {
    if lines == [] then (if scanFails then [ScanFailed] else [])
    else
      [if ctxDone(i) then Cancelled else Decode(event, lines[0])]
        + Events(lines[1..], NameAfter(event, lines[0]), i + 1, ctxDone, scanFails)
  }

  // ---------------------------------------------------------------- accumulators

  datatype Tool = Tool(id: string, name: string, json: string)

  /** The text so far and one accumulator per open tool block. */
  datatype Acc = Acc(text: string, tools: map<int, Tool>)

  const EMPTY: Acc := Acc("", map[])

  function Apply(a: Acc, e: Ev): Acc
  {
    match e
    case Text(t) => a.(text := a.text + t)
    case Json(i, p) =>
      if i in a.tools then a.(tools := a.tools[i := a.tools[i].(json := a.tools[i].json + p)]) else a
    case Start(i, id, name) => a.(tools := a.tools[i := Tool(id, name, "")])
    case Stop(i) => a.(tools := a.tools - {i})
    case _ => a
  }

  predicate Ends(e: Ev) { e.End? || e.Cancelled? || e.ScanFailed? }

  /** The chunk an event puts out, if any. */
  function ChunkOf(a: Acc, e: Ev): Option<Chunk>
  {
    match e
    case Text(t) => Some(TextChunk(t, "", a.text + t))
    case Stop(i) =>
      if i in a.tools
      then Some(Chunk("", Some(ToolUse(a.tools[i].id, a.tools[i].name, a.tools[i].json)), "", None, false, a.text, None))
      else None
    case Message(r, n) => Some(Chunk("", None, r, Some(n), false, a.text, None))
    case Cancelled => Some(ErrorChunk(Timeout, a.text))
    case ScanFailed => Some(ErrorChunk(Upstream, a.text))
    case _ => None
  }

  function Listed(c: Option<Chunk>): seq<Chunk> { if c.Some? then [c.value] else [] }

  /** What an unbounded buffer would carry. */
  function Output(a: Acc, evs: seq<Ev>): seq<Chunk>
    decreases |evs|
  {
    if evs == [] then []
    else
      Listed(ChunkOf(a, evs[0])) + (if Ends(evs[0]) then [] else Output(Apply(a, evs[0]), evs[1..]))
  }

  /** The body of the loop for one line: the chunk it emits, whether it returns, and the text and
      tool accumulators afterwards. */
  method HandleLine(event: EventName, line: Line, text: string, tools: map<int, Tool>)
    returns (c: Option<Chunk>, end: bool, text': string, tools': map<int, Tool>)
    ensures var e := Decode(event, line);
      c == ChunkOf(Acc(text, tools), e) && end == Ends(e) && Acc(text', tools') == Apply(Acc(text, tools), e)
  {
    c, end, text', tools' := None, false, text, tools;
    match line
    case EventLine(_) =>
    case OtherLine =>
    case DoneLine => end := true;
    case DataLine(p) =>
      match event
      case BlockDelta =>
        if p.valid {
          match p.deltaType
          case TextDelta =>
            text' := text + p.text;
            c := Some(TextChunk(p.text, "", text'));
          case InputJsonDelta =>
            if p.index in tools {
              tools' := tools[p.index := tools[p.index].(json := tools[p.index].json + p.partialJson)];
            }
          case OtherDelta =>
        }
      case BlockStart =>
        if p.valid && p.toolUse { tools' := tools[p.index := Tool(p.id, p.name, "")]; }
      case BlockStop =>
        if p.valid && p.index in tools {
          var tb := tools[p.index];
          c := Some(TextChunk("", "", text).(tool := Some(ToolUse(tb.id, tb.name, tb.json))));
          tools' := tools - {p.index};
        }
        StopUnopened(Acc(text, tools), p.index);
      case MessageDelta =>
        if p.valid { c := Some(TextChunk("", p.stopReason, text).(usage := Some(p.outputTokens))); }
      case MessageStop => end := true;
      case OtherName =>
  }

  lemma StopUnopened(a: Acc, i: int)
    ensures i !in a.tools ==> a.tools - {i} == a.tools
  {
  }

  /** streamAnthropicSSE, writing to the bounded channel. */
  method Stream(lines: seq<Line>, ctxDone: nat -> bool, scanFails: bool, pace: Pace) returns (sent: seq<Chunk>)
    ensures var full := Output(EMPTY, Events(lines, OtherName, 0, ctxDone, scanFails));
      && sent == Carried(full, pace, false)
      && Delivered(full, sent) && (|full| <= CAPACITY ==> sent == full)
  {
    hide ChunkOf, Decode, Apply, EmitOrOverflow, Delivered, Output, Events, ErrorChunk, Carried, Going, Ends;
    var out, text, tools, event := Out([], 0), "", map[], OtherName;
    ghost var full := Output(EMPTY, Events(lines, OtherName, 0, ctxDone, scanFails));
    CarriedDelivered(full, pace, false);
    GoesFromStart(full, pace);
    assert lines[0..] == lines;
    for i := 0 to |lines|
      invariant full == out.sent + Output(Acc(text, tools), Events(lines[i..], event, i, ctxDone, scanFails))
      invariant Going(full, out, pace)
    {
      NextEvent(full, out.sent, Acc(text, tools), lines, i, event, ctxDone, scanFails);
      if ctxDone(i) {
        CancelledEnds(Acc(text, tools));
        var c := ErrorChunk(Timeout, text);
        EmitDelivers(full, out, c, pace, false);
        var emitted := EmitOrOverflow(out, c, pace);
        out := emitted.0;
        if emitted.1 { AllSent(full, out, pace, false); }
        return out.sent;
      }
      var c, end, text', tools' := HandleLine(event, lines[i], text, tools);
      if c.Some? {
        EmitDelivers(full, out, c.value, pace, false);
        var emitted := EmitOrOverflow(out, c.value, pace);
        out := emitted.0;
        if !emitted.1 { return out.sent; }
      }
      if end {
        AllSent(full, out, pace, false);
        return out.sent;
      }
      text, tools := text', tools';
      if lines[i].EventLine? { event := lines[i].event; }
    }
    assert lines[|lines|..] == [];
    LastEvent(Acc(text, tools), event, |lines|, ctxDone, scanFails);
    if scanFails {
      var c := ErrorChunk(Upstream, text);
      EmitDelivers(full, out, c, pace, false);
      var emitted := EmitOrOverflow(out, c, pace);
      out := emitted.0;
      if !emitted.1 { return out.sent; }
    }
    AllSent(full, out, pace, false);
    sent := out.sent;
  }

  lemma CancelledEnds(a: Acc)
    ensures Ends(Cancelled) && ChunkOf(a, Cancelled) == Some(ErrorChunk(Timeout, a.text))
  {
  }

  lemma NextEvent(full: seq<Chunk>, sent: seq<Chunk>, acc: Acc, lines: seq<Line>, i: nat, event: EventName,
                  ctxDone: nat -> bool, scanFails: bool)
    requires i < |lines| && full == sent + Output(acc, Events(lines[i..], event, i, ctxDone, scanFails))
    ensures var e := if ctxDone(i) then Cancelled else Decode(event, lines[i]);
      var c := ChunkOf(acc, e);
      && (c.Some? ==> |sent| < |full| && sent <= full && full[|sent|] == c.value)
      && full == sent + Listed(c) + (if Ends(e) then [] else
           Output(Apply(acc, e), Events(lines[i + 1..], NameAfter(event, lines[i]), i + 1, ctxDone, scanFails)))
  {
    hide *;
    var e := if ctxDone(i) then Cancelled else Decode(event, lines[i]);
    var rest := Events(lines[i + 1..], NameAfter(event, lines[i]), i + 1, ctxDone, scanFails);
    EventsStep(lines, i, event, ctxDone, scanFails);
    OutputStep(acc, e, rest);
    var c := ChunkOf(acc, e);
    ListedHead(full, sent, c, if Ends(e) then [] else Output(Apply(acc, e), rest));
  }

  lemma EventsStep(lines: seq<Line>, i: nat, event: EventName, ctxDone: nat -> bool, scanFails: bool)
    requires i < |lines|
    ensures Events(lines[i..], event, i, ctxDone, scanFails)
         == [if ctxDone(i) then Cancelled else Decode(event, lines[i])]
            + Events(lines[i + 1..], NameAfter(event, lines[i]), i + 1, ctxDone, scanFails)
  {
  }

  lemma OutputStep(a: Acc, e: Ev, rest: seq<Ev>)
    ensures Output(a, [e] + rest) == Listed(ChunkOf(a, e)) + (if Ends(e) then [] else Output(Apply(a, e), rest))
  {
  }

  lemma ListedHead(full: seq<Chunk>, sent: seq<Chunk>, c: Option<Chunk>, more: seq<Chunk>)
    requires full == sent + (Listed(c) + more)
    ensures full == sent + Listed(c) + more
    ensures c.Some? ==> |sent| < |full| && sent <= full && full[|sent|] == c.value
  {
  }

  lemma LastEvent(acc: Acc, event: EventName, i: nat, ctxDone: nat -> bool, scanFails: bool)
    ensures Output(acc, Events([], event, i, ctxDone, scanFails))
         == if scanFails then [ErrorChunk(Upstream, acc.text)] else []
  {
  }

  // ---------------------------------------------------------------- reference: lines

  /** The event name in force at line n: that of the last event line before it. */
  function NameAt(lines: seq<Line>, n: nat): EventName
    requires n <= |lines|
  {
    if n == 0 then OtherName else if lines[n - 1].EventLine? then lines[n - 1].event else NameAt(lines, n - 1)
  }

  /** What each line means: one event per line, decoded under the name in force, unless the context is
      found done there, and one more if reading the body fails. */
  lemma {:induction false} EventsAre(lines: seq<Line>, i: nat, ctxDone: nat -> bool, scanFails: bool)
    requires i <= |lines|
    ensures var evs := Events(lines[i..], NameAt(lines, i), i, ctxDone, scanFails);
      && |evs| == |lines| - i + (if scanFails then 1 else 0)
      && (scanFails ==> evs[|lines| - i] == ScanFailed)
      && forall k :: i <= k < |lines| ==>
           evs[k - i] == if ctxDone(k) then Cancelled else Decode(NameAt(lines, k), lines[k])
    decreases |lines| - i
  {
    hide Decode;
    if i < |lines| {
      EventsAre(lines, i + 1, ctxDone, scanFails);
      EventsStep(lines, i, NameAt(lines, i), ctxDone, scanFails);
      assert NameAfter(NameAt(lines, i), lines[i]) == NameAt(lines, i + 1);
      hide Events, NameAt;
    }
  }

  /** A data line whose JSON decoded, under this event name. */
  predicate Decoded(event: EventName, line: Line, name: EventName)
  {
    line.DataLine? && line.payload.valid && event == name
  }

  /** Which lines have which meaning. The sentinel and the final event end the stream whether or not
      their data decodes. */
  lemma DecodeIff(event: EventName, line: Line)
    ensures var e := Decode(event, line);
      && (e.Text? <==> Decoded(event, line, BlockDelta) && line.payload.deltaType.TextDelta?)
      && (e.Text? ==> e.text == line.payload.text)
      && (e.Json? <==> Decoded(event, line, BlockDelta) && line.payload.deltaType.InputJsonDelta?)
      && (e.Json? ==> e == Json(line.payload.index, line.payload.partialJson))
      && (e.Start? <==> Decoded(event, line, BlockStart) && line.payload.toolUse)
      && (e.Start? ==> e == Start(line.payload.index, line.payload.id, line.payload.name))
      && (e.Stop? <==> Decoded(event, line, BlockStop)) && (e.Stop? ==> e.index == line.payload.index)
      && (e.Message? <==> Decoded(event, line, MessageDelta))
      && (e.Message? ==> e == Message(line.payload.stopReason, line.payload.outputTokens))
      && (e.End? <==> line.DoneLine? || (line.DataLine? && event == MessageStop))
      && !e.Cancelled? && !e.ScanFailed?
  {
  }

  // ---------------------------------------------------------------- reference: history of events

  /** The accumulators after the first n events. */
  function After(evs: seq<Ev>, n: nat): Acc
    requires n <= |evs|
  {
    if n == 0 then EMPTY else Apply(After(evs, n - 1), evs[n - 1])
  }

  /** All text deltas among the first n events, in order. */
  function Texts(evs: seq<Ev>, n: nat): string
    requires n <= |evs|
  {
    if n == 0 then "" else Texts(evs, n - 1) + (if evs[n - 1].Text? then evs[n - 1].text else "")
  }

  function Part(e: Ev, i: int): string { if e.Json? && e.index == i then e.part else "" }

  /** The partial inputs of block i, and of no other, among events a to b - 1, in order. */
  function Parts(evs: seq<Ev>, a: nat, b: nat, i: int): string
    requires b <= |evs|
  {
    if a >= b then "" else Parts(evs, a, b - 1, i) + Part(evs[b - 1], i)
  }

  predicate Touches(e: Ev, i: int) { (e.Start? || e.Stop?) && e.index == i }

  /** Before event n, block i was last started at j and not stopped since. */
  ghost predicate OpenSince(evs: seq<Ev>, n: nat, i: int, j: nat)
  {
    && j < n <= |evs| && evs[j].Start? && evs[j].index == i
    && forall k :: j < k < n ==> !Touches(evs[k], i)
  }

  lemma ApplyTool(a: Acc, e: Ev, i: int)
    requires i in Apply(a, e).tools
    ensures e.Start? && e.index == i ==> Apply(a, e).tools[i] == Tool(e.id, e.name, "")
    ensures !(e.Start? && e.index == i) ==>
      && i in a.tools && !Touches(e, i)
      && Apply(a, e).tools[i] == a.tools[i].(json := a.tools[i].json + Part(e, i))
  {
  }

  /** The accumulator of an open block holds exactly its own parts since its latest start. */
  lemma {:induction false} ToolHistory(evs: seq<Ev>, n: nat, i: int) returns (j: nat)
    requires n <= |evs| && i in After(evs, n).tools
    ensures OpenSince(evs, n, i, j)
    ensures After(evs, n).tools[i] == Tool(evs[j].id, evs[j].name, Parts(evs, j + 1, n, i))
  {
    hide Apply, Part;
    var e := evs[n - 1];
    ApplyTool(After(evs, n - 1), e, i);
    if e.Start? && e.index == i {
      j := n - 1;
    } else {
      j := ToolHistory(evs, n - 1, i);
    }
  }

  lemma {:induction false} TextHistory(evs: seq<Ev>, n: nat)
    requires n <= |evs|
    ensures After(evs, n).text == Texts(evs, n)
  {
    if n > 0 { TextHistory(evs, n - 1); }
  }

  /** Where block i was last started and not stopped since, before event n. */
  function OpenedAt(evs: seq<Ev>, n: nat, i: int): Option<nat>
    requires n <= |evs|
  {
    if n == 0 then None
    else if !Touches(evs[n - 1], i) then OpenedAt(evs, n - 1, i)
    else if evs[n - 1].Start? then Some(n - 1) else None
  }

  lemma {:induction false} OpenedIff(evs: seq<Ev>, n: nat, i: int, j: nat)
    requires n <= |evs|
    ensures OpenedAt(evs, n, i) == Some(j) <==> OpenSince(evs, n, i, j)
  {
    if n > 0 && !Touches(evs[n - 1], i) { OpenedIff(evs, n - 1, i, j); }
  }

  /** A block has an accumulator exactly while it is open, with its own id, name and parts. */
  lemma {:induction false} ToolsAre(evs: seq<Ev>, n: nat, i: int)
    requires n <= |evs|
    ensures i in After(evs, n).tools <==> OpenedAt(evs, n, i).Some?
    ensures OpenedAt(evs, n, i).Some? ==>
      var j := OpenedAt(evs, n, i).value;
      && j < n && evs[j].Start?
      && After(evs, n).tools[i] == Tool(evs[j].id, evs[j].name, Parts(evs, j + 1, n, i))
  {
    if n > 0 {
      ToolsAre(evs, n - 1, i);
      hide After, OpenedAt, Parts, Apply;
      ToolStep(evs, n, i);
    }
  }

  lemma ToolStep(evs: seq<Ev>, n: nat, i: int)
    requires 0 < n <= |evs|
    ensures var a, b, e := After(evs, n - 1).tools, After(evs, n).tools, evs[n - 1];
      && OpenedAt(evs, n, i) ==
           (if !Touches(e, i) then OpenedAt(evs, n - 1, i) else if e.Start? then Some((n - 1) as nat) else None)
      && (i in b <==> if Touches(e, i) then e.Start? else i in a)
      && (Touches(e, i) && e.Start? ==> b[i] == Tool(e.id, e.name, "") && Parts(evs, n, n, i) == "")
      && (!Touches(e, i) && i in a ==> b[i] == a[i].(json := a[i].json + Part(e, i)))
      && forall j :: 0 < j < n ==> Parts(evs, j, n, i) == Parts(evs, j, n - 1, i) + Part(e, i)
  {
  }

  // ---------------------------------------------------------------- main results

  /** The chunk that event i calls for, in terms of the events alone. */
  function ChunkFor(evs: seq<Ev>, i: nat): Option<Chunk>
    requires i < |evs|
  {
    match evs[i]
    case Text(t) => Some(Chunk(t, None, "", None, false, Texts(evs, i + 1), None))
    case Stop(x) =>
      (match OpenedAt(evs, i, x)
       case None => None
       case Some(j) =>
         if j < i && evs[j].Start?
         then Some(Chunk("", Some(ToolUse(evs[j].id, evs[j].name, Parts(evs, j + 1, i, x))), "", None, false, Texts(evs, i), None))
         else None)
    case Message(r, n) => Some(Chunk("", None, r, Some(n), false, Texts(evs, i), None))
    case Cancelled => Some(Chunk("", None, "", None, true, Texts(evs, i), Some(Timeout)))
    case ScanFailed => Some(Chunk("", None, "", None, true, Texts(evs, i), Some(Upstream)))
    case _ => None
  }

  function ChunksFor(evs: seq<Ev>, n: nat): seq<Chunk>
    requires n <= |evs|
  {
    if n == 0 then [] else ChunksFor(evs, n - 1) + Listed(ChunkFor(evs, n - 1))
  }

  /** Where the stream ends: behind the first event from n on that ends it. */
  function EndAt(evs: seq<Ev>, n: nat): (m: nat)
    requires n <= |evs|
    ensures n <= m <= |evs|
    ensures forall k :: n <= k < m - 1 ==> !evs[k].End? && !evs[k].Cancelled? && !evs[k].ScanFailed?
    ensures m < |evs| ==> m > n && (evs[m - 1].End? || evs[m - 1].Cancelled? || evs[m - 1].ScanFailed?)
    decreases |evs| - n
  {
    if n == |evs| then n else if Ends(evs[n]) then n + 1 else EndAt(evs, n + 1)
  }

  lemma ChunkIs(evs: seq<Ev>, n: nat)
    requires n < |evs|
    ensures ChunkOf(After(evs, n), evs[n]) == ChunkFor(evs, n)
  {
    hide After, OpenedAt, Parts, Apply, Texts;
    TextHistory(evs, n);
    match evs[n]
    case Text(t) => TextStep(evs, n);
    case Stop(x) => ToolChunkIs(evs, n);
    case _ =>
  }

  lemma TextStep(evs: seq<Ev>, n: nat)
    requires n < |evs| && evs[n].Text?
    ensures Texts(evs, n + 1) == Texts(evs, n) + evs[n].text
  {
  }

  lemma ToolChunkIs(evs: seq<Ev>, n: nat)
    requires n < |evs| && evs[n].Stop?
    ensures ChunkOf(After(evs, n), evs[n]) == ChunkFor(evs, n)
  {
    hide After, OpenedAt, Parts, Apply, Texts;
    TextHistory(evs, n);
    ToolsAre(evs, n, evs[n].index);
  }

  lemma {:induction false} OutputFrom(evs: seq<Ev>, n: nat)
    requires n <= |evs|
    ensures ChunksFor(evs, n) + Output(After(evs, n), evs[n..]) == ChunksFor(evs, EndAt(evs, n))
    decreases |evs| - n
  {
    hide ChunkOf, ChunkFor, Apply, Ends, Output;
    if n == |evs| {
      assert evs[n..] == [];
      NoOutput(After(evs, n));
    } else {
      var e, rest := evs[n], evs[n + 1..];
      assert evs[n..] == [e] + rest;
      ChunkIs(evs, n);
      OutputStep(After(evs, n), e, rest);
      Regroup(ChunksFor(evs, n), Listed(ChunkFor(evs, n)),
              if Ends(e) then [] else Output(Apply(After(evs, n), e), rest));
      if !Ends(e) { OutputFrom(evs, n + 1); }
    }
  }

  /** What the stream carries, in terms of the events alone: in order, one chunk for each event up to
      the end that calls for one. So every text, every stop of an open block, every message and every
      failure has its chunk. */
  lemma StreamCarries(evs: seq<Ev>)
    ensures Output(EMPTY, evs) == ChunksFor(evs, EndAt(evs, 0))
  {
    OutputFrom(evs, 0);
    assert evs[0..] == evs && After(evs, 0) == EMPTY;
    assert ChunksFor(evs, 0) == [];
    hide Output, ChunksFor;
    assert [] + Output(EMPTY, evs) == Output(EMPTY, evs);
  }

  lemma {:induction false} ChunkIsListed(evs: seq<Ev>, i: nat, n: nat)
    requires i < n <= |evs| && ChunkFor(evs, i).Some?
    ensures ChunkFor(evs, i).value in ChunksFor(evs, n)
  {
    hide ChunkFor;
    if i < n - 1 { ChunkIsListed(evs, i, n - 1); }
  }

  /** The stop of an open block puts its tool call out. */
  lemma ToolCallComesOut(evs: seq<Ev>, i: nat, j: nat) returns (c: Chunk)
    requires i < |evs| && evs[i].Stop? && OpenSince(evs, i, evs[i].index, j)
    requires forall k :: 0 <= k < i ==> !Ends(evs[k])
    ensures c in Output(EMPTY, evs) && c.tool.Some? && ToolFrom(evs, i, j, c.tool.value)
  {
    OpenedIff(evs, i, evs[i].index, j);
    c := ChunkFor(evs, i).value;
    StreamCarries(evs);
    ChunkIsListed(evs, i, EndAt(evs, 0));
    hide Output, ChunksFor, Texts, Parts, OpenedAt;
  }

  /** Chunk c is put out by event i, on the accumulators of the events before it, none of which
      ended the stream. */
  ghost predicate PutOutBy(evs: seq<Ev>, i: nat, c: Chunk)
  {
    i < |evs| && ChunkOf(After(evs, i), evs[i]) == Some(c) && forall k :: 0 <= k < i ==> !Ends(evs[k])
  }

  lemma OutputHead(a: Acc, evs: seq<Ev>, c: Chunk)
    requires c in Output(a, evs)
    ensures evs != []
    ensures ChunkOf(a, evs[0]) == Some(c) || (!Ends(evs[0]) && c in Output(Apply(a, evs[0]), evs[1..]))
  {
  }

  /** Every chunk of the unbounded output is put out by one event. */
  lemma {:induction false} OutputOrigin(evs: seq<Ev>, n: nat, c: Chunk) returns (i: nat)
    requires n <= |evs| && c in Output(After(evs, n), evs[n..])
    requires forall k :: 0 <= k < n ==> !Ends(evs[k])
    ensures PutOutBy(evs, i, c)
    decreases |evs| - n
  {
    hide ChunkOf, Apply, Output, Ends;
    OutputHead(After(evs, n), evs[n..], c);
    assert evs[n..][0] == evs[n] && evs[n..][1..] == evs[n + 1..];
    if ChunkOf(After(evs, n), evs[n]) == Some(c) {
      i := n;
    } else {
      i := OutputOrigin(evs, n + 1, c);
    }
  }

  lemma ChunkContent(a: Acc, e: Ev, c: Chunk)
    requires ChunkOf(a, e) == Some(c)
    ensures c.soFar == a.text + (if e.Text? then e.text else "")
    ensures c.tool.Some? ==>
      && e.Stop? && e.index in a.tools
      && c.tool.value == ToolUse(a.tools[e.index].id, a.tools[e.index].name, a.tools[e.index].json)
  {
  }

  /** t is the content of a block that was last started at j and stops at i: exactly its own
      partial inputs in between. */
  ghost predicate ToolFrom(evs: seq<Ev>, i: nat, j: nat, t: ToolUse)
  {
    && i < |evs| && evs[i].Stop? && OpenSince(evs, i, evs[i].index, j)
    && t == ToolUse(evs[j].id, evs[j].name, Parts(evs, j + 1, i, evs[i].index))
  }

  /** Blocks never mix: the input of every tool call put out is the concatenation of exactly the
      partial inputs of its own block since that block's latest start, whatever other blocks do
      in between; and every chunk carries all text so far. */
  lemma ToolCallsNeverMix(evs: seq<Ev>, c: Chunk) returns (i: nat, j: nat)
    requires c in Output(EMPTY, evs)
    ensures PutOutBy(evs, i, c) && c.soFar == Texts(evs, i + 1)
    ensures c.tool.Some? ==> ToolFrom(evs, i, j, c.tool.value)
  {
    j := 0;
    assert evs[0..] == evs;
    hide ChunkOf, Output, Ends, Apply;
    i := OutputOrigin(evs, 0, c);
    ChunkContent(After(evs, i), evs[i], c);
    TextHistory(evs, i);
    if c.tool.Some? { j := ToolHistory(evs, i, evs[i].index); }
  }

  /** With ConsumerView: a consumer of any speed sees consistent text. */
  lemma {:induction false} OutputCoherent(a: Acc, evs: seq<Ev>, before: seq<Chunk>)
    requires Coherent(before) && Deltas(before) == a.text
    ensures Coherent(before + Output(a, evs))
    decreases |evs|
  {
    hide *;
    if evs == [] {
      NoOutput(a);
      assert before + [] == before;
    } else {
      var e, rest := evs[0], evs[1..];
      assert evs == [e] + rest;
      OutputStep(a, e, rest);
      AddedCoherent(a, e, before);
      var now := before + Listed(ChunkOf(a, e));
      var more := if Ends(e) then [] else Output(Apply(a, e), rest);
      Regroup(before, Listed(ChunkOf(a, e)), more);
      if Ends(e) {
        assert now + [] == now;
      } else {
        OutputCoherent(Apply(a, e), rest, now);
      }
    }
  }

  lemma NoOutput(a: Acc)
    ensures Output(a, []) == []
  {
  }

  lemma Regroup(x: seq<Chunk>, y: seq<Chunk>, z: seq<Chunk>)
    ensures x + (y + z) == x + y + z
  {
  }

  /** One event keeps the stream coherent and its text right. */
  lemma AddedCoherent(a: Acc, e: Ev, before: seq<Chunk>)
    requires Coherent(before) && Deltas(before) == a.text
    ensures var now := before + Listed(ChunkOf(a, e)); Coherent(now) && Deltas(now) == Apply(a, e).text
  {
    ChunkKeepsText(a, e);
    var c := ChunkOf(a, e);
    hide Coherent, Deltas, ChunkOf, Apply;
    if c.Some? {
      CoherentAppend(before, c.value);
      DeltasAppend(before, c.value);
    } else {
      assert before + [] == before;
    }
  }

  lemma SseCoherent(evs: seq<Ev>)
    ensures Coherent(Output(EMPTY, evs))
  {
    OutputCoherent(EMPTY, evs, []);
    assert [] + Output(EMPTY, evs) == Output(EMPTY, evs);
  }

  lemma ChunkKeepsText(a: Acc, e: Ev)
    ensures ChunkOf(a, e).Some? ==> ChunkOf(a, e).value.soFar == a.text + ChunkOf(a, e).value.delta
    ensures Apply(a, e).text == a.text + (if ChunkOf(a, e).Some? then ChunkOf(a, e).value.delta else "")
  {
  }
}
