/** The bounded, never-waiting output of the streaming gateway: what a consumer of any speed
    receives, compared with what an unbounded buffer would have carried. */
module GatewayStream {

  import opened Collections

  datatype ToolUse = ToolUse(id: string, name: string, inputJson: string)

  /** The code of a gateway error. */
  datatype Code = Upstream | Timeout | BufferOverflow

  /** GatewayStreamChunk. */
  datatype Chunk = Chunk(
    delta: string, tool: Option<ToolUse>, stop: string, usage: Option<int>,
    partial: bool, soFar: string, error: Option<Code>)

  function TextChunk(delta: string, stop: string, soFar: string): Chunk
  {
    Chunk(delta, None, stop, None, false, soFar, None)
  }

  function ErrorChunk(code: Code, soFar: string): Chunk
  {
    Chunk("", None, "", None, true, soFar, Some(code))
  }

  /** The overflow error that stands for chunk c. */
  function OverflowOf(c: Chunk): Chunk { Chunk("", None, "", None, true, c.soFar, Some(BufferOverflow)) }

  // ---------------------------------------------------------------- the channel

  const CAPACITY: nat := 4096

  /** The consumer's speed: how many chunks it has taken when the i-th channel operation runs. */
  type Pace = nat -> nat

  predicate Full(sent: seq<Chunk>, taken: nat)
  {
    |sent| >= CAPACITY && taken <= |sent| - CAPACITY
  }

  /** What a producer has sent, and how many channel operations it has made. */
  datatype Out = Out(sent: seq<Chunk>, ops: nat)

  /** tryEmit: drops the chunk when the channel is full. */
  function TryEmit(out: Out, c: Chunk, pace: Pace): Out
  {
    Out(if Full(out.sent, pace(out.ops)) then out.sent else out.sent + [c], out.ops + 1)
  }

  /** emitOrOverflow: on a full channel it tries to send the overflow error instead, by which
      time the consumer may have made room, and tells the producer to stop. */
  function EmitOrOverflow(out: Out, c: Chunk, pace: Pace): (Out, bool)
  {
    if !Full(out.sent, pace(out.ops)) then (Out(out.sent + [c], out.ops + 1), true)
    else (TryEmit(Out(out.sent, out.ops + 1), ErrorChunk(BufferOverflow, c.soFar), pace), false)
  }

  // ---------------------------------------------------------------- what arrives

  /** sent is a prefix of what an unbounded buffer would carry, possibly followed by one
      overflow error that stands for the chunk that found the buffer full. */
  ghost predicate Delivered(full: seq<Chunk>, sent: seq<Chunk>)
  {
    || sent <= full
    || (exists n :: 0 <= n < |full| && sent == full[..n] + [OverflowOf(full[n])])
  }

  function Deltas(cs: seq<Chunk>): string
  {
    if cs == [] then "" else Deltas(cs[..|cs| - 1]) + cs[|cs| - 1].delta
  }

  /** Every chunk's content so far is all text up to and including it. */
  ghost predicate Coherent(full: seq<Chunk>)
  {
    forall n :: 0 < n <= |full| ==> full[n - 1].soFar == Deltas(full[..n])
  }

  /** After receiving any number of chunks, the text received is a prefix of the last chunk's
      content so far, and equal to it unless that chunk is the overflow error. */
  lemma ConsumerView(full: seq<Chunk>, sent: seq<Chunk>, k: nat)
    requires Coherent(full) && Delivered(full, sent) && 0 < k <= |sent|
    ensures Deltas(sent[..k]) <= sent[k - 1].soFar
    ensures sent[k - 1].error != Some(BufferOverflow) ==> Deltas(sent[..k]) == sent[k - 1].soFar
  {
    hide Deltas;
    if sent <= full {
      assert sent[..k] == full[..k];
    } else {
      var n :| 0 <= n < |full| && sent == full[..n] + [OverflowOf(full[n])];
      if k <= n {
        assert sent[..k] == full[..k];
      } else {
        assert sent[..k] == sent;
        DeltasAppend(full[..n], OverflowOf(full[n]));
        DeltasAppend(full[..n], full[n]);
        assert full[..n] + [full[n]] == full[..n + 1];
      }
    }
  }

  lemma DeltasAppend(cs: seq<Chunk>, c: Chunk)
    ensures Deltas(cs + [c]) == Deltas(cs) + c.delta
  {
  }

  lemma CoherentAppend(full: seq<Chunk>, c: Chunk)
    requires Coherent(full) && c.soFar == Deltas(full) + c.delta
    ensures Coherent(full + [c])
  {
    hide Deltas;
    var all := full + [c];
    DeltasAppend(full, c);
    forall n | 0 < n <= |all| ensures all[n - 1].soFar == Deltas(all[..n]) {
      if n <= |full| {
        assert all[..n] == full[..n];
      } else {
        assert all[..n] == all;
      }
    }
  }

  // ---------------------------------------------------------------- where the stream is cut

  /** With n chunks sent, the channel is full when the consumer has taken this many. */
  predicate Stuck(n: nat, taken: nat) { n >= CAPACITY && taken <= n - CAPACITY }

  /** The first chunk from n on that finds the channel full, or len; the chunk with number k is sent
      by the channel operation with number k. */
  function FirstStuck(n: nat, len: nat, pace: Pace): (k: nat)
    requires n <= len
    ensures n <= k <= len && (k < len ==> Stuck(k, pace(k)))
    decreases len - n
  {
    if n == len || Stuck(n, pace(n)) then n else FirstStuck(n + 1, len, pace)
  }

  /** What exactly is sent. A chunk that finds the channel full is replaced by the overflow error if
      the consumer made room before the next operation, and lost otherwise. With tries, an error
      chunk is only tried, and lost without replacement. */
  function Carried(full: seq<Chunk>, pace: Pace, tries: bool): seq<Chunk>
  {
    var n := FirstStuck(0, |full|, pace);
    if n == |full| then full
    else if (tries && full[n].error.Some?) || Stuck(n, pace(n + 1)) then full[..n]
    else full[..n] + [OverflowOf(full[n])]
  }

  /** What is sent is Delivered; a stream no longer than the buffer is never cut. */
  lemma CarriedDelivered(full: seq<Chunk>, pace: Pace, tries: bool)
    ensures Delivered(full, Carried(full, pace, tries))
    ensures |full| <= CAPACITY ==> Carried(full, pace, tries) == full
  {
  }

  ghost predicate EndsInOverflow(sent: seq<Chunk>)
  {
    sent != [] && sent[|sent| - 1].error == Some(BufferOverflow)
  }

  /** The file header promises a BUFFER_OVERFLOW chunk when the buffer is full. A cut stream ends
      with one if and only if the chunk that found the channel full was not one that is only tried,
      and the consumer took a chunk between the two operations. */
  lemma OverflowReportedIff(full: seq<Chunk>, pace: Pace, tries: bool)
    requires forall c :: c in full ==> c.error != Some(BufferOverflow)
    ensures var n := FirstStuck(0, |full|, pace);
      EndsInOverflow(Carried(full, pace, tries)) <==>
        n < |full| && !(tries && full[n].error.Some?) && !Stuck(n, pace(n + 1))
  {
    hide EndsInOverflow, FirstStuck, Stuck, OverflowOf;
    var n := FirstStuck(0, |full|, pace);
    PrefixHasNone(full, full);
    PrefixHasNone(full, full[..n]);
    if n < |full| { OverflowIsLast(full[..n], full[n]); }
  }

  lemma PrefixHasNone(full: seq<Chunk>, sent: seq<Chunk>)
    requires sent <= full && forall c :: c in full ==> c.error != Some(BufferOverflow)
    ensures !EndsInOverflow(sent)
  {
    if sent != [] { assert full[|sent| - 1] in full; }
  }

  lemma OverflowIsLast(sent: seq<Chunk>, c: Chunk)
    ensures EndsInOverflow(sent + [OverflowOf(c)])
  {
  }

  /** A consumer that takes nothing is sent the first 4096 chunks of a longer stream, and no error. */
  lemma {:induction false} SilentCutExample(full: seq<Chunk>, tries: bool, n: nat)
    requires |full| > 4096 && n <= 4096
    ensures FirstStuck(n, |full|, (i: nat) => 0) == 4096
    ensures n == 0 ==> Carried(full, (i: nat) => 0, tries) == full[..4096]
    decreases 4096 - n
  {
    if n < 4096 { SilentCutExample(full, tries, n + 1); }
  }

  /** The producer has not met a full channel so far. */
  ghost predicate Going(full: seq<Chunk>, out: Out, pace: Pace)
  {
    && out.sent <= full && out.ops == |out.sent|
    && FirstStuck(0, |full|, pace) == FirstStuck(|out.sent|, |full|, pace)
  }

  lemma GoesFromStart(full: seq<Chunk>, pace: Pace)
    ensures Going(full, Out([], 0), pace)
  {
  }

  /** Sending the next chunk either goes on or ends the stream as Carried says. */
  lemma EmitDelivers(full: seq<Chunk>, out: Out, c: Chunk, pace: Pace, tries: bool)
    requires Going(full, out, pace) && |out.sent| < |full| && full[|out.sent|] == c
    requires !(tries && c.error.Some?)
    ensures var e := EmitOrOverflow(out, c, pace);
      if e.1 then Going(full, e.0, pace) && e.0.sent == out.sent + [c]
      else e.0.sent == Carried(full, pace, tries)
  {
  }

  /** An error chunk that is only tried is sent or lost. */
  lemma TryEmitDelivers(full: seq<Chunk>, out: Out, c: Chunk, pace: Pace)
    requires Going(full, out, pace) && full == out.sent + [c] && c.error.Some?
    ensures TryEmit(out, c, pace).sent == Carried(full, pace, true)
  {
  }

  lemma AllSent(full: seq<Chunk>, out: Out, pace: Pace, tries: bool)
    requires Going(full, out, pace) && out.sent == full
    ensures full == Carried(full, pace, tries)
  {
  }

  // ---------------------------------------------------------------- StreamComplete

  /** What the provider's channel yields. */
  datatype Raw = RawError | RawDelta(delta: string, done: bool)

  /** The chunk made from one raw item, given the text before it. */
  function Packed(raw: Raw, acc: string): Chunk
  {
    match raw
    case RawError => ErrorChunk(Upstream, acc)
    case RawDelta(d, done) => TextChunk(d, if done then "stop" else "", acc + d)
  }

  predicate Last(raw: Raw) { raw.RawError? || raw.done }

  function Pump(raws: seq<Raw>, acc: string): seq<Chunk>
  {
    if raws == [] then []
    else
      var c := Packed(raws[0], acc);
      [c] + (if Last(raws[0]) then [] else Pump(raws[1..], c.soFar))
  }

  /** What an unbounded buffer would carry. A provider that cannot start yields one error. */
  function Unbounded(startError: bool, raws: seq<Raw>): seq<Chunk>
  {
    if startError then [ErrorChunk(Upstream, "").(partial := false)] else Pump(raws, "")
  }

  /** Where taking raw items from i on ends: behind the first last one. */
  function Taken(raws: seq<Raw>, i: nat): (n: nat)
    requires i <= |raws|
    ensures i <= n <= |raws| && (forall k :: i <= k < n - 1 ==> raws[k].RawDelta? && !raws[k].done)
    ensures n < |raws| ==> n > i && (raws[n - 1].RawError? || raws[n - 1].done)
    decreases |raws| - i
  {
    if i == |raws| then i else if Last(raws[i]) then i + 1 else Taken(raws, i + 1)
  }

  /** The text of the first n raw items. */
  function RawText(raws: seq<Raw>, n: nat): string
    requires n <= |raws|
  {
    if n == 0 then "" else RawText(raws, n - 1) + (if raws[n - 1].RawDelta? then raws[n - 1].delta else "")
  }

  /** The chunk that raw item k calls for, in terms of the raw items alone. */
  function ChunkFor(raws: seq<Raw>, k: nat): Chunk
    requires k < |raws|
  {
    match raws[k]
    case RawError => Chunk("", None, "", None, true, RawText(raws, k), Some(Upstream))
    case RawDelta(d, done) => Chunk(d, None, if done then "stop" else "", None, false, RawText(raws, k + 1), None)
  }

  function ChunksFor(raws: seq<Raw>, a: nat, b: nat): (cs: seq<Chunk>)
    requires a <= b <= |raws|
    ensures |cs| == b - a && forall k :: 0 <= k < b - a ==> cs[k] == ChunkFor(raws, a + k)
  {
    seq(b - a, k requires 0 <= k < b - a => ChunkFor(raws, a + k))
  }

  lemma ChunksForCons(raws: seq<Raw>, a: nat, b: nat)
    requires a < b <= |raws|
    ensures ChunksFor(raws, a, b) == [ChunkFor(raws, a)] + ChunksFor(raws, a + 1, b)
  {
    hide ChunkFor;
  }

  lemma {:induction false} PumpIs(raws: seq<Raw>, i: nat)
    requires i <= |raws|
    ensures Pump(raws[i..], RawText(raws, i)) == ChunksFor(raws, i, Taken(raws, i))
    decreases |raws| - i
  {
    if i < |raws| {
      assert Packed(raws[i], RawText(raws, i)) == ChunkFor(raws, i);
      assert !Last(raws[i]) ==> ChunkFor(raws, i).soFar == RawText(raws, i + 1);
      hide ChunkFor, Packed, RawText, Pump;
      assert raws[i..][1..] == raws[i + 1..];
      PumpStep(raws[i..], RawText(raws, i));
      ChunksForCons(raws, i, Taken(raws, i));
      if !Last(raws[i]) { PumpIs(raws, i + 1); }
    }
  }

  /** What the stream carries, in terms of the raw items alone: one chunk for each item taken, in
      order, with that item's text and all text up to it, "stop" exactly on the item that says it is
      the last, and an error exactly for an error; or one error if the provider did not start. */
  lemma StreamCarries(startError: bool, raws: seq<Raw>)
    ensures startError ==> Unbounded(startError, raws) == [Chunk("", None, "", None, false, "", Some(Upstream))]
    ensures !startError ==>
      && |Unbounded(startError, raws)| == Taken(raws, 0)
      && forall k :: 0 <= k < Taken(raws, 0) ==> Unbounded(startError, raws)[k] == ChunkFor(raws, k)
  {
    assert raws[0..] == raws && RawText(raws, 0) == "";
    PumpIs(raws, 0);
    hide ChunkFor, Pump, RawText;
  }

  /** All text is carried: the deltas of the stream are the text of the items taken. */
  lemma TextIsCarried(raws: seq<Raw>)
    ensures Deltas(Unbounded(false, raws)) == RawText(raws, Taken(raws, 0))
  {
    hide *;
    StreamCarries(false, raws);
    ChunksText(raws, Unbounded(false, raws), Taken(raws, 0));
    assert Unbounded(false, raws)[..Taken(raws, 0)] == Unbounded(false, raws);
  }

  lemma {:induction false} ChunksText(raws: seq<Raw>, full: seq<Chunk>, n: nat)
    requires n <= |full| <= |raws| && forall k :: 0 <= k < |full| ==> full[k] == ChunkFor(raws, k)
    ensures Deltas(full[..n]) == RawText(raws, n)
  {
    if n > 0 {
      hide Deltas;
      ChunksText(raws, full, n - 1);
      assert full[..n] == full[..n - 1] + [full[n - 1]];
      DeltasAppend(full[..n - 1], full[n - 1]);
    } else {
      assert full[..0] == [];
    }
  }

  /** StreamComplete's goroutine. */
  method StreamComplete(startError: bool, raws: seq<Raw>, pace: Pace) returns (sent: seq<Chunk>)
    ensures sent == Carried(Unbounded(startError, raws), pace, true)
    ensures Delivered(Unbounded(startError, raws), sent)
    ensures |Unbounded(startError, raws)| <= CAPACITY ==> sent == Unbounded(startError, raws)
  {
    hide Packed, EmitOrOverflow, TryEmit, Delivered, Carried, Going;
    var out := Out([], 0);
    ghost var full := Unbounded(startError, raws);
    CarriedDelivered(full, pace, true);
    GoesFromStart(full, pace);
    if startError {
      var c := ErrorChunk(Upstream, "").(partial := false);
      TryEmitDelivers(full, out, c, pace);
      out := TryEmit(out, c, pace);
      return out.sent;
    }
    var acc := "";
    for i := 0 to |raws|
      invariant full == out.sent + Pump(raws[i..], acc) && Going(full, out, pace)
    {
      NextChunk(full, out.sent, raws, i, acc);
      PackedAs(raws[i], acc);
      if raws[i].RawError? {
        var chunk := ErrorChunk(Upstream, acc);
        TryEmitDelivers(full, out, chunk, pace);
        out := TryEmit(out, chunk, pace);
        return out.sent;
      }
      acc := acc + raws[i].delta;
      var chunk := TextChunk(raws[i].delta, "", acc);
      if raws[i].done { chunk := chunk.(stop := "stop"); }
      EmitDelivers(full, out, chunk, pace, true);
      var emitted := EmitOrOverflow(out, chunk, pace);
      out := emitted.0;
      if !emitted.1 { return out.sent; }
      if raws[i].done {
        AllSent(full, out, pace, true);
        return out.sent;
      }
    }
    assert raws[|raws|..] == [];
    AllSent(full, out, pace, true);
    sent := out.sent;
  }

  lemma PackedAs(raw: Raw, acc: string)
    ensures Packed(raw, acc) == match raw
      case RawError => ErrorChunk(Upstream, acc)
      case RawDelta(d, done) => TextChunk(d, "", acc + d).(stop := if done then "stop" else "")
  {
  }

  lemma NextChunk(full: seq<Chunk>, sent: seq<Chunk>, raws: seq<Raw>, i: nat, acc: string)
    requires i < |raws| && full == sent + Pump(raws[i..], acc)
    ensures var c := Packed(raws[i], acc);
      && |sent| < |full| && sent <= full && full[|sent|] == c && (c.error.Some? <==> raws[i].RawError?)
      && full == sent + [c] + (if Last(raws[i]) then [] else Pump(raws[i + 1..], c.soFar))
  {
  }

  lemma {:induction false} PumpCoherent(raws: seq<Raw>, acc: string, before: seq<Chunk>)
    requires Coherent(before) && Deltas(before) == acc
    ensures Coherent(before + Pump(raws, acc))
    decreases |raws|
  {
    hide Packed, Coherent, Deltas;
    if raws == [] {
      assert before + Pump(raws, acc) == before;
    } else {
      hide Pump;
      var c := Packed(raws[0], acc);
      PackedSoFar(raws[0], acc);
      PumpStep(raws, acc);
      CoherentAppend(before, c);
      DeltasAppend(before, c);
      if !Last(raws[0]) {
        PumpCoherent(raws[1..], c.soFar, before + [c]);
        assert before + ([c] + Pump(raws[1..], c.soFar)) == before + [c] + Pump(raws[1..], c.soFar);
      }
    }
  }

  lemma PackedSoFar(raw: Raw, acc: string)
    ensures Packed(raw, acc).soFar == acc + Packed(raw, acc).delta
  {
  }

  lemma PumpStep(raws: seq<Raw>, acc: string)
    requires raws != []
    ensures var c := Packed(raws[0], acc);
      Pump(raws, acc) == if Last(raws[0]) then [c] else [c] + Pump(raws[1..], c.soFar)
  {
  }

  lemma {:induction false} PumpNoOverflow(raws: seq<Raw>, acc: string, c: Chunk)
    requires c in Pump(raws, acc)
    ensures c.error != Some(BufferOverflow)
    decreases |raws|
  {
    if c != Packed(raws[0], acc) { PumpNoOverflow(raws[1..], Packed(raws[0], acc).soFar, c); }
  }

  /** When StreamComplete reports that it cut the stream. */
  lemma StreamReportsIff(startError: bool, raws: seq<Raw>, pace: Pace)
    ensures var full := Unbounded(startError, raws);
      var n := FirstStuck(0, |full|, pace);
      EndsInOverflow(Carried(full, pace, true)) <==>
        n < |full| && full[n].error.None? && !Stuck(n, pace(n + 1))
  {
    var full := Unbounded(startError, raws);
    forall c | c in full ensures c.error != Some(BufferOverflow) {
      if !startError { PumpNoOverflow(raws, "", c); }
    }
    OverflowReportedIff(full, pace, true);
  }

  /** For every provider output: the unbounded stream keeps its accumulated text right, so with
      ConsumerView every consumer sees consistent text. */
  lemma StreamCoherent(startError: bool, raws: seq<Raw>)
    ensures Coherent(Unbounded(startError, raws))
  {
    if startError {
      CoherentAppend([], Unbounded(startError, raws)[0]);
      assert [] + [Unbounded(startError, raws)[0]] == Unbounded(startError, raws);
    } else {
      PumpCoherent(raws, "", []);
      assert [] + Pump(raws, "") == Pump(raws, "");
    }
  }
}
