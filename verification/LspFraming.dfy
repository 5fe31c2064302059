/** The Content-Length framing of the language-server client: the writer of one frame, the
    reader loop, and the proof that the reader inverts the writer on every finite sequence of
    bodies, on every truncation of the stream, and in the presence of other header fields. */
module LspFraming {

  newtype byte = x: int | 0 <= x < 256

  type Bytes = seq<byte>

  const MAX_INT: int := 0x7fff_ffff_ffff_ffff
  const MAX_UINT: int := 0xffff_ffff_ffff_ffff

  // A Go slice is indexed by int, so no body is longer than this.
  type Body = b: Bytes | |b| <= MAX_INT

  const CR: byte := 13
  const LF: byte := 10
  const CRLF: Bytes := [CR, LF]

  // "Content-Length:"
  const FIELD: Bytes := [67, 111, 110, 116, 101, 110, 116, 45, 76, 101, 110, 103, 116, 104, 58]

  // ---------------------------------------------------------------- decimal numbers

  predicate IsDigit(c: byte) { 48 <= c <= 57 }

  /** The %d verb on a length. */
  function Decimal(n: nat): (s: Bytes)
    ensures |s| > 0 && forall i :: 0 <= i < |s| ==> IsDigit(s[i])
  {
    if n < 10 then [(48 + n) as byte] else Decimal(n / 10) + [(48 + n % 10) as byte]
  }

  datatype Scan = Syntax | Number(n: nat)

  /** The digit loop of strconv.ParseUint: it stops with the largest value as soon as the
      accumulator leaves 64 bits, and with a syntax error at a byte that is not a digit. */
  function ScanUint(s: Bytes, acc: nat): Scan
  {
    if s == [] then Number(acc)
    else if !IsDigit(s[0]) then Syntax
    else
      var n := acc * 10 + (s[0] - 48) as nat;
      if n > MAX_UINT then Number(MAX_UINT) else ScanUint(s[1..], n)
  }

  /** The value strconv.Atoi returns next to its (ignored) error: 0 on a syntax error, the
      nearest int on a range error. */
  function Atoi(s: Bytes): int
  {
    var neg := s != [] && s[0] == 45;
    var digits := if s != [] && (s[0] == 45 || s[0] == 43) then s[1..] else s;
    if digits == [] then 0
    else match ScanUint(digits, 0)
      case Syntax => 0
      case Number(m) =>
        var n: int := m;
        if neg then (if n > MAX_INT then -MAX_INT - 1 else 0 - n)
        else (if n > MAX_INT then MAX_INT else n)
  }

  lemma {:induction false} ScanAppend(s: Bytes, acc: nat, d: byte)
    requires ScanUint(s, acc).Number? && IsDigit(d)
    requires ScanUint(s, acc).n * 10 + (d - 48) as nat <= MAX_INT
    ensures ScanUint(s + [d], acc) == Number(ScanUint(s, acc).n * 10 + (d - 48) as nat)
  {
    if s == [] {
      assert s + [d] == [d];
      assert [d][1..] == [];
    } else {
      assert (s + [d])[1..] == s[1..] + [d];
      ScanAppend(s[1..], acc * 10 + (s[0] - 48) as nat, d);
    }
  }

  /** Reading a printed length gives the length back. */
  lemma {:induction false} DecimalScan(n: nat)
    requires n <= MAX_INT
    ensures ScanUint(Decimal(n), 0) == Number(n)
  {
    if n < 10 {
      assert Decimal(n)[1..] == [];
    } else {
      DecimalScan(n / 10);
      ScanAppend(Decimal(n / 10), 0, (48 + n % 10) as byte);
    }
  }

  lemma DecimalRoundTrip(n: nat)
    requires n <= MAX_INT
    ensures Atoi(Decimal(n)) == n
  {
    DecimalScan(n);
    assert IsDigit(Decimal(n)[0]);
  }

  // ---------------------------------------------------------------- lines

  predicate IsSpace(c: byte) { 9 <= c <= 13 || c == 32 }

  function TrimLeft(s: Bytes): (r: Bytes)
    ensures |r| <= |s|
  {
    if s != [] && IsSpace(s[0]) then TrimLeft(s[1..]) else s
  }

  function TrimRightSpace(s: Bytes): (r: Bytes)
    ensures |r| <= |s|
  {
    if s != [] && IsSpace(s[|s| - 1]) then TrimRightSpace(s[..|s| - 1]) else s
  }

  function TrimSpace(s: Bytes): Bytes { TrimRightSpace(TrimLeft(s)) }

  /** strings.TrimRight(line, "\r\n") */
  function TrimEol(s: Bytes): (r: Bytes)
    ensures |r| <= |s|
  {
    if s != [] && (s[|s| - 1] == CR || s[|s| - 1] == LF) then TrimEol(s[..|s| - 1]) else s
  }

  /** Position of the first line feed, or the length of the input when there is none. */
  function Newline(s: Bytes): (i: nat)
    ensures i <= |s|
    ensures i < |s| ==> s[i] == LF
    ensures forall j :: 0 <= j < i ==> s[j] != LF
  {
    if s == [] || s[0] == LF then 0 else 1 + Newline(s[1..])
  }

  lemma NewlineAt(s: Bytes, i: nat)
    requires i < |s| && s[i] == LF
    requires forall j :: 0 <= j < i ==> s[j] != LF
    ensures Newline(s) == i
  {
  }

  // ---------------------------------------------------------------- reader

  datatype HeaderPart = HeaderEof | HeaderEnd(length: int, rest: Bytes)

  /** What one header line does to the announced length; the last Content-Length field wins. */
  function Field(line: Bytes, length: int): int
  {
    if FIELD <= line then Atoi(TrimSpace(line[|FIELD|..])) else length
  }

  function Header(input: Bytes, length: int): (h: HeaderPart)
    ensures h.HeaderEnd? ==> |h.rest| < |input|
    decreases |input|
  {
    var nl := Newline(input);
    if nl == |input| then HeaderEof
    else
      var line := TrimEol(input[..nl + 1]);
      if line == [] then HeaderEnd(length, input[nl + 1..])
      else Header(input[nl + 1..], Field(line, length))
  }

  datatype Ending = Cancelled | HeaderError | BodyError

  /** The bodies handed to the JSON decoder, why the loop ended, and the unread input. */
  datatype Outcome = Outcome(bodies: seq<Bytes>, ending: Ending, rest: Bytes)

  function Prepend(bodies: seq<Bytes>, o: Outcome): Outcome
  {
    o.(bodies := bodies + o.bodies)
  }

  /** The reader as a function of the bytes that will arrive before the transport closes;
      ctxDone(i) says whether iteration i finds the context done. */
  function Read(input: Bytes, i: nat, ctxDone: nat -> bool): Outcome
    decreases |input|
  {
    if ctxDone(i) then Outcome([], Cancelled, input)
    else match Header(input, -1)
      case HeaderEof => Outcome([], HeaderError, [])
      case HeaderEnd(n, rest) =>
        if n < 0 then Read(rest, i + 1, ctxDone)
        else if n > |rest| then Outcome([], BodyError, [])
        else Prepend([rest[..n]], Read(rest[n..], i + 1, ctxDone))
  }

  /** The read loop of Client.Start. */
  method Start(input: Bytes, ctxDone: nat -> bool) returns (out: Outcome)
    ensures out == Read(input, 0, ctxDone)
  {
    var rest, i, bodies := input, 0, [];
    while true
      invariant Read(input, 0, ctxDone) == Prepend(bodies, Read(rest, i, ctxDone))
      decreases |rest|
    {
      if ctxDone(i) { return Outcome(bodies, Cancelled, rest); }
      var contentLength := -1;
      ghost var h := Header(rest, -1);
      ghost var size := |rest|;
      while true
        invariant Header(rest, contentLength) == h
        invariant |rest| <= size
        invariant h.HeaderEnd? ==> |h.rest| < size
        decreases |rest|
      {
        var nl := Newline(rest);
        if nl == |rest| { return Outcome(bodies, HeaderError, []); }
        var line := TrimEol(rest[..nl + 1]);
        rest := rest[nl + 1..];
        if line == [] { break; }
        contentLength := Field(line, contentLength);
      }
      i := i + 1;
      if contentLength < 0 { continue; }
      if contentLength > |rest| { return Outcome(bodies, BodyError, []); }
      var body;
      body, rest := rest[..contentLength], rest[contentLength..];
      bodies := bodies + [body];
    }
  }

  // ---------------------------------------------------------------- writer

  function FieldLine(n: nat): Bytes
  {
    FIELD + [32] + Decimal(n)
  }

  /** Client.writeFrame after the JSON encoder. */
  function Frame(body: Body): Bytes
  {
    FieldLine(|body|) + CRLF + CRLF + body
  }

  /** A frame as any peer may write it: header fields before and after the Content-Length that counts,
      which is the last one. */
  datatype Wire = Wire(before: seq<Bytes>, body: Bytes, after: seq<Bytes>)

  /** A header field: one line, not blank, no line feed inside. */
  predicate AnyField(line: Bytes)
  {
    TrimEol(line) == line != [] && LF !in line
  }

  predicate OtherField(line: Bytes)
  {
    AnyField(line) && !(FIELD <= line)
  }

  predicate ValidWire(w: Wire)
  {
    && |w.body| <= MAX_INT
    && (forall l :: l in w.before ==> AnyField(l))
    && (forall l :: l in w.after ==> OtherField(l))
  }

  function Lines(ls: seq<Bytes>): Bytes
  {
    if ls == [] then [] else ls[0] + CRLF + Lines(ls[1..])
  }

  function HeaderText(w: Wire): Bytes
  {
    Lines(w.before) + (FieldLine(|w.body|) + CRLF) + Lines(w.after) + CRLF
  }

  function Encode(w: Wire): Bytes { HeaderText(w) + w.body }

  function EncodeAll(ws: seq<Wire>): Bytes
  {
    if ws == [] then [] else Encode(ws[0]) + EncodeAll(ws[1..])
  }

  function Bodies(ws: seq<Wire>): (bs: seq<Bytes>)
    ensures |bs| == |ws|
  {
    seq(|ws|, i requires 0 <= i < |ws| => ws[i].body)
  }

  /** What the client writes is the frame with no other field. */
  lemma FrameIsWire(body: Body)
    ensures Frame(body) == Encode(Wire([], body, [])) && ValidWire(Wire([], body, []))
  {
  }

  // ---------------------------------------------------------------- reading one header line

  lemma TrimEolCrlf(l: Bytes)
    ensures TrimEol(l + CRLF) == TrimEol(l)
  {
    assert (l + CRLF)[..|l| + 1] == l + [CR];
    assert (l + [CR])[..|l|] == l;
  }

  /** A header line followed by anything. */
  lemma HeaderLine(l: Bytes, tail: Bytes, length: int)
    requires LF !in l
    ensures TrimEol(l) == [] ==> Header(l + CRLF + tail, length) == HeaderEnd(length, tail)
    ensures TrimEol(l) != [] ==> Header(l + CRLF + tail, length) == Header(tail, Field(TrimEol(l), length))
  {
    var s := l + CRLF + tail;
    NewlineAt(s, |l| + 1);
    assert s[..|l| + 2] == l + CRLF;
    assert s[|l| + 2..] == tail;
    TrimEolCrlf(l);
  }

  /** The length announced after these fields. */
  function LengthAfter(ls: seq<Bytes>, length: int): int
  {
    if ls == [] then length else LengthAfter(ls[1..], Field(ls[0], length))
  }

  lemma {:induction false} HeaderLines(ls: seq<Bytes>, tail: Bytes, length: int)
    requires forall l :: l in ls ==> AnyField(l)
    ensures Header(Lines(ls) + tail, length) == Header(tail, LengthAfter(ls, length))
  {
    hide Field, Header;
    if ls == [] {
      assert Lines(ls) + tail == tail;
    } else {
      assert ls[0] in ls;
      assert Lines(ls) + tail == ls[0] + CRLF + (Lines(ls[1..]) + tail);
      HeaderLine(ls[0], Lines(ls[1..]) + tail, length);
      HeaderLines(ls[1..], tail, Field(ls[0], length));
    }
  }

  lemma {:induction false} OtherFieldsKeep(ls: seq<Bytes>, length: int)
    requires forall l :: l in ls ==> OtherField(l)
    ensures LengthAfter(ls, length) == length
  {
    if ls != [] {
      assert ls[0] in ls;
      OtherFieldsKeep(ls[1..], length);
    }
  }

  predicate Spaces(s: Bytes) { forall i :: 0 <= i < |s| ==> IsSpace(s[i]) }

  lemma {:induction false} TrimLeftIs(a: Bytes, s: Bytes)
    requires Spaces(a) && s != [] && !IsSpace(s[0])
    ensures TrimLeft(a + s) == s
  {
    if a == [] {
      assert a + s == s;
    } else {
      assert (a + s)[1..] == a[1..] + s;
      TrimLeftIs(a[1..], s);
    }
  }

  lemma {:induction false} TrimRightIs(s: Bytes, b: Bytes)
    requires Spaces(b) && s != [] && !IsSpace(s[|s| - 1])
    ensures TrimRightSpace(s + b) == s
  {
    if b == [] {
      assert s + b == s;
    } else {
      var n := |b| - 1;
      assert (s + b)[..|s| + n] == s + b[..n] && (s + b)[|s| + n] == b[n];
      TrimRightIs(s, b[..n]);
    }
  }

  /** Space around a value is ignored. */
  lemma TrimSpaceIs(a: Bytes, s: Bytes, b: Bytes)
    requires Spaces(a) && Spaces(b) && s != [] && !IsSpace(s[0]) && !IsSpace(s[|s| - 1])
    ensures TrimSpace(a + (s + b)) == s
  {
    TrimLeftIs(a, s + b);
    TrimRightIs(s, b);
  }

  /** A length is read whatever space a peer puts around it. */
  lemma PaddedLength(a: Bytes, n: nat, b: Bytes, length: int)
    requires Spaces(a) && Spaces(b) && n <= MAX_INT
    ensures Field(FIELD + (a + (Decimal(n) + b)), length) == n
  {
    var d := Decimal(n);
    var l := FIELD + (a + (d + b));
    assert l[|FIELD|..] == a + (d + b) && FIELD <= l;
    assert IsDigit(d[0]) && IsDigit(d[|d| - 1]);
    TrimSpaceIs(a, d, b);
    DecimalRoundTrip(n);
  }

  lemma NoLineFeed(d: Bytes)
    requires forall i :: 0 <= i < |d| ==> IsDigit(d[i])
    ensures LF !in FIELD + [32] + d
  {
  }

  lemma FieldLineReads(n: nat, length: int)
    requires n <= MAX_INT
    ensures LF !in FieldLine(n) && TrimEol(FieldLine(n)) == FieldLine(n) != []
    ensures Field(FieldLine(n), length) == n
  {
    var l := FieldLine(n);
    var d := Decimal(n);
    assert l[|l| - 1] == d[|d| - 1];
    assert l == FIELD + ([32] + (d + []));
    PaddedLength([32], n, [], length);
    NoLineFeed(d);
  }

  lemma HeaderBlank(tail: Bytes, length: int)
    ensures Header(CRLF + tail, length) == HeaderEnd(length, tail)
  {
    hide Header;
    assert CRLF + tail == [] + CRLF + tail;
    HeaderLine([], tail, length);
  }

  /** The header part of any frame announces the length of its body. */
  lemma HeaderReads(w: Wire, tail: Bytes)
    requires ValidWire(w)
    ensures Header(HeaderText(w) + tail, -1) == HeaderEnd(|w.body|, tail)
  {
    hide Header, Field, FieldLine;
    var l := FieldLine(|w.body|);
    var t2 := Lines(w.after) + (CRLF + tail);
    var t1 := l + CRLF + t2;
    assert HeaderText(w) + tail == Lines(w.before) + t1;
    hide HeaderText, Lines;
    var earlier := LengthAfter(w.before, -1);
    HeaderLines(w.before, t1, -1);
    FieldLineReads(|w.body|, earlier);
    HeaderLine(l, t2, earlier);
    HeaderLines(w.after, CRLF + tail, |w.body|);
    OtherFieldsKeep(w.after, |w.body|);
    HeaderBlank(tail, |w.body|);
  }

  // ---------------------------------------------------------------- main results

  lemma ReadOne(w: Wire, tail: Bytes, i: nat, ctxDone: nat -> bool)
    requires ValidWire(w) && !ctxDone(i)
    ensures Read(Encode(w) + tail, i, ctxDone) == Prepend([w.body], Read(tail, i + 1, ctxDone))
  {
    assert Encode(w) + tail == HeaderText(w) + (w.body + tail);
    HeaderReads(w, w.body + tail);
    assert (w.body + tail)[..|w.body|] == w.body;
    assert (w.body + tail)[|w.body|..] == tail;
  }

  /** Composition: complete frames are delivered in order and reading goes on behind them. */
  lemma {:induction false} ReadFrames(ws: seq<Wire>, tail: Bytes, i: nat, ctxDone: nat -> bool)
    requires forall w :: w in ws ==> ValidWire(w)
    requires forall k :: i <= k < i + |ws| ==> !ctxDone(k)
    ensures Read(EncodeAll(ws) + tail, i, ctxDone)
         == Prepend(Bodies(ws), Read(tail, i + |ws|, ctxDone))
  {
    hide Encode, Read, ValidWire;
    if ws == [] {
      assert EncodeAll(ws) + tail == tail;
    } else {
      var more := EncodeAll(ws[1..]) + tail;
      assert EncodeAll(ws) + tail == Encode(ws[0]) + more;
      ReadOne(ws[0], more, i, ctxDone);
      ReadFrames(ws[1..], tail, i + 1, ctxDone);
      assert Bodies(ws) == [ws[0].body] + Bodies(ws[1..]);
      assert [ws[0].body] + (Bodies(ws[1..]) + Read(tail, i + |ws|, ctxDone).bodies)
          == Bodies(ws) + Read(tail, i + |ws|, ctxDone).bodies;
    }
  }

  /** Round trip: the reader run on the concatenated frames yields exactly the bodies, in
      order, consumes all input, and ends at the end of the stream. */
  lemma RoundTrip(ws: seq<Wire>, ctxDone: nat -> bool)
    requires forall w :: w in ws ==> ValidWire(w)
    requires forall k :: 0 <= k <= |ws| ==> !ctxDone(k)
    ensures Read(EncodeAll(ws), 0, ctxDone) == Outcome(Bodies(ws), HeaderError, [])
  {
    hide EncodeAll, Read, ValidWire;
    ReadNothing(|ws|, ctxDone);
    ReadFrames(ws, [], 0, ctxDone);
    assert EncodeAll(ws) + [] == EncodeAll(ws);
    assert Bodies(ws) + [] == Bodies(ws);
  }

  /** A context that is found done after the frames ws leaves all later frames unread. */
  lemma CancelledBetweenFrames(ws: seq<Wire>, later: seq<Wire>, ctxDone: nat -> bool)
    requires forall w :: w in ws ==> ValidWire(w)
    requires ctxDone(|ws|) && forall k :: 0 <= k < |ws| ==> !ctxDone(k)
    ensures Read(EncodeAll(ws + later), 0, ctxDone) == Outcome(Bodies(ws), Cancelled, EncodeAll(later))
  {
    hide EncodeAll, Read, ValidWire;
    ReadCancelled(EncodeAll(later), |ws|, ctxDone);
    EncodeAppend(ws, later);
    ReadFrames(ws, EncodeAll(later), 0, ctxDone);
    assert Bodies(ws) + [] == Bodies(ws);
  }

  lemma ReadNothing(i: nat, ctxDone: nat -> bool)
    requires !ctxDone(i)
    ensures Read([], i, ctxDone) == Outcome([], HeaderError, [])
  {
  }

  lemma ReadCancelled(s: Bytes, i: nat, ctxDone: nat -> bool)
    requires ctxDone(i)
    ensures Read(s, i, ctxDone) == Outcome([], Cancelled, s)
  {
  }

  lemma Regroup(a: Bytes, b: Bytes, c: Bytes)
    ensures a + b + c == a + (b + c)
  {
  }

  lemma EncodeCons(w: Wire, ws: seq<Wire>)
    ensures EncodeAll([w] + ws) == Encode(w) + EncodeAll(ws)
  {
  }

  lemma {:induction false} EncodeAppend(a: seq<Wire>, b: seq<Wire>)
    ensures EncodeAll(a + b) == EncodeAll(a) + EncodeAll(b)
  {
    hide Encode;
    if a == [] {
      assert a + b == b;
    } else {
      hide EncodeAll;
      var w, rest := a[0], a[1..];
      EncodeAppend(rest, b);
      EncodeCons(w, rest);
      EncodeCons(w, rest + b);
      assert a == [w] + rest && a + b == [w] + (rest + b);
      Regroup(Encode(w), EncodeAll(rest), EncodeAll(b));
    }
  }

  // ---------------------------------------------------------------- headers without a usable length

  /** A header part without Content-Length is skipped, and reading goes on behind it. */
  lemma SkipsHeaderWithoutLength(fields: seq<Bytes>, tail: Bytes, i: nat, ctxDone: nat -> bool)
    requires (forall l :: l in fields ==> OtherField(l)) && !ctxDone(i)
    ensures Read(Lines(fields) + (CRLF + tail), i, ctxDone) == Read(tail, i + 1, ctxDone)
  {
    HeaderLines(fields, CRLF + tail, -1);
    OtherFieldsKeep(fields, -1);
    HeaderBlank(tail, -1);
    hide Header;
  }

  /** The number a sequence of digits stands for. */
  function Value(d: Bytes): nat
    requires Digits(d)
  {
    if d == [] then 0 else Value(d[..|d| - 1]) * 10 + (d[|d| - 1] - 48) as nat
  }

  predicate Digits(d: Bytes) { forall i :: 0 <= i < |d| ==> IsDigit(d[i]) }

  /** The scan of d followed by anything: the value of d if that fits in 64 bits, and the largest value
      otherwise, whatever follows. */
  lemma {:induction false} ScanIs(d: Bytes, rest: Bytes)
    requires Digits(d)
    ensures Value(d) <= MAX_UINT ==> ScanUint(d + rest, 0) == ScanUint(rest, Value(d))
    ensures Value(d) > MAX_UINT ==> ScanUint(d + rest, 0) == Number(MAX_UINT)
    decreases |d|
  {
    if d == [] {
      assert d + rest == rest;
    } else {
      var n := |d| - 1;
      var before, last := d[..n], d[n];
      assert d + rest == before + ([last] + rest);
      assert ([last] + rest)[1..] == rest;
      ScanIs(before, [last] + rest);
    }
  }

  /** Atoi on digits with or without a sign: the number, cut to the range of an int. */
  lemma AtoiOfNumber(d: Bytes)
    requires d != [] && Digits(d)
    ensures Atoi(d) == Atoi([43] + d) == (if Value(d) > MAX_INT then MAX_INT else Value(d))
    ensures Atoi([45] + d) == (if Value(d) > MAX_INT then -MAX_INT - 1 else 0 - Value(d))
  {
    assert IsDigit(d[0]);
    assert d + [] == d && ([43] + d)[1..] == d && ([45] + d)[1..] == d;
    ScanIs(d, []);
    hide Value;
  }

  /** Atoi on anything else: a byte that is neither a digit nor the leading sign makes it 0, unless the
      digits before it are already too many. So does a missing number. */
  lemma AtoiOfGarbage(d: Bytes, c: byte, rest: Bytes)
    requires Digits(d) && !IsDigit(c) && Value(d) <= MAX_UINT
    ensures d != [] || (c != 43 && c != 45) ==> Atoi(d + [c] + rest) == 0
    ensures Atoi([45] + (d + [c] + rest)) == Atoi([43] + (d + [c] + rest)) == 0
    ensures Atoi([]) == Atoi([45]) == Atoi([43]) == 0
  {
    var s := d + [c] + rest;
    assert s == d + ([c] + rest);
    assert ([45] + s)[1..] == s && ([43] + s)[1..] == s;
    ScanIs(d, [c] + rest);
    assert s[0] == if d == [] then c else d[0];
    assert d != [] ==> IsDigit(d[0]);
    hide Value;
  }

  /** A Content-Length without a number announces an empty body: a frame with nothing in it is
      delivered, and reading goes on right behind the header. */
  lemma LengthWithoutNumber(text: Bytes, tail: Bytes, i: nat, ctxDone: nat -> bool)
    requires AnyField(FIELD + text) && Atoi(TrimSpace(text)) == 0 && !ctxDone(i)
    ensures Read(FIELD + text + CRLF + (CRLF + tail), i, ctxDone) == Prepend([[]], Read(tail, i + 1, ctxDone))
  {
    var l := FIELD + text;
    assert l[|FIELD|..] == text && FIELD <= l;
    HeaderLine(l, CRLF + tail, -1);
    HeaderBlank(tail, 0);
    hide Header, TrimSpace;
    assert tail[..0] == [] && tail[0..] == tail;
  }

  // ---------------------------------------------------------------- truncated streams

  /** The first line feed of a + b, seen from a. */
  lemma NewlineSplit(a: Bytes, b: Bytes)
    ensures Newline(a + b) < |a| ==> Newline(a) == Newline(a + b)
    ensures Newline(a + b) >= |a| ==> Newline(a) == |a|
  {
    var s, nl := a + b, Newline(a + b);
    if nl < |a| {
      forall j | 0 <= j < nl ensures a[j] != LF { assert s[j] == a[j]; }
      assert s[nl] == a[nl];
      NewlineAt(a, nl);
    } else {
      forall j | 0 <= j < |a| ensures a[j] != LF { assert s[j] == a[j]; }
    }
  }

  /** One line of a header, with its end at position nl. */
  lemma HeaderUnfold(s: Bytes, nl: nat, length: int)
    requires nl < |s| && Newline(s) == nl
    ensures var line := TrimEol(s[..nl + 1]);
      Header(s, length) == if line == [] then HeaderEnd(length, s[nl + 1..])
                           else Header(s[nl + 1..], Field(line, length))
  {
    hide TrimEol, Field;
  }

  lemma HeaderWithoutLine(s: Bytes, length: int)
    requires Newline(s) == |s|
    ensures Header(s, length) == HeaderEof
  {
  }

  /** A header cut short never looks complete. */
  lemma {:induction false} HeaderCut(a: Bytes, b: Bytes, length: int)
    requires Header(a + b, length).HeaderEnd? && |Header(a + b, length).rest| < |b|
    ensures Header(a, length) == HeaderEof
    decreases |a|
  {
    hide TrimEol, Field, Header;
    NewlineSplit(a, b);
    var nl := Newline(a + b);
    if nl >= |a| {
      HeaderWithoutLine(a, length);
    } else {
      var rest := a[nl + 1..];
      HeaderUnfold(a, nl, length);
      HeaderUnfold(a + b, nl, length);
      assert (a + b)[..nl + 1] == a[..nl + 1];
      assert (a + b)[nl + 1..] == rest + b;
      if TrimEol(a[..nl + 1]) != [] {
        HeaderCut(rest, b, Field(TrimEol(a[..nl + 1]), length));
      }
    }
  }

  lemma CutAt(s: Bytes, n: nat)
    requires n <= |s|
    ensures s[..n] + s[n..] == s && |s[n..]| == |s| - n
  {
  }

  /** A frame cut inside its header has no complete header. */
  lemma CutInHeader(w: Wire, n: nat)
    requires ValidWire(w) && n < |HeaderText(w)|
    ensures n <= |Encode(w)| && Header(Encode(w)[..n], -1) == HeaderEof
  {
    hide Header, HeaderText, ValidWire;
    HeaderReads(w, w.body);
    CutAt(Encode(w), n);
    HeaderCut(Encode(w)[..n], Encode(w)[n..], -1);
  }

  /** A frame cut inside its body announces more than there is. */
  lemma CutInBody(w: Wire, n: nat)
    requires ValidWire(w) && |HeaderText(w)| <= n < |Encode(w)|
    ensures Header(Encode(w)[..n], -1) == HeaderEnd(|w.body|, w.body[..n - |HeaderText(w)|])
  {
    hide Header, HeaderText, ValidWire;
    var part := w.body[..n - |HeaderText(w)|];
    assert Encode(w)[..n] == HeaderText(w) + part;
    HeaderReads(w, part);
  }

  lemma ReadEof(s: Bytes, i: nat, ctxDone: nat -> bool)
    requires !ctxDone(i) && Header(s, -1) == HeaderEof
    ensures Read(s, i, ctxDone) == Outcome([], HeaderError, [])
  {
  }

  lemma ReadShort(s: Bytes, n: nat, rest: Bytes, i: nat, ctxDone: nat -> bool)
    requires !ctxDone(i) && Header(s, -1) == HeaderEnd(n, rest) && |rest| < n
    ensures Read(s, i, ctxDone) == Outcome([], BodyError, [])
  {
  }

  /** A proper prefix of one frame delivers nothing. */
  lemma FrameCut(w: Wire, n: nat, i: nat, ctxDone: nat -> bool)
    requires ValidWire(w) && n < |Encode(w)| && !ctxDone(i)
    ensures Read(Encode(w)[..n], i, ctxDone)
         == Outcome([], if n < |HeaderText(w)| then HeaderError else BodyError, [])
  {
    hide Header, HeaderText, ValidWire, Read;
    var h := |HeaderText(w)|;
    if n < h {
      CutInHeader(w, n);
      ReadEof(Encode(w)[..n], i, ctxDone);
    } else {
      CutInBody(w, n);
      ReadShort(Encode(w)[..n], |w.body|, w.body[..n - h], i, ctxDone);
    }
  }

  /** The number of frames that lie wholly inside the first n bytes. */
  function Complete(ws: seq<Wire>, n: nat): (k: nat)
    ensures k <= |ws|
    ensures |EncodeAll(ws[..k])| <= n
    ensures k < |ws| ==> |EncodeAll(ws[..k + 1])| > n
  {
    hide Encode;
    if ws == [] || |Encode(ws[0])| > n then 0
    else
      var k := Complete(ws[1..], n - |Encode(ws[0])|);
      assert ws[..k + 1][1..] == ws[1..][..k];
      assert k < |ws| - 1 ==> ws[..k + 2][1..] == ws[1..][..k + 1];
      1 + k
  }

  /** Truncation: cut anywhere, the stream delivers exactly the bodies of the frames that
      arrived completely. */
  lemma {:induction false} Truncated(ws: seq<Wire>, n: nat, i: nat, ctxDone: nat -> bool)
    requires forall w :: w in ws ==> ValidWire(w)
    requires forall k :: i <= k <= i + |ws| ==> !ctxDone(k)
    requires n <= |EncodeAll(ws)|
    ensures Read(EncodeAll(ws)[..n], i, ctxDone).bodies == Bodies(ws[..Complete(ws, n)])
    ensures Read(EncodeAll(ws)[..n], i, ctxDone).rest == []
  {
    hide Encode, Read, ValidWire;
    if ws == [] {
      ReadNothing(i, ctxDone);
    } else {
      var e := Encode(ws[0]);
      var k := Complete(ws, n);
      if |e| > n {
        assert EncodeAll(ws)[..n] == e[..n];
        FrameCut(ws[0], n, i, ctxDone);
        assert Bodies(ws[..0]) == [];
      } else {
        var more := EncodeAll(ws[1..])[..n - |e|];
        assert EncodeAll(ws)[..n] == e + more;
        ReadOne(ws[0], more, i, ctxDone);
        Truncated(ws[1..], n - |e|, i + 1, ctxDone);
        BodiesCons(ws, k);
      }
    }
  }

  lemma BodiesCons(ws: seq<Wire>, k: nat)
    requires 0 < k <= |ws|
    ensures Bodies(ws[..k]) == [ws[0].body] + Bodies(ws[1..][..k - 1])
  {
  }
}
