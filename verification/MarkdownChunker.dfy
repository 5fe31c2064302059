/** Splitting a markdown document at its headings: the line loop with its buffer and fence
    flag, proved to tile the document. Text is a sequence of bytes, one per char. */
module MarkdownChunker {

  import opened Collections

  // ---------------------------------------------------------------- text

  predicate IsSpace(c: char)
  {
    c == ' ' || c == '\t' || c == '\n' || c == '\r' || c == '\U{000B}' || c == '\U{000C}'
  }

  predicate Blank(s: string) { forall i :: 0 <= i < |s| ==> IsSpace(s[i]) }

  function TrimLeft(s: string): string
  {
    if s != "" && IsSpace(s[0]) then TrimLeft(s[1..]) else s
  }

  function TrimRight(s: string): string
  {
    if s != "" && IsSpace(s[|s| - 1]) then TrimRight(s[..|s| - 1]) else s
  }

  function TrimSpace(s: string): string { TrimRight(TrimLeft(s)) }

  /** strings.TrimRight(s, "\n") */
  function TrimNewlines(s: string): (r: string)
    ensures r <= s && forall i :: |r| <= i < |s| ==> s[i] == '\n'
    ensures r != "" ==> r[|r| - 1] != '\n'
  {
    if s != "" && s[|s| - 1] == '\n' then TrimNewlines(s[..|s| - 1]) else s
  }

  lemma {:induction false} TrimLeftBlank(s: string)
    ensures TrimLeft(s) == "" <==> Blank(s)
    ensures Blank(TrimLeft(s)) <==> Blank(s)
  {
    if s != "" && IsSpace(s[0]) { TrimLeftBlank(s[1..]); }
  }

  lemma {:induction false} TrimRightBlank(s: string)
    ensures TrimRight(s) == "" <==> Blank(s)
  {
    if s != "" && IsSpace(s[|s| - 1]) { TrimRightBlank(s[..|s| - 1]); }
  }

  lemma TrimSpaceBlank(s: string)
    ensures TrimSpace(s) == "" <==> Blank(s)
  {
    TrimLeftBlank(s);
    TrimRightBlank(TrimLeft(s));
  }

  /** strings.Split(content, "\n") */
  function Split(content: string): (lines: seq<string>)
    ensures lines != [] && forall i :: 0 <= i < |lines| ==> '\n' !in lines[i]
    decreases |content|
  {
    if content == "" then [""]
    else if content[0] == '\n' then [""] + Split(content[1..])
    else
      var rest := Split(content[1..]);
      [[content[0]] + rest[0]] + rest[1..]
  }

  /** The text of lines s to e - 1, each ended by a newline. */
  function Text(lines: seq<string>, s: nat, e: nat): string
    requires s <= e <= |lines|
  {
    if s == e then "" else Text(lines, s, e - 1) + lines[e - 1] + "\n"
  }

  // ---------------------------------------------------------------- headings

  function Hashes(s: string): (n: nat)
    ensures n <= |s| && (forall i :: 0 <= i < n ==> s[i] == '#') && (n < |s| ==> s[n] != '#')
  {
    if s != "" && s[0] == '#' then 1 + Hashes(s[1..]) else 0
  }

  predicate HashOrSpace(c: char) { c == '#' || c == ' ' }

  function TrimHashes(s: string): string
    decreases |s|
  {
    if s == "" then s
    else if HashOrSpace(s[0]) then TrimHashes(s[1..])
    else if HashOrSpace(s[|s| - 1]) then TrimHashes(s[..|s| - 1])
    else s
  }

  datatype Heading = Heading(level: nat, text: string)

  function HeadingOf(s: string): Option<Heading>
  {
    var level := Hashes(s);
    if level < 1 || level > 6 || level >= |s| || s[level] != ' ' then None
    else Some(Heading(level, TrimSpace(TrimHashes(s[level..]))))
  }

  /** atxHeading on a trimmed line. */
  method AtxHeading(s: string) returns (h: Option<Heading>)
    ensures h == HeadingOf(s)
  {
    if !("#" <= s) { return None; }
    var level := 0;
    while level < |s| && s[level] == '#'
      invariant level <= |s| && forall i :: 0 <= i < level ==> s[i] == '#'
    {
      level := level + 1;
    }
    assert Hashes(s) == level;
    if level < 1 || level > 6 { return None; }
    if level >= |s| || s[level] != ' ' { return None; }
    return Some(Heading(level, TrimSpace(TrimHashes(s[level..]))));
  }

  /** An ATX heading in the sense of section 4.2 of CommonMark, with a space required: one to six
      hashes, then a space. */
  lemma HeadingIff(s: string)
    ensures HeadingOf(s).Some? <==>
      exists n :: 1 <= n <= 6 && n < |s| && s[n] == ' ' && forall i :: 0 <= i < n ==> s[i] == '#'
  {
  }

  /** What trimming takes away is blank, and what it leaves does not begin or end with space. */
  lemma {:induction false} TrimLeftParts(s: string) returns (a: string)
    ensures Blank(a) && s == a + TrimLeft(s)
    ensures TrimLeft(s) != "" ==> !IsSpace(TrimLeft(s)[0])
  {
    a := "";
    if s != "" && IsSpace(s[0]) {
      var b := TrimLeftParts(s[1..]);
      a := [s[0]] + b;
    }
  }

  lemma {:induction false} TrimRightParts(s: string) returns (b: string)
    ensures Blank(b) && s == TrimRight(s) + b
    ensures TrimRight(s) != "" ==> !IsSpace(TrimRight(s)[|TrimRight(s)| - 1])
  {
    b := "";
    if s != "" && IsSpace(s[|s| - 1]) {
      var a := TrimRightParts(s[..|s| - 1]);
      b := a + [s[|s| - 1]];
    }
  }

  lemma TrimSpaceParts(s: string) returns (a: string, b: string)
    ensures Blank(a) && Blank(b) && s == a + TrimSpace(s) + b
    ensures var t := TrimSpace(s); t != "" ==> !IsSpace(t[0]) && !IsSpace(t[|t| - 1])
  {
    a := TrimLeftParts(s);
    b := TrimRightParts(TrimLeft(s));
    assert s == a + (TrimSpace(s) + b);
    assert TrimSpace(s) != "" ==> TrimSpace(s)[0] == TrimLeft(s)[0];
  }

  predicate HashesAndSpaces(s: string) { forall i :: 0 <= i < |s| ==> HashOrSpace(s[i]) }

  /** s is t with hashes and spaces around it. */
  predicate Padded(s: string, p: string, t: string, q: string)
  {
    HashesAndSpaces(p) && HashesAndSpaces(q) && s == p + t + q
  }

  lemma PaddedLeft(s: string, p: string, t: string, q: string)
    requires s != "" && HashOrSpace(s[0]) && Padded(s[1..], p, t, q)
    ensures Padded(s, s[..1] + p, t, q)
  {
    assert s == s[..1] + (p + t + q);
  }

  lemma PaddedRight(s: string, p: string, t: string, q: string)
    requires s != "" && HashOrSpace(s[|s| - 1]) && Padded(s[..|s| - 1], p, t, q)
    ensures Padded(s, p, t, q + s[|s| - 1..])
  {
    assert s == p + t + q + s[|s| - 1..];
  }

  lemma {:induction false} TrimHashesParts(s: string) returns (p: string, q: string)
    ensures Padded(s, p, TrimHashes(s), q)
    ensures var t := TrimHashes(s); t != "" ==> !HashOrSpace(t[0]) && !HashOrSpace(t[|t| - 1])
    decreases |s|
  {
    p, q := "", "";
    assert Padded(s, "", s, "");
    hide HashOrSpace, Padded;
    if s != "" && HashOrSpace(s[0]) {
      p, q := TrimHashesParts(s[1..]);
      PaddedLeft(s, p, TrimHashes(s[1..]), q);
      p := s[..1] + p;
    } else if s != "" && HashOrSpace(s[|s| - 1]) {
      p, q := TrimHashesParts(s[..|s| - 1]);
      PaddedRight(s, p, TrimHashes(s[..|s| - 1]), q);
      q := q + s[|s| - 1..];
    }
  }

  /** The level of a heading is the number of its hashes, and its text is what remains of the line when
      the outer hashes and spaces are taken off, and then the outer white space. */
  lemma HeadingIs(s: string) returns (p: string, a: string, b: string, q: string)
    requires HeadingOf(s).Some?
    ensures var h := HeadingOf(s).value;
      var core := a + h.text + b;
      && 1 <= h.level <= 6 && h.level < |s| && s[h.level] == ' ' && (forall i :: 0 <= i < h.level ==> s[i] == '#')
      && s[h.level..] == p + core + q && HashesAndSpaces(p) && HashesAndSpaces(q) && Blank(a) && Blank(b)
      && (core != "" ==> !HashOrSpace(core[0]) && !HashOrSpace(core[|core| - 1]))
      && (h.text != "" ==> !IsSpace(h.text[0]) && !IsSpace(h.text[|h.text| - 1]))
  {
    var rest := s[HeadingOf(s).value.level..];
    p, q := TrimHashesParts(rest);
    a, b := TrimSpaceParts(TrimHashes(rest));
  }

  predicate IsFence(line: string)
  {
    var t := TrimSpace(line);
    "```" <= t || "~~~" <= t
  }

  predicate FenceMark(s: string) { "```" <= s || "~~~" <= s }

  /** A fence line is one whose first three characters behind leading white space are backticks or
      tildes. */
  lemma FenceIff(line: string)
    ensures IsFence(line) <==> exists i :: 0 <= i <= |line| && Blank(line[..i]) && FenceMark(line[i..])
  {
    var a, b := TrimSpaceParts(line);
    var t := TrimSpace(line);
    hide TrimSpace;
    if IsFence(line) {
      assert line[..|a|] == a && line[|a|..] == t + b;
      assert Blank(line[..|a|]) && FenceMark(line[|a|..]);
    }
    if i :| 0 <= i <= |line| && Blank(line[..i]) && FenceMark(line[i..]) {
      FenceAt(line, a, t, b, i);
    }
  }

  lemma FenceAt(line: string, a: string, t: string, b: string, i: nat)
    requires line == a + t + b && Blank(a) && Blank(b) && (t != "" ==> !IsSpace(t[0]))
    requires i <= |line| && Blank(line[..i]) && FenceMark(line[i..])
    ensures FenceMark(t)
  {
    assert line[i] == line[i..][0] && line[i + 1] == line[i..][1] && line[i + 2] == line[i..][2];
    assert !IsSpace(line[i]) && !IsSpace(line[i + 1]) && !IsSpace(line[i + 2]);
    assert forall k :: 0 <= k < |a| ==> line[k] == a[k];
    assert forall k :: |a| + |t| <= k < |line| ==> line[k] == b[k - |a| - |t|];
    assert forall k :: 0 <= k < i ==> line[k] == line[..i][k];
    assert |a| <= i && i + 2 < |a| + |t|;
    assert line[|a|] == t[0];
    assert i == |a|;
  }

  /** Inside a code fence: an odd number of fence lines came before. */
  predicate InFence(lines: seq<string>)
  {
    lines != [] && (InFence(lines[..|lines| - 1]) != IsFence(lines[|lines| - 1]))
  }

  function FenceLines(lines: seq<string>): nat
  {
    if lines == [] then 0 else FenceLines(lines[..|lines| - 1]) + (if IsFence(lines[|lines| - 1]) then 1 else 0)
  }

  lemma {:induction false} FenceParity(lines: seq<string>)
    ensures InFence(lines) <==> FenceLines(lines) % 2 == 1
  {
    if lines != [] { FenceParity(lines[..|lines| - 1]); }
  }

  /** Line i is a heading outside every fence. */
  predicate Boundary(lines: seq<string>, i: nat)
    requires i < |lines|
  {
    !IsFence(lines[i]) && !InFence(lines[..i]) && HeadingOf(TrimSpace(lines[i])).Some?
  }

  // ---------------------------------------------------------------- regions and chunks

  /** Where regions start among the first n lines: at line 0 and at every boundary. */
  function Starts(lines: seq<string>, n: nat): seq<nat>
    requires n <= |lines|
  {
    if n == 0 then []
    else Starts(lines, n - 1) + (if n == 1 || Boundary(lines, n - 1) then [n - 1] else [])
  }

  /** DocChunk; the file path and the document type are the same for all. */
  datatype Chunk = Chunk(heading: string, content: string, lineStart: nat, level: nat)

  function Cut(s: string, max: nat): (r: string)
    ensures r <= s && |r| <= max && (|s| <= max ==> r == s)
  {
    if |s| > max then s[..max] else s
  }

  /** The heading that opens the region starting at line s; a preamble has none. */
  function Opening(lines: seq<string>, s: nat): Heading
    requires s < |lines|
  {
    if Boundary(lines, s) then HeadingOf(TrimSpace(lines[s])).value else Heading(0, "")
  }

  function Flushed(buf: string, heading: Heading, start: nat, max: nat): Option<Chunk>
  {
    var body := TrimNewlines(buf);
    if TrimSpace(body) == "" then None
    else Some(Chunk(heading.text, Cut(body, max), start, heading.level))
  }

  /** The chunk of the region of lines s to e - 1; none when its text is blank. */
  function ChunkOf(lines: seq<string>, s: nat, e: nat, max: nat): Option<Chunk>
    requires s < e <= |lines|
  {
    Flushed(Text(lines, s, e), Opening(lines, s), s + 1, max)
  }

  function Listed(c: Option<Chunk>): seq<Chunk> { if c.Some? then [c.value] else [] }

  /** starts is strictly increasing, begins at 0 and stays below n. */
  predicate Ordered(starts: seq<nat>, n: nat)
  {
    && (starts != [] ==> starts[0] == 0)
    && (forall i, j :: 0 <= i < j < |starts| ==> starts[i] < starts[j])
    && (forall i :: 0 <= i < |starts| ==> starts[i] < n)
  }

  /** The chunks of the regions that start at starts, the last of which ends before line e. */
  function ChunksOf(lines: seq<string>, starts: seq<nat>, e: nat, max: nat): seq<Chunk>
    requires e <= |lines| && Ordered(starts, e)
  {
    if starts == [] then []
    else
      var m := |starts| - 1;
      assert Ordered(starts[..m], starts[m]);
      ChunksOf(lines, starts[..m], starts[m], max) + Listed(ChunkOf(lines, starts[m], e, max))
  }

  lemma {:induction false} StartsOrdered(lines: seq<string>, n: nat)
    requires n <= |lines|
    ensures Ordered(Starts(lines, n), n) && (n > 0 ==> Starts(lines, n) != [])
    ensures forall i :: i in Starts(lines, n) <==> 0 <= i < n && (i == 0 || Boundary(lines, i))
  {
    hide Boundary;
    if n > 0 { StartsOrdered(lines, n - 1); }
  }

  /** The flush closure: the chunk of the buffer, if it is not blank. */
  method Flush(buf: string, heading: Heading, start: nat, max: nat) returns (c: Option<Chunk>)
    ensures c == Flushed(buf, heading, start, max)
  {
    var body := TrimNewlines(buf);
    if TrimSpace(body) == "" { return None; }
    if |body| > max { body := body[..max]; }
    return Some(Chunk(heading.text, body, start, heading.level));
  }

  /** Chunk: the line loop. Without a positive cap, 8192 bytes are the cap. */
  method ChunkDocument(content: string, maxChunkBytes: int) returns (chunks: seq<Chunk>)
    ensures var lines := Split(content);
      && Ordered(Starts(lines, |lines|), |lines|)
      && chunks == ChunksOf(lines, Starts(lines, |lines|), |lines|, if maxChunkBytes <= 0 then 8192 else maxChunkBytes)
  {
    hide InFence, Boundary, HeadingOf, TrimSpace, Progress, Starts, Flushed, ChunksOf;
    var max: nat := if maxChunkBytes <= 0 then 8192 else maxChunkBytes;
    var lines := Split(content);
    chunks := [];
    ProgressStart(lines, max);
    var cur, curStart, buf, inFence, started := Heading(0, ""), 1, "", false, false;
    for i := 0 to |lines|
      invariant inFence == InFence(lines[..i]) && (started <==> i > 0)
      invariant Progress(lines, i, max, chunks, cur, curStart, buf)
    {
      LineFacts(lines, i);
      var ln := lines[i];
      var trimmed := TrimSpace(ln);
      if "```" <= trimmed || "~~~" <= trimmed {
        inFence := !inFence;
        AddLine(lines, i, max, chunks, cur, curStart, buf);
        buf := buf + ln + "\n";
        started := true;
        continue;
      }
      if !inFence {
        var h := AtxHeading(trimmed);
        if h.Some? {
          OpenRegion(lines, i, max, chunks, cur, curStart, buf);
          if started {
            var c := Flush(buf, cur, curStart, max);
            chunks := chunks + Listed(c);
            buf := "";
          }
          cur := h.value;
          curStart := i + 1;
          buf := buf + ln + "\n";
          started := true;
          continue;
        }
      }
      AddLine(lines, i, max, chunks, cur, curStart, buf);
      buf := buf + ln + "\n";
      started := true;
    }
    ProgressEnd(lines, max, chunks, cur, curStart, buf);
    var c := Flush(buf, cur, curStart, max);
    chunks := chunks + Listed(c);
  }

  lemma LineFacts(lines: seq<string>, i: nat)
    requires i < |lines|
    ensures InFence(lines[..0]) == false
    ensures InFence(lines[..i + 1]) == (InFence(lines[..i]) != IsFence(lines[i]))
    ensures Boundary(lines, i) <==>
      !IsFence(lines[i]) && !InFence(lines[..i]) && HeadingOf(TrimSpace(lines[i])).Some?
  {
    hide IsFence, HeadingOf;
    assert lines[..i + 1][..i] == lines[..i];
  }

  /** The loop state after i lines: finished regions are in chunks, the last one is in buf. */
  ghost predicate Progress(lines: seq<string>, i: nat, max: nat, chunks: seq<Chunk>, cur: Heading, curStart: nat, buf: string)
    requires i <= |lines|
  {
    if i == 0 then chunks == [] && cur == Heading(0, "") && curStart == 1 && buf == ""
    else
      var starts := Starts(lines, i);
      var m := |starts| - 1;
      && starts != [] && Ordered(starts, i) && Ordered(starts[..m], starts[m])
      && chunks == ChunksOf(lines, starts[..m], starts[m], max)
      && cur == Opening(lines, starts[m]) && curStart == starts[m] + 1
      && buf == Text(lines, starts[m], i)
  }

  lemma ProgressStart(lines: seq<string>, max: nat)
    requires lines != []
    ensures Progress(lines, 0, max, [], Heading(0, ""), 1, "") && !InFence(lines[..0])
  {
  }

  lemma ProgressEnd(lines: seq<string>, max: nat, chunks: seq<Chunk>, cur: Heading, curStart: nat, buf: string)
    requires lines != [] && Progress(lines, |lines|, max, chunks, cur, curStart, buf)
    ensures Ordered(Starts(lines, |lines|), |lines|)
    ensures chunks + Listed(Flushed(buf, cur, curStart, max)) == ChunksOf(lines, Starts(lines, |lines|), |lines|, max)
  {
  }

  lemma AddLine(lines: seq<string>, i: nat, max: nat, chunks: seq<Chunk>, cur: Heading, curStart: nat, buf: string)
    requires i < |lines| && !Boundary(lines, i) && Progress(lines, i, max, chunks, cur, curStart, buf)
    ensures Progress(lines, i + 1, max, chunks, cur, curStart, buf + lines[i] + "\n")
  {
    hide Boundary, ChunkOf, Ordered, HeadingOf;
    StartsOrdered(lines, i + 1);
    if i == 0 {
      OneRegion(lines, max);
    } else {
      assert Starts(lines, i + 1) == Starts(lines, i);
      hide Starts, ChunksOf, Opening;
    }
  }

  lemma OneRegion(lines: seq<string>, max: nat)
    requires lines != []
    ensures Progress(lines, 1, max, [], Opening(lines, 0), 1, "" + lines[0] + "\n")
  {
    hide Boundary, HeadingOf;
    assert Starts(lines, 1) == [0];
    assert [0][..0] == [];
    assert Text(lines, 0, 0) == "";
  }

  lemma OpenRegion(lines: seq<string>, i: nat, max: nat, chunks: seq<Chunk>, cur: Heading, curStart: nat, buf: string)
    requires i < |lines| && Boundary(lines, i) && Progress(lines, i, max, chunks, cur, curStart, buf)
    requires HeadingOf(TrimSpace(lines[i])).Some?
    ensures Progress(lines, i + 1, max, if i > 0 then chunks + Listed(Flushed(buf, cur, curStart, max)) else chunks,
                     HeadingOf(TrimSpace(lines[i])).value, i + 1, (if i > 0 then "" else buf) + lines[i] + "\n")
  {
    hide Boundary, Flushed, HeadingOf, TrimSpace;
    assert Opening(lines, i) == HeadingOf(TrimSpace(lines[i])).value;
    if i == 0 {
      OneRegion(lines, max);
    } else {
      OpenLater(lines, i, max, chunks, cur, curStart, buf);
    }
  }

  lemma ChunksStep(lines: seq<string>, starts: seq<nat>, e: nat, max: nat)
    requires e <= |lines| && Ordered(starts, e) && starts != []
    requires Ordered(starts[..|starts| - 1], starts[|starts| - 1])
    ensures var m := |starts| - 1;
      ChunksOf(lines, starts, e, max)
      == ChunksOf(lines, starts[..m], starts[m], max)
         + Listed(Flushed(Text(lines, starts[m], e), Opening(lines, starts[m]), starts[m] + 1, max))
  {
  }

  lemma OpenLater(lines: seq<string>, i: nat, max: nat, chunks: seq<Chunk>, cur: Heading, curStart: nat, buf: string)
    requires 0 < i < |lines| && Boundary(lines, i) && Progress(lines, i, max, chunks, cur, curStart, buf)
    ensures Progress(lines, i + 1, max, chunks + Listed(Flushed(buf, cur, curStart, max)),
                     Opening(lines, i), i + 1, "" + lines[i] + "\n")
  {
    hide Flushed, Boundary, Opening, ChunksOf;
    var starts, more := Starts(lines, i), Starts(lines, i + 1);
    StartsOrdered(lines, i + 1);
    ChunksStep(lines, starts, i, max);
    assert more == starts + [i];
    hide Starts;
    assert more[..|more| - 1] == starts && more[|more| - 1] == i;
    assert Text(lines, i, i) == "";
    assert Text(lines, i, i + 1) == "" + lines[i] + "\n";
    hide Text;
  }

  // ---------------------------------------------------------------- the document is tiled

  lemma {:induction false} TextCons(l: string, rest: seq<string>, n: nat)
    requires n <= |rest|
    ensures Text([l] + rest, 0, n + 1) == l + "\n" + Text(rest, 0, n)
  {
    var all := [l] + rest;
    if n == 0 {
      assert Text(all, 0, 0) == "";
    } else {
      TextCons(l, rest, n - 1);
      assert all[n] == rest[n - 1];
    }
  }

  lemma {:induction false} TextAppend(lines: seq<string>, s: nat, m: nat, e: nat)
    requires s <= m <= e <= |lines|
    ensures Text(lines, s, m) + Text(lines, m, e) == Text(lines, s, e)
    decreases e
  {
    if m < e {
      TextAppend(lines, s, m, e - 1);
      assert Text(lines, s, m) + (Text(lines, m, e - 1) + lines[e - 1] + "\n")
          == Text(lines, s, m) + Text(lines, m, e - 1) + lines[e - 1] + "\n";
    }
  }

  /** Splitting loses nothing: the lines, each ended by a newline, are the content and one more
      newline. */
  lemma {:induction false} SplitJoin(content: string)
    ensures Text(Split(content), 0, |Split(content)|) == content + "\n"
    decreases |content|
  {
    if content == "" {
      assert Text([""], 0, 0) == "";
      assert Text([""], 0, 1) == "\n";
    } else {
      hide Split, Text;
      SplitJoin(content[1..]);
      SplitStep(content);
      var c, tail, rest := content[0], content[1..], Split(content[1..]);
      assert content == [c] + tail;
      if c == '\n' {
        SplitJoinNewline(tail, rest);
      } else {
        var head, more := rest[0], rest[1..];
        assert rest == [head] + more;
        SplitJoinChar(c, tail, head, more);
      }
    }
  }

  lemma SplitStep(content: string)
    requires content != ""
    ensures var rest := Split(content[1..]);
      Split(content) == if content[0] == '\n' then [""] + rest else [[content[0]] + rest[0]] + rest[1..]
  {
  }

  lemma SplitJoinNewline(tail: string, rest: seq<string>)
    requires Text(rest, 0, |rest|) == tail + "\n"
    ensures Text([""] + rest, 0, |rest| + 1) == "\n" + tail + "\n"
  {
    hide Text;
    TextCons("", rest, |rest|);
    assert "" + "\n" + (tail + "\n") == "\n" + tail + "\n";
  }

  lemma SplitJoinChar(c: char, tail: string, head: string, more: seq<string>)
    requires Text([head] + more, 0, |more| + 1) == tail + "\n"
    ensures Text([[c] + head] + more, 0, |more| + 1) == [c] + tail + "\n"
  {
    hide Text;
    TextCons([c] + head, more, |more|);
    TextCons(head, more, |more|);
    Regroup(c, head, Text(more, 0, |more|), tail);
  }

  lemma Regroup(c: char, head: string, t: string, tail: string)
    requires head + "\n" + t == tail + "\n"
    ensures [c] + head + "\n" + t == [c] + tail + "\n"
  {
    assert [c] + head + "\n" + t == [c] + (head + "\n" + t);
  }

  /** Where region k ends: at the next start, or at e. */
  function EndOf(starts: seq<nat>, k: nat, e: nat): nat
    requires k < |starts|
  {
    if k + 1 < |starts| then starts[k + 1] else e
  }

  /** The texts of all regions, one after the other. */
  function RegionTexts(lines: seq<string>, starts: seq<nat>, e: nat): string
    requires e <= |lines| && Ordered(starts, e)
  {
    if starts == [] then ""
    else
      var m := |starts| - 1;
      assert Ordered(starts[..m], starts[m]);
      RegionTexts(lines, starts[..m], starts[m]) + Text(lines, starts[m], e)
  }

  lemma {:induction false} RegionsCover(lines: seq<string>, starts: seq<nat>, e: nat)
    requires e <= |lines| && Ordered(starts, e) && starts != []
    ensures RegionTexts(lines, starts, e) == Text(lines, 0, e)
  {
    var m := |starts| - 1;
    assert Ordered(starts[..m], starts[m]);
    if m == 0 {
      assert starts[..0] == [] && starts[0] == 0;
    } else {
      RegionsCover(lines, starts[..m], starts[m]);
      TextAppend(lines, 0, starts[m], e);
    }
  }

  /** Tiling: the regions are contiguous, ordered and disjoint and together are the document; each
      starts at the first line or at a heading outside fences, and contains no other such heading. */
  lemma Tiling(content: string)
    ensures var lines := Split(content);
      var starts := Starts(lines, |lines|);
      && Ordered(starts, |lines|) && starts != []
      && RegionTexts(lines, starts, |lines|) == content + "\n"
      && OneHeadingEach(lines, starts)
  {
    hide *;
    SplitJoin(content);
    Regions(Split(content));
  }

  lemma Regions(lines: seq<string>)
    requires lines != []
    ensures var starts := Starts(lines, |lines|);
      && Ordered(starts, |lines|) && starts != []
      && RegionTexts(lines, starts, |lines|) == Text(lines, 0, |lines|)
      && OneHeadingEach(lines, starts)
  {
    hide *;
    var n := |lines|;
    var starts := Starts(lines, n);
    StartsOrdered(lines, n);
    RegionsCover(lines, starts, n);
    EachRegion(lines, starts);
  }

  /** Line i of a region that begins at s is a heading outside fences only if it is the first, and
      the first line is one unless it is the first line of the document. */
  predicate HeadsOnly(lines: seq<string>, s: nat, i: nat)
  {
    && i < |lines|
    && (Boundary(lines, i) ==> i == s)
    && (i == s ==> i == 0 || Boundary(lines, i))
  }

  predicate OneHeadingEach(lines: seq<string>, starts: seq<nat>)
  {
    forall k, i :: 0 <= k < |starts| && starts[k] <= i < EndOf(starts, k, |lines|) ==> HeadsOnly(lines, starts[k], i)
  }

  lemma EachRegion(lines: seq<string>, starts: seq<nat>)
    requires Ordered(starts, |lines|)
    requires forall x :: x in starts <==> 0 <= x < |lines| && (x == 0 || Boundary(lines, x))
    ensures OneHeadingEach(lines, starts)
  {
  }

  lemma TextStarts(lines: seq<string>, s: nat, e: nat)
    requires s < e <= |lines|
    ensures lines[s] <= Text(lines, s, e)
  {
  }

  lemma BodyBlank(t: string)
    ensures TrimSpace(TrimNewlines(t)) == "" <==> Blank(t)
  {
    TrimSpaceBlank(TrimNewlines(t));
  }

  /** The only region that yields no chunk is a blank preamble. */
  lemma OnlyBlankPreambleDropped(lines: seq<string>, s: nat, e: nat, max: nat)
    requires s < e <= |lines|
    ensures ChunkOf(lines, s, e, max).None? <==> Blank(Text(lines, s, e))
    ensures Boundary(lines, s) ==> ChunkOf(lines, s, e, max).Some?
  {
    BodyBlank(Text(lines, s, e));
    if Boundary(lines, s) {
      TrimSpaceBlank(lines[s]);
      TextStarts(lines, s, e);
      var t := Text(lines, s, e);
      hide Text;
      assert !Blank(lines[s]);
      var i :| 0 <= i < |lines[s]| && !IsSpace(lines[s][i]);
      assert !IsSpace(t[i]);
    }
  }

  /** What a chunk says: where its region starts, the heading that opens it, and its text without
      trailing newlines, cut to the limit. */
  lemma ChunkContent(lines: seq<string>, s: nat, e: nat, max: nat)
    requires s < e <= |lines| && ChunkOf(lines, s, e, max).Some?
    ensures var c := ChunkOf(lines, s, e, max).value;
      var body := TrimNewlines(Text(lines, s, e));
      && c.lineStart == s + 1 && c.content <= body
      && |c.content| == (if |body| <= max then |body| else max)
      && (c.level == 0 <==> !Boundary(lines, s))
      && (Boundary(lines, s) ==> HeadingOf(TrimSpace(lines[s])) == Some(Heading(c.level, c.heading)))
  {
  }

  /** Region k yields this chunk, or none. */
  ghost predicate Yields(lines: seq<string>, starts: seq<nat>, e: nat, max: nat, k: nat, c: Option<Chunk>)
  {
    && k < |starts| && starts[k] < EndOf(starts, k, e) <= |lines|
    && ChunkOf(lines, starts[k], EndOf(starts, k, e), max) == c
  }

  lemma YieldsInPrefix(lines: seq<string>, starts: seq<nat>, e: nat, max: nat, k: nat, c: Option<Chunk>)
    requires starts != [] && k < |starts| - 1
    requires Yields(lines, starts[..|starts| - 1], starts[|starts| - 1], max, k, c)
    ensures Yields(lines, starts, e, max, k, c)
  {
  }

  /** from[n] is the region of the n-th chunk: regions appear in order, and those left out yield
      none. */
  ghost predicate Origins(lines: seq<string>, starts: seq<nat>, e: nat, max: nat, chunks: seq<Chunk>, from: seq<nat>)
  {
    && |from| == |chunks|
    && (forall n :: 0 <= n < |from| ==> Yields(lines, starts, e, max, from[n], Some(chunks[n])))
    && (forall a, b :: 0 <= a < b < |from| ==> from[a] < from[b])
    && (forall k :: 0 <= k < |starts| && k !in from ==> Yields(lines, starts, e, max, k, None))
  }

  lemma OriginsStep(lines: seq<string>, starts: seq<nat>, e: nat, max: nat, chunks: seq<Chunk>, from: seq<nat>, c: Option<Chunk>)
    requires starts != [] && Yields(lines, starts, e, max, |starts| - 1, c)
    requires Origins(lines, starts[..|starts| - 1], starts[|starts| - 1], max, chunks, from)
    ensures Origins(lines, starts, e, max, chunks + Listed(c), from + (if c.Some? then [|starts| - 1] else []))
  {
    hide ChunkOf, EndOf;
    var m := |starts| - 1;
    var before := starts[..m];
    forall n | 0 <= n < |from| ensures from[n] < m && Yields(lines, starts, e, max, from[n], Some(chunks[n])) {
      assert Yields(lines, before, starts[m], max, from[n], Some(chunks[n]));
      YieldsInPrefix(lines, starts, e, max, from[n], Some(chunks[n]));
    }
    forall k | 0 <= k < m && k !in from ensures Yields(lines, starts, e, max, k, None) {
      YieldsInPrefix(lines, starts, e, max, k, None);
    }
    hide Yields;
    assert c.Some? ==> (from + [m])[|from|] == m;
  }

  /** Every chunk comes from a region of its own, in order of appearance. */
  lemma {:induction false} ChunkOrigins(lines: seq<string>, starts: seq<nat>, e: nat, max: nat) returns (from: seq<nat>)
    requires e <= |lines| && Ordered(starts, e)
    ensures Origins(lines, starts, e, max, ChunksOf(lines, starts, e, max), from)
  {
    hide ChunkOf;
    from := [];
    if starts != [] {
      hide Origins;
      var m := |starts| - 1;
      assert Ordered(starts[..m], starts[m]);
      from := ChunkOrigins(lines, starts[..m], starts[m], max);
      var c := ChunkOf(lines, starts[m], e, max);
      assert Yields(lines, starts, e, max, m, c);
      hide Ordered, Yields;
      OriginsStep(lines, starts, e, max, ChunksOf(lines, starts[..m], starts[m], max), from, c);
      from := from + (if c.Some? then [m] else []);
    }
  }

  // ---------------------------------------------------------------- the regions the comment describes

  function Level(lines: seq<string>, i: nat): nat
    requires i < |lines|
  {
    Opening(lines, i).level
  }

  /** By the comment above Chunk, line i ends the region that began at line s: it is a heading
      outside fences, and that region is the preamble or has a heading at least as deep. */
  predicate EndsRegion(lines: seq<string>, s: nat, i: nat)
    requires s < i < |lines|
  {
    Boundary(lines, i) && (!Boundary(lines, s) || Level(lines, i) <= Level(lines, s))
  }

  /** The region starts the comment describes, among the first n lines. */
  function DocStarts(lines: seq<string>, n: nat): (starts: seq<nat>)
    requires n <= |lines|
    ensures (n > 0 ==> starts != []) && forall i :: i in starts ==> i < n
  {
    if n == 0 then []
    else if n == 1 then [0]
    else
      var before := DocStarts(lines, n - 1);
      assert before[|before| - 1] in before;
      before + (if EndsRegion(lines, before[|before| - 1], n - 1) then [n - 1] else [])
  }

  /** Headings i and j outside fences follow each other. */
  ghost predicate Adjacent(lines: seq<string>, i: nat, j: nat)
  {
    i < j < |lines| && Boundary(lines, i) && Boundary(lines, j) && forall m :: i < m < j ==> !Boundary(lines, m)
  }

  /** Among the first n lines no heading is deeper than the one just before it. */
  ghost predicate NeverDeeper(lines: seq<string>, n: nat)
    requires n <= |lines|
  {
    forall i: nat, j: nat :: j < n && Adjacent(lines, i, j) ==> Level(lines, j) <= Level(lines, i)
  }

  lemma NoStartInside(starts: seq<nat>, n: nat, k: nat, m: nat)
    requires Ordered(starts, n) && k < |starts| && starts[k] < m < EndOf(starts, k, n)
    ensures m !in starts
  {
  }

  /** The last region start before line n is the last heading, or line 0. */
  lemma LastStart(lines: seq<string>, n: nat)
    requires 0 < n <= |lines|
    ensures var starts := Starts(lines, n);
      && starts != []
      && var s := starts[|starts| - 1];
         s < n && (s == 0 || Boundary(lines, s)) && forall m :: s < m < n ==> !Boundary(lines, m)
  {
    hide Boundary, Starts;
    StartsOrdered(lines, n);
    var starts := Starts(lines, n);
    var s := starts[|starts| - 1];
    assert s in starts;
    forall m | s < m < n ensures !Boundary(lines, m) { NoStartInside(starts, n, |starts| - 1, m); }
  }

  lemma DeeperStep(lines: seq<string>, n: nat, s: nat)
    requires 1 < n <= |lines| && s < n - 1
    requires (s == 0 || Boundary(lines, s)) && forall m :: s < m < n - 1 ==> !Boundary(lines, m)
    ensures NeverDeeper(lines, n) <==>
      NeverDeeper(lines, n - 1) && (Boundary(lines, n - 1) ==> EndsRegion(lines, s, n - 1))
  {
    hide Boundary, Level;
    var last := n - 1;
    if Boundary(lines, last) {
      if Boundary(lines, s) { assert Adjacent(lines, s, last); }
      assert forall i: nat :: Adjacent(lines, i, last) ==> i == s;
    }
  }

  /** The code opens the regions its comment describes if and only if no heading outside fences
      is deeper than the heading just before it. */
  lemma {:induction false} DocumentedIff(lines: seq<string>, n: nat)
    requires n <= |lines|
    ensures DocStarts(lines, n) == Starts(lines, n) <==> NeverDeeper(lines, n)
  {
    hide Boundary, Level;
    if n <= 1 {
      assert n == 1 ==> Starts(lines, 0) == [];
    } else {
      hide NeverDeeper, EndsRegion;
      DocumentedIff(lines, n - 1);
      LastStart(lines, n - 1);
      var before, doc := Starts(lines, n - 1), DocStarts(lines, n - 1);
      DeeperStep(lines, n, before[|before| - 1]);
      if DocStarts(lines, n) == Starts(lines, n) {
        assert Boundary(lines, n - 1) ==> Starts(lines, n)[|before|] == n - 1;
        assert n - 1 !in doc;
        assert doc == DocStarts(lines, n)[..|doc|];
        assert before == Starts(lines, n)[..|before|];
      }
    }
  }

  /** Where, by the comment, a region that began at s ends when it is still open at line j. A
      deeper heading does not end it, so regions read this way overlap. */
  function DocEnd(lines: seq<string>, s: nat, j: nat): (e: nat)
    requires s < j <= |lines|
    ensures j <= e <= |lines|
    decreases |lines| - j
  {
    if j == |lines| || EndsRegion(lines, s, j) then j else DocEnd(lines, s, j + 1)
  }

  lemma {:induction false} DocEndSkips(lines: seq<string>, s: nat, j: nat, e: nat)
    requires s < j <= e <= |lines| && forall m :: j <= m < e ==> !Boundary(lines, m)
    ensures DocEnd(lines, s, j) == DocEnd(lines, s, e)
    decreases e - j
  {
    hide Boundary, Level;
    if j < e { DocEndSkips(lines, s, j + 1, e); }
  }

  /** The documented end of every region is where the code ends it. */
  ghost predicate EndsAsDocumented(lines: seq<string>, starts: seq<nat>)
    requires Ordered(starts, |lines|)
  {
    forall k: nat :: k < |starts| ==> DocEnd(lines, starts[k], starts[k] + 1) == EndOf(starts, k, |lines|)
  }

  /** One region: nothing between its start and its end is a heading, so it ends as documented
      unless the heading that ends it is deeper than its own. */
  lemma RegionEnd(lines: seq<string>, starts: seq<nat>, k: nat)
    requires Ordered(starts, |lines|) && k < |starts|
    requires forall x :: x in starts <==> 0 <= x < |lines| && (x == 0 || Boundary(lines, x))
    ensures var s, e := starts[k], EndOf(starts, k, |lines|);
      && s < e <= |lines|
      && (e < |lines| ==> Boundary(lines, e))
      && (forall m :: s < m < e ==> !Boundary(lines, m))
      && (DocEnd(lines, s, s + 1) == e <==> e == |lines| || EndsRegion(lines, s, e))
  {
    hide Boundary, Level;
    var s, e := starts[k], EndOf(starts, k, |lines|);
    assert s in starts;
    assert k + 1 < |starts| ==> starts[k + 1] in starts;
    forall m | s < m < e ensures !Boundary(lines, m) { NoStartInside(starts, |lines|, k, m); }
    DocEndSkips(lines, s, s + 1, e);
  }

  /** The overlapping reading of the comment: every region ends where the comment says if and only
      if no heading outside fences is deeper than the heading just before it. */
  lemma DocumentedEndsIff(lines: seq<string>)
    ensures var starts := Starts(lines, |lines|);
      Ordered(starts, |lines|) && (EndsAsDocumented(lines, starts) <==> NeverDeeper(lines, |lines|))
  {
    hide Boundary, Starts, EndsAsDocumented, NeverDeeper;
    var starts := Starts(lines, |lines|);
    StartsOrdered(lines, |lines|);
    if NeverDeeper(lines, |lines|) { ThenEnds(lines, starts); }
    if EndsAsDocumented(lines, starts) { ThenNeverDeeper(lines, starts); }
  }

  lemma ThenEnds(lines: seq<string>, starts: seq<nat>)
    requires Ordered(starts, |lines|) && NeverDeeper(lines, |lines|)
    requires forall x :: x in starts <==> 0 <= x < |lines| && (x == 0 || Boundary(lines, x))
    ensures EndsAsDocumented(lines, starts)
  {
    hide Boundary, Level, DocEnd, EndOf;
    forall k: nat | k < |starts| ensures DocEnd(lines, starts[k], starts[k] + 1) == EndOf(starts, k, |lines|) {
      RegionEnd(lines, starts, k);
      var s, e := starts[k], EndOf(starts, k, |lines|);
      if e < |lines| && Boundary(lines, s) { assert Adjacent(lines, s, e); }
    }
  }

  lemma ThenNeverDeeper(lines: seq<string>, starts: seq<nat>)
    requires Ordered(starts, |lines|) && EndsAsDocumented(lines, starts)
    requires forall x :: x in starts <==> 0 <= x < |lines| && (x == 0 || Boundary(lines, x))
    ensures NeverDeeper(lines, |lines|)
  {
    hide Boundary, Level, DocEnd, EndOf;
    forall i: nat, j: nat | j < |lines| && Adjacent(lines, i, j) ensures Level(lines, j) <= Level(lines, i) {
      assert i in starts;
      var k :| 0 <= k < |starts| && starts[k] == i;
      RegionEnd(lines, starts, k);
      NextStart(lines, starts, k, j);
    }
  }

  lemma NextStart(lines: seq<string>, starts: seq<nat>, k: nat, j: nat)
    requires Ordered(starts, |lines|) && k < |starts| && Adjacent(lines, starts[k], j)
    requires forall x :: x in starts <==> 0 <= x < |lines| && (x == 0 || Boundary(lines, x))
    ensures EndOf(starts, k, |lines|) == j
  {
    hide Boundary;
    RegionEnd(lines, starts, k);
    assert j in starts;
    var m :| 0 <= m < |starts| && starts[m] == j;
    assert m > k;
    assert starts[k + 1] <= j;
  }

  /** A trimmed line that is a heading of level n. */
  ghost predicate IsHeading(l: string, n: nat)
  {
    '\n' !in l && !IsFence(l) && TrimSpace(l) == l && HeadingOf(l).Some? && HeadingOf(l).value.level == n
  }

  /** A section with a subsection: two regions, while the comment describes one, which ends with
      the document. */
  lemma DeeperHeadingExample(a: string, b: string)
    requires IsHeading(a, 1) && IsHeading(b, 2)
    ensures var lines := Split(a + "\n" + b);
      && lines == [a, b]
      && Starts(lines, 2) == [0, 1] && DocStarts(lines, 2) == [0] && DocEnd(lines, 0, 1) == 2
  {
    SplitLine(a, b);
    SplitLine(b, "");
    var lines := [a, b];
    hide HeadingOf, TrimSpace, IsFence;
    LineFacts(lines, 0);
    LineFacts(lines, 1);
    assert Boundary(lines, 0) && Boundary(lines, 1);
    assert Level(lines, 0) == 1 && Level(lines, 1) == 2;
    hide Boundary, Level, InFence;
    assert Starts(lines, 0) == [];
    assert Starts(lines, 1) == [0] && DocStarts(lines, 1) == [0];
    assert DocEnd(lines, 0, 2) == 2;
  }

  lemma SomeHeadings()
    ensures IsHeading("# a", 1) && IsHeading("## b", 2)
  {
    assert !IsSpace('a') && !IsSpace('b');
    hide IsHeading, IsSpace;
    ShortHeading("# a", 1);
    ShortHeading("## b", 2);
  }

  lemma ShortHeading(l: string, n: nat)
    requires 1 <= n <= 6 && |l| == n + 2 && l[n] == ' ' && !IsSpace(l[n + 1]) && forall i :: 0 <= i < n ==> l[i] == '#'
    ensures IsHeading(l, n)
  {
  }

  lemma {:induction false} SplitLine(l: string, rest: string)
    requires '\n' !in l
    ensures Split(l) == [l]
    ensures Split(l + "\n" + rest) == [l] + Split(rest)
  {
    hide Split;
    var all := l + "\n" + rest;
    SplitStep(all);
    if l == "" {
      SplitNothing();
      assert all[1..] == rest;
    } else {
      SplitStep(l);
      SplitLine(l[1..], rest);
      assert all[1..] == l[1..] + "\n" + rest;
      assert [l[0]] + l[1..] == l;
    }
  }

  lemma SplitNothing()
    ensures Split("") == [""]
  {
  }
}
