/**
 Stream framing: how the server cuts the bytes of a connection into requests, and that how the bytes arrive makes no
 difference.
 */
module Framing {
  import opened Environment

  newtype byte = b: int | 0 <= b < 256

  const QUOTE: byte := 34
  const BACKSLASH: byte := 92
  const OPEN_BRACE: byte := 123
  const CLOSE_BRACE: byte := 125

  /** `std::isspace` in the C locale: space, \t, \n, \v, \f, \r. */
  predicate IsSpace(ch: byte) {
    ch == 32 || 9 <= ch <= 13
  }

  /** Space, tab, line feed, vertical tab, form feed and carriage return are white space, and nothing else is. */
  lemma SpacesAre(ch: byte)
    ensures IsSpace(ch) <==> ch in [' ' as byte, '\t' as byte, 11, 12, '\n' as byte, '\r' as byte]
  {
  }

  ghost predicate Blank(s: seq<byte>) {
    forall i :: 0 <= i < |s| ==> IsSpace(s[i])
  }

  // ---------- the scanner ----------

  /** The three variables of the scanning loop. */
  datatype Scan = Scan(depth: int, inString: bool, escaping: bool)

  function Step(st: Scan, ch: byte): Scan {
    if st.inString then
      if st.escaping then st.(escaping := false)
      else if ch == BACKSLASH then st.(escaping := true)
      else if ch == QUOTE then st.(inString := false)
      else st
    else if ch == QUOTE then st.(inString := true)
    else if ch == OPEN_BRACE then st.(depth := st.depth + 1)
    else if ch == CLOSE_BRACE then st.(depth := st.depth - 1)
    else st
  }

  /** The byte that ends the object: a brace outside every string that brings the depth back to 0. */
  predicate Closes(st: Scan, ch: byte) {
    !st.inString && ch == CLOSE_BRACE && st.depth == 1
  }

  /** How many bytes of `s` the scanner reads to the end of the object, or -1 if it does not end in `s`. */
  function ObjectEnd(st: Scan, s: seq<byte>): (n: int)
    ensures -1 <= n <= |s| && n != 0
    decreases |s|
  {
    if |s| == 0 then -1
    else if Closes(st, s[0]) then 1
    else
      var n := ObjectEnd(Step(st, s[0]), s[1..]);
      if n < 0 then -1 else n + 1
  }

  const START := Scan(0, false, false)

  function Blanks(s: seq<byte>): (n: nat)
    ensures n <= |s| && Blank(s[..n])
    ensures n < |s| ==> !IsSpace(s[n])
  {
    if |s| == 0 || !IsSpace(s[0]) then 0
    else
      var n := Blanks(s[1..]);
      assert s[..n + 1] == [s[0]] + s[1..][..n];
      n + 1
  }

  /** The outcome of one call: no request yet, or its text; either way with the buffer left behind. */
  datatype Extraction = NeedMore(rest: seq<byte>) | Frame(text: seq<byte>, rest: seq<byte>)

  function Extract(buffer: seq<byte>): (r: Extraction)
    ensures r.Frame? ==> |r.rest| < |buffer| && |r.text| > 0
  {
    var start := Blanks(buffer);
    if start == |buffer| then NeedMore([])
    else if buffer[start] != OPEN_BRACE then Frame(buffer[start..], [])
    else
      var n := ObjectEnd(START, buffer[start..]);
      if n < 0 then NeedMore(buffer) else Frame(buffer[start..start + n], buffer[start + n..])
  }

  /** An extraction depends on the buffer behind its white space only. */
  lemma ExtractOfTail(s: seq<byte>, tail: seq<byte>)
    requires tail == s[Blanks(s)..]
    ensures var n := ObjectEnd(START, tail);
            Extract(s) == if |tail| == 0 then NeedMore([])
                          else if tail[0] != OPEN_BRACE then Frame(tail, [])
                          else if n < 0 then NeedMore(s)
                          else Frame(tail[..n], tail[n..])
  {
    var start, n := Blanks(s), ObjectEnd(START, tail);
    if n >= 0 {
      assert s[start..start + n] == tail[..n];
      assert s[start + n..] == tail[n..];
    }
  }

  lemma BlanksFrom(buffer: seq<byte>, i: nat)
    requires i < |buffer|
    ensures Blanks(buffer[i..]) == if IsSpace(buffer[i]) then 1 + Blanks(buffer[i + 1..]) else 0
  {
    assert buffer[i..][1..] == buffer[i + 1..];
  }

  lemma ObjectEndFrom(st: Scan, buffer: seq<byte>, i: nat)
    requires i < |buffer|
    ensures ObjectEnd(st, buffer[i..]) ==
            if Closes(st, buffer[i]) then 1
            else
              var n := ObjectEnd(Step(st, buffer[i]), buffer[i + 1..]);
              if n < 0 then -1 else n + 1
  {
    assert buffer[i..][1..] == buffer[i + 1..];
  }

  /** `extractSingleJsonObject`: `requestText` is written only when the result is true. */
  method ExtractSingleJsonObject(buffer: seq<byte>, requestText: seq<byte>)
    returns (found: bool, buffer': seq<byte>, requestText': seq<byte>)
    ensures match Extract(buffer)
            case NeedMore(rest) => !found && buffer' == rest && requestText' == requestText
            case Frame(text, rest) => found && buffer' == rest && requestText' == text
  {
    requestText' := requestText;
    var start := 0;
    while start < |buffer| && IsSpace(buffer[start])
      invariant 0 <= start <= |buffer|
      invariant Blanks(buffer) == start + Blanks(buffer[start..])
    {
      BlanksFrom(buffer, start);
      start := start + 1;
    }
    assert Blanks(buffer) == start;
    if start == |buffer| {
      return false, [], requestText';
    }
    if buffer[start] != OPEN_BRACE {
      return true, [], buffer[start..];
    }

    var depth, inString, escaping := 0, false, false;
    ghost var whole := ObjectEnd(START, buffer[start..]);
    for i := start to |buffer|
      invariant var n := ObjectEnd(Scan(depth, inString, escaping), buffer[i..]);
                whole == if n < 0 then -1 else i - start + n
    {
      var ch := buffer[i];
      ObjectEndFrom(Scan(depth, inString, escaping), buffer, i);
      if inString {
        if escaping {
          escaping := false;
        } else if ch == BACKSLASH {
          escaping := true;
        } else if ch == QUOTE {
          inString := false;
        }
      } else if ch == QUOTE {
        inString := true;
      } else if ch == OPEN_BRACE {
        depth := depth + 1;
      } else if ch == CLOSE_BRACE {
        depth := depth - 1;
        if depth == 0 {
          assert whole == i + 1 - start;
          return true, buffer[i + 1..], buffer[start..i + 1];
        }
      }
    }
    assert whole == -1;
    return false, buffer, requestText';
  }

  // ---------- a whole buffer, a whole stream ----------

  /** What has become of some bytes: skipped white space, or the text of a request. */
  datatype Piece = Gap(bytes: seq<byte>) | Request(bytes: seq<byte>)

  /** The loop of `request`: the pieces it takes off the buffer, and what it leaves there. */
  datatype Drained = Drained(pieces: seq<Piece>, rest: seq<byte>)

  function Drain(buffer: seq<byte>): Drained
    decreases |buffer|
  {
    var start := Blanks(buffer);
    match Extract(buffer)
    case NeedMore(rest) => if |rest| == 0 then Drained([Gap(buffer)], []) else Drained([], rest)
    case Frame(text, rest) =>
      var d := Drain(rest);
      Drained([Gap(buffer[..start]), Request(text)] + d.pieces, d.rest)
  }

  /** One `request` call for every chunk, on one connection. */
  function Feed(buffer: seq<byte>, chunks: seq<seq<byte>>): Drained
    decreases |chunks|
  {
    if |chunks| == 0 then Drained([], buffer)
    else
      var d := Drain(buffer + chunks[0]);
      var d' := Feed(d.rest, chunks[1..]);
      Drained(d.pieces + d'.pieces, d'.rest)
  }

  function Frames(pieces: seq<Piece>): seq<seq<byte>> {
    if |pieces| == 0 then []
    else if pieces[0].Request? then [pieces[0].bytes] + Frames(pieces[1..])
    else Frames(pieces[1..])
  }

  function Bytes(pieces: seq<Piece>): seq<byte> {
    if |pieces| == 0 then [] else pieces[0].bytes + Bytes(pieces[1..])
  }

  function Concat(chunks: seq<seq<byte>>): seq<byte> {
    if |chunks| == 0 then [] else chunks[0] + Concat(chunks[1..])
  }

  // ---------- conservation ----------

  lemma {:induction false} BytesAppend(a: seq<Piece>, b: seq<Piece>)
    ensures Bytes(a + b) == Bytes(a) + Bytes(b)
    decreases |a|
  {
    if |a| == 0 {
      assert a + b == b;
    } else {
      BytesAppend(a[1..], b);
      assert (a + b)[1..] == a[1..] + b;
    }
  }

  lemma {:induction false} FramesAppend(a: seq<Piece>, b: seq<Piece>)
    ensures Frames(a + b) == Frames(a) + Frames(b)
    decreases |a|
  {
    if |a| == 0 {
      assert a + b == b;
    } else {
      FramesAppend(a[1..], b);
      assert (a + b)[1..] == a[1..] + b;
      assert [a[0].bytes] + (Frames(a[1..]) + Frames(b)) == ([a[0].bytes] + Frames(a[1..])) + Frames(b);
    }
  }

  ghost predicate GapsAreBlank(pieces: seq<Piece>) {
    forall i :: 0 <= i < |pieces| && pieces[i].Gap? ==> Blank(pieces[i].bytes)
  }

  /** An extraction splits what is behind the white space. */
  lemma TailSplits(buffer: seq<byte>, tail: seq<byte>)
    requires tail == buffer[Blanks(buffer)..] && Extract(buffer).Frame?
    ensures tail == Extract(buffer).text + Extract(buffer).rest
    ensures |tail| > 0 && Extract(buffer).text[0] == tail[0] && !IsSpace(tail[0])
  {
    ExtractOfTail(buffer, tail);
    var n := ObjectEnd(START, tail);
    if tail[0] != OPEN_BRACE {
      assert tail + [] == tail;
    } else {
      assert tail[..n] + tail[n..] == tail;
    }
  }

  lemma Assoc(a: seq<byte>, b: seq<byte>, c: seq<byte>)
    ensures (a + b) + c == a + (b + c)
  {
  }

  /** One extraction splits the buffer into white space, the text of the request and the rest. */
  lemma ExtractSplits(buffer: seq<byte>)
    ensures match Extract(buffer)
            case NeedMore(rest) => rest == if Blank(buffer) then [] else buffer
            case Frame(text, rest) => buffer == buffer[..Blanks(buffer)] + text + rest && !IsSpace(text[0])
  {
    var head, tail := buffer[..Blanks(buffer)], buffer[Blanks(buffer)..];
    assert buffer == head + tail;
    if Extract(buffer).Frame? {
      TailSplits(buffer, tail);
      Assoc(head, Extract(buffer).text, Extract(buffer).rest);
    } else {
      ExtractOfTail(buffer, tail);
      if |tail| == 0 {
        assert head == buffer;
      } else {
        assert !IsSpace(buffer[Blanks(buffer)]);
      }
    }
  }

  lemma BytesOfTwo(gap: Piece, request: Piece, pieces: seq<Piece>)
    ensures Bytes([gap, request] + pieces) == gap.bytes + (request.bytes + Bytes(pieces))
  {
    assert ([gap, request] + pieces)[1..] == [request] + pieces;
    assert ([request] + pieces)[1..] == pieces;
  }

  lemma BytesOfDrain(s: seq<byte>)
    ensures Bytes(Drain(s).pieces) ==
            match Extract(s)
            case NeedMore(rest) => if |rest| == 0 then s else []
            case Frame(text, rest) => s[..Blanks(s)] + (text + Bytes(Drain(rest).pieces))
  {
    match Extract(s)
    case NeedMore(rest) =>
      assert [Gap(s)][1..] == [];
      assert s + [] == s;
    case Frame(text, rest) =>
      BytesOfTwo(Gap(s[..Blanks(s)]), Request(text), Drain(rest).pieces);
  }

  /** The drained pieces and the rest are the buffer, in order. */
  lemma {:induction false} DrainConserves(buffer: seq<byte>)
    ensures Bytes(Drain(buffer).pieces) + Drain(buffer).rest == buffer
    decreases |buffer|
  {
    BytesOfDrain(buffer);
    ExtractSplits(buffer);
    match Extract(buffer)
    case NeedMore(rest) =>
      assert buffer + [] == buffer == [] + buffer;
    case Frame(text, rest) =>
      DrainConserves(rest);
      Assoc(buffer[..Blanks(buffer)], text + Bytes(Drain(rest).pieces), Drain(rest).rest);
      Assoc(text, Bytes(Drain(rest).pieces), Drain(rest).rest);
      Assoc(buffer[..Blanks(buffer)], text, rest);
  }

  /** Only white space is dropped. */
  lemma {:induction false} DrainDropsBlanks(buffer: seq<byte>)
    ensures GapsAreBlank(Drain(buffer).pieces)
    decreases |buffer|
  {
    match Extract(buffer)
    case NeedMore(rest) =>
      assert buffer[..|buffer|] == buffer;
    case Frame(text, rest) =>
      DrainDropsBlanks(rest);
  }

  /**
   Conservation over a whole connection, whatever it sends and however it arrives: the bytes received are exactly the
   skipped white space, the requests and the bytes still buffered, in order.
   */
  lemma {:induction false} FeedConserves(buffer: seq<byte>, chunks: seq<seq<byte>>)
    ensures Bytes(Feed(buffer, chunks).pieces) + Feed(buffer, chunks).rest == buffer + Concat(chunks)
    ensures GapsAreBlank(Feed(buffer, chunks).pieces)
    decreases |chunks|
  {
    if |chunks| == 0 {
      assert [] + buffer == buffer == buffer + [];
    } else {
      var d := Drain(buffer + chunks[0]);
      var d' := Feed(d.rest, chunks[1..]);
      DrainConserves(buffer + chunks[0]);
      DrainDropsBlanks(buffer + chunks[0]);
      FeedConserves(d.rest, chunks[1..]);
      BytesAppend(d.pieces, d'.pieces);
      Assoc(Bytes(d.pieces), Bytes(d'.pieces), d'.rest);
      Assoc(Bytes(d.pieces), d.rest, Concat(chunks[1..]));
      Assoc(buffer, chunks[0], Concat(chunks[1..]));
    }
  }

  // ---------- appended bytes ----------

  /** An object that has ended stays ended whatever follows. */
  lemma {:induction false} ObjectEndAppend(st: Scan, s: seq<byte>, more: seq<byte>)
    requires ObjectEnd(st, s) >= 0
    ensures ObjectEnd(st, s + more) == ObjectEnd(st, s)
    decreases |s|
  {
    if !Closes(st, s[0]) {
      ObjectEndAppend(Step(st, s[0]), s[1..], more);
      assert (s + more)[1..] == s[1..] + more;
    }
  }

  lemma {:induction false} BlanksAppend(s: seq<byte>, more: seq<byte>)
    ensures Blanks(s + more) == if Blanks(s) < |s| then Blanks(s) else |s| + Blanks(more)
    decreases |s|
  {
    if |s| == 0 {
      assert s + more == more;
    } else if IsSpace(s[0]) {
      BlanksAppend(s[1..], more);
      assert (s + more)[1..] == s[1..] + more;
    }
  }

  lemma SlicesOfAppend(s: seq<byte>, more: seq<byte>, n: nat)
    requires n <= |s|
    ensures (s + more)[..n] == s[..n] && (s + more)[n..] == s[n..] + more
  {
  }

  /** A completed extraction of an object is unaffected by bytes appended later: they go to the rest. */
  lemma ExtractAppend(buffer: seq<byte>, more: seq<byte>)
    requires Extract(buffer).Frame? && Extract(buffer).text[0] == OPEN_BRACE
    ensures Extract(buffer + more) == Frame(Extract(buffer).text, Extract(buffer).rest + more)
  {
    var tail := buffer[Blanks(buffer)..];
    ExtractOfTail(buffer, tail);
    BlanksAppend(buffer, more);
    ExtractOfTail(buffer + more, tail + more);
    ObjectEndAppend(START, tail, more);
    SlicesOfAppend(tail, more, ObjectEnd(START, tail));
  }

  lemma {:induction false} BlanksOfBlank(s: seq<byte>)
    requires Blank(s)
    ensures Blanks(s) == |s|
  {
    if |s| > 0 {
      BlanksOfBlank(s[1..]);
    }
  }

  lemma ExtractAfterBlanks(blank: seq<byte>, s: seq<byte>)
    requires Blank(blank)
    ensures Extract(blank + s).Frame? == Extract(s).Frame?
    ensures Extract(s).Frame? ==> Extract(blank + s) == Extract(s)
  {
    BlanksOfBlank(blank);
    BlanksAppend(blank, s);
    assert (blank + s)[Blanks(blank + s)..] == s[Blanks(s)..];
    ExtractOfTail(blank + s, s[Blanks(s)..]);
    ExtractOfTail(s, s[Blanks(s)..]);
  }

  lemma FramesOfTwo(gap: Piece, request: Piece, pieces: seq<Piece>)
    requires gap.Gap? && request.Request?
    ensures Frames([gap, request] + pieces) == [request.bytes] + Frames(pieces)
  {
    assert ([gap, request] + pieces)[1..] == [request] + pieces;
    assert ([request] + pieces)[1..] == pieces;
  }

  lemma FramesOfDrain(s: seq<byte>)
    ensures Frames(Drain(s).pieces) ==
            match Extract(s)
            case NeedMore(_) => []
            case Frame(text, rest) => [text] + Frames(Drain(rest).pieces)
  {
    match Extract(s)
    case NeedMore(rest) =>
      assert [Gap(s)][1..] == [];
    case Frame(text, rest) =>
      FramesOfTwo(Gap(s[..Blanks(s)]), Request(text), Drain(rest).pieces);
  }

  /**
   The streams on which cutting makes no difference: every request text starts with an opening brace, except that the
   last may be a single other byte.
   */
  predicate Steady(s: seq<byte>)
    decreases |s|
  {
    match Extract(s)
    case NeedMore(_) => true
    case Frame(text, rest) => if text[0] == OPEN_BRACE then Steady(rest) else |text| == 1
  }

  /** White space in front of a buffer makes no difference to its frames. */
  lemma BlankPrefix(blank: seq<byte>, s: seq<byte>)
    requires Blank(blank)
    ensures Frames(Drain(blank + s).pieces) == Frames(Drain(s).pieces)
    ensures Steady(blank + s) == Steady(s)
  {
    ExtractAfterBlanks(blank, s);
    FramesOfDrain(s);
    FramesOfDrain(blank + s);
  }

  // ---------- chunk independence ----------

  lemma FramesAssoc(text: seq<byte>, a: seq<seq<byte>>, b: seq<seq<byte>>)
    ensures [text] + (a + b) == ([text] + a) + b
  {
  }

  lemma NoFramesLeft()
    ensures Drain([]) == Drained([Gap([])], []) && Frames(Drain([]).pieces) == []
  {
    assert [Gap([])][1..] == [];
  }

  /** A request that does not start with a brace takes everything; so in a steady stream nothing follows it. */
  lemma OtherFrame(a: seq<byte>, b: seq<byte>)
    requires Steady(a + b) && Extract(a).Frame? && Extract(a).text[0] != OPEN_BRACE
    ensures b == [] && Drain(a).rest == [] && Frames(Drain(a).pieces) == Frames(Drain(a + b).pieces)
    ensures Frames(Drain(Drain(a).rest + b).pieces) == [] && Steady(Drain(a).rest + b)
  {
    BlanksAppend(a, b);
    var start := Blanks(a);
    assert (a + b)[start..] == a[start..] + b;
    assert |a[start..] + b| == 1;
    assert a + b == a;
    NoFramesLeft();
  }

  /** Draining in two goes, the second with what the first has left. */
  lemma {:induction false} DrainTwice(a: seq<byte>, b: seq<byte>)
    requires Steady(a + b)
    ensures Frames(Drain(a + b).pieces) == Frames(Drain(a).pieces) + Frames(Drain(Drain(a).rest + b).pieces)
    ensures Steady(Drain(a).rest + b)
    decreases |a|
  {
    FramesOfDrain(a);
    match Extract(a)
    case NeedMore(rest) =>
      ExtractSplits(a);
      if |rest| == 0 {
        assert [] + b == b;
        BlankPrefix(a, b);
      }
    case Frame(text, rest) =>
      if text[0] == OPEN_BRACE {
        ExtractAppend(a, b);
        FramesOfDrain(a + b);
        DrainTwice(rest, b);
        FramesAssoc(text, Frames(Drain(rest).pieces), Frames(Drain(Drain(rest).rest + b).pieces));
      } else {
        OtherFrame(a, b);
      }
  }

  /** There is no request left in what a drain leaves. */
  lemma {:induction false} DrainOfRest(s: seq<byte>)
    ensures Drain(Drain(s).rest).rest == Drain(s).rest && Frames(Drain(Drain(s).rest).pieces) == []
    decreases |s|
  {
    match Extract(s)
    case NeedMore(rest) =>
      if |rest| == 0 {
        NoFramesLeft();
      }
    case Frame(text, rest) =>
      DrainOfRest(rest);
  }

  /** However a steady stream is cut into chunks, the frames are those of the stream received in one piece. */
  lemma {:induction false} ChunksDoNotMatter(buffer: seq<byte>, chunks: seq<seq<byte>>)
    requires Steady(buffer + Concat(chunks)) && Drain(buffer).rest == buffer && Frames(Drain(buffer).pieces) == []
    ensures Frames(Feed(buffer, chunks).pieces) == Frames(Drain(buffer + Concat(chunks)).pieces)
    decreases |chunks|
  {
    if |chunks| == 0 {
      assert buffer + Concat(chunks) == buffer;
    } else {
      var next := Drain(buffer + chunks[0]);
      assert buffer + Concat(chunks) == (buffer + chunks[0]) + Concat(chunks[1..]);
      DrainTwice(buffer + chunks[0], Concat(chunks[1..]));
      DrainOfRest(buffer + chunks[0]);
      ChunksDoNotMatter(next.rest, chunks[1..]);
      FramesAppend(next.pieces, Feed(next.rest, chunks[1..]).pieces);
    }
  }

  /** `a` has at index `i` something that `b` has not. */
  ghost predicate DifferAt(a: seq<seq<byte>>, b: seq<seq<byte>>, i: int) {
    0 <= i < |a| && (i >= |b| || a[i] != b[i])
  }

  lemma DifferBehind(first: seq<byte>, a: seq<seq<byte>>, b: seq<seq<byte>>, i: int)
    requires DifferAt(a, b, i)
    ensures DifferAt([first] + a, [first] + b, i + 1)
  {
  }

  /** The end of an object does not depend on what is behind it. */
  lemma {:induction false} ObjectEndExact(st: Scan, s: seq<byte>)
    requires ObjectEnd(st, s) >= 0
    ensures ObjectEnd(st, s[..ObjectEnd(st, s)]) == ObjectEnd(st, s)
    decreases |s|
  {
    var n := ObjectEnd(st, s);
    if !Closes(st, s[0]) {
      ObjectEndExact(Step(st, s[0]), s[1..]);
      assert s[..n][1..] == s[1..][..n - 1];
    }
  }

  /** The first frame of a stream stays the first frame when something else is put behind it. */
  lemma FirstFrame(s: seq<byte>, head: seq<byte>, l: seq<byte>)
    requires Extract(s).Frame? && Extract(s).text[0] == OPEN_BRACE
    requires head == s[..Blanks(s)] + Extract(s).text
    ensures Frames(Drain(head + l).pieces) == [Extract(s).text] + Frames(Drain(l).pieces)
  {
    var blank, tail, text := s[..Blanks(s)], s[Blanks(s)..], Extract(s).text;
    ExtractOfTail(s, tail);
    ObjectEndExact(START, tail);
    ObjectEndAppend(START, text, l);
    SlicesOfAppend(text, l, |text|);
    assert Blanks(text + l) == 0;
    ExtractOfTail(text + l, text + l);
    Assoc(blank, text, l);
    ExtractAfterBlanks(blank, text + l);
    FramesOfDrain(head + l);
  }

  /** A text that starts with neither white space nor a brace is one request, whatever it holds. */
  lemma OtherText(s: seq<byte>)
    requires |s| > 0 && !IsSpace(s[0]) && s[0] != OPEN_BRACE
    ensures Frames(Drain(s).pieces) == [s] && Drain(s).rest == []
    ensures Steady(s) <==> |s| == 1
  {
    assert s[0..] == s;
    assert Extract(s) == Frame(s, []);
    FramesOfDrain(s);
    NoFramesLeft();
  }

  /** Cut after its first byte, a request that does not start with a brace becomes a request of one byte. */
  lemma OtherByteAfter(blank: seq<byte>, ch: byte)
    requires Blank(blank) && !IsSpace(ch) && ch != OPEN_BRACE
    ensures Frames(Drain(blank + [ch]).pieces) == [[ch]]
  {
    OtherText([ch]);
    BlankPrefix(blank, [ch]);
  }

  lemma OtherCut(s: seq<byte>, start: nat) returns (left: seq<byte>, right: seq<byte>)
    requires start < |s| - 1 && Blank(s[..start]) && !IsSpace(s[start]) && s[start] != OPEN_BRACE
    ensures left + right == s
    ensures Frames(Drain(left).pieces) == [[s[start]]] && [s[start]] != s[start..]
  {
    left, right := s[..start] + [s[start]], s[start + 1..];
    OtherByteAfter(s[..start], s[start]);
    assert |s[start..]| > 1;
  }

  /** Where a stream is not steady, there is a cut that changes its frames. */
  lemma {:induction false} UnsteadyCut(s: seq<byte>) returns (left: seq<byte>, right: seq<byte>, i: int)
    requires !Steady(s)
    ensures left + right == s
    ensures DifferAt(Frames(Drain(left).pieces), Frames(Drain(s).pieces), i)
    decreases |s|
  {
    FramesOfDrain(s);
    ExtractSplits(s);
    var text, rest := Extract(s).text, Extract(s).rest;
    if text[0] == OPEN_BRACE {
      var l, r, j := UnsteadyCut(rest);
      var head := s[..Blanks(s)] + text;
      left, right, i := head + l, r, j + 1;
      Assoc(head, l, r);
      FirstFrame(s, head, l);
      DifferBehind(text, Frames(Drain(l).pieces), Frames(Drain(rest).pieces), j);
    } else {
      left, right := OtherCut(s, Blanks(s));
      i := 0;
    }
  }

  /** The frames do not depend on the cut, for every cut. */
  ghost predicate ChunkIndependent(s: seq<byte>) {
    forall chunks :: Concat(chunks) == s ==> Frames(Feed([], chunks).pieces) == Frames(Drain(s).pieces)
  }

  lemma TwoChunks(left: seq<byte>, right: seq<byte>)
    ensures Concat([left, right]) == left + right
    ensures Frames(Feed([], [left, right]).pieces) ==
            Frames(Drain(left).pieces) + Frames(Drain(Drain(left).rest + right).pieces)
  {
    assert [left, right][1..] == [right] && [right][1..] == [];
    assert Concat([right]) == right + [] == right;
    assert [] + left == left;
    var d := Drain(left);
    var d' := Drain(d.rest + right);
    assert Feed(d.rest, [right]) == Drained(d'.pieces + [], d'.rest);
    assert d'.pieces + [] == d'.pieces;
    FramesAppend(d.pieces, d'.pieces);
  }

  /** Exactly the steady streams are framed independently of how they are cut. */
  lemma ChunkIndependence(s: seq<byte>)
    ensures ChunkIndependent(s) <==> Steady(s)
  {
    NoFramesLeft();
    if Steady(s) {
      forall chunks | Concat(chunks) == s ensures Frames(Feed([], chunks).pieces) == Frames(Drain(s).pieces) {
        assert [] + s == s;
        ChunksDoNotMatter([], chunks);
      }
    } else {
      var left, right, i := UnsteadyCut(s);
      TwoChunks(left, right);
      var all := Frames(Feed([], [left, right]).pieces);
      assert all[i] == Frames(Drain(left).pieces)[i];
      assert Concat([left, right]) == s;
    }
  }

  lemma OneChunk(s: seq<byte>)
    ensures Frames(Feed([], [s]).pieces) == Frames(Drain(s).pieces)
  {
    assert [s][1..] == [] && [] + s == s;
    var d := Drain(s);
    assert Feed(d.rest, []) == Drained([], d.rest);
    assert d.pieces + [] == d.pieces;
  }

  /** Two bytes of which neither is white space or starts an object: one request together, two requests apart. */
  lemma TwoOtherBytes(x: byte, y: byte)
    requires !IsSpace(x) && x != OPEN_BRACE && !IsSpace(y) && y != OPEN_BRACE
    ensures !Steady([x, y])
    ensures Frames(Feed([], [[x, y]]).pieces) == [[x, y]]
    ensures Frames(Feed([], [[x], [y]]).pieces) == [[x], [y]]
  {
    OtherText([x, y]);
    OneChunk([x, y]);
    OtherText([x]);
    OtherText([y]);
    TwoChunks([x], [y]);
    assert [] + [y] == [y];
  }

  /** The witness: the bytes of "ab". */
  lemma UnsteadyStream()
    ensures !Steady([97, 98]) && !ChunkIndependent([97, 98])
    ensures Frames(Feed([], [[97, 98]]).pieces) == [[97, 98]]
    ensures Frames(Feed([], [[97], [98]]).pieces) == [[97], [98]]
  {
    TwoOtherBytes(97, 98);
    ChunkIndependence([97, 98]);
  }

  lemma MoveFrame(done: seq<seq<byte>>, text: seq<byte>, todo: seq<seq<byte>>)
    ensures done + ([text] + todo) == (done + [text]) + todo
  {
  }

  /** Draining `whole` has yielded `texts` so far, and `buffer` is left. */
  ghost predicate Ahead(texts: seq<seq<byte>>, buffer: seq<byte>, whole: seq<byte>) {
    texts + Frames(Drain(buffer).pieces) == Frames(Drain(whole).pieces) && Drain(buffer).rest == Drain(whole).rest
  }

  lemma AheadAtStart(whole: seq<byte>)
    ensures Ahead([], whole, whole)
  {
    assert [] + Frames(Drain(whole).pieces) == Frames(Drain(whole).pieces);
  }

  /** The next extraction either goes on with the drain or ends it. */
  lemma AheadStep(texts: seq<seq<byte>>, buffer: seq<byte>, whole: seq<byte>)
    requires Ahead(texts, buffer, whole)
    ensures Extract(buffer).NeedMore? ==>
              texts == Frames(Drain(whole).pieces) && Extract(buffer).rest == Drain(whole).rest
    ensures Extract(buffer).Frame? ==> Ahead(texts + [Extract(buffer).text], Extract(buffer).rest, whole)
  {
    FramesOfDrain(buffer);
    if Extract(buffer).NeedMore? {
      assert texts + [] == texts;
    } else {
      MoveFrame(texts, Extract(buffer).text, Frames(Drain(Extract(buffer).rest).pieces));
    }
  }

  // ---------- the connections of the server ----------

  /** The buffers of the open connections. */
  class Reader {
    var connectionBuffers: map<Connection, seq<byte>>

    function Buffered(bev: Connection): seq<byte>
      reads this
    {
      if bev in connectionBuffers then connectionBuffers[bev] else []
    }

    constructor ()
      ensures connectionBuffers == map[]
    {
      connectionBuffers := map[];
    }

    /** A chunk goes behind what is buffered; the buffer is made if there is none. */
    method Append(bev: Connection, data: seq<byte>)
      modifies this
      ensures connectionBuffers == old(connectionBuffers)[bev := old(Buffered(bev)) + data]
    {
      connectionBuffers := connectionBuffers[bev := Buffered(bev) + data];
    }

    /** The next request text is taken off the buffer of a connection, if it is there in full. */
    method TakeText(bev: Connection, requestText: seq<byte>) returns (found: bool, requestText': seq<byte>)
      requires bev in connectionBuffers
      modifies this
      ensures match Extract(old(connectionBuffers[bev]))
              case NeedMore(rest) =>
                !found && requestText' == requestText && connectionBuffers == old(connectionBuffers)[bev := rest]
              case Frame(text, rest) =>
                found && requestText' == text && connectionBuffers == old(connectionBuffers)[bev := rest]
    {
      var buffer;
      found, buffer, requestText' := ExtractSingleJsonObject(connectionBuffers[bev], requestText);
      connectionBuffers := connectionBuffers[bev := buffer];
    }

    /** The buffer part of `eraseConnection`: whoever gets the handle next starts with an empty buffer. */
    method OnClose(bev: Connection)
      modifies this
      ensures connectionBuffers == old(connectionBuffers) - {bev} && Buffered(bev) == []
    {
      connectionBuffers := connectionBuffers - {bev};
    }
  }
}
