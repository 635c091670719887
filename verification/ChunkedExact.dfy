/** Exactly which texts the chunked reader accepts: complete bodies, and bodies broken off behind a chunk. */
module ChunkedExact {
  import opened Texts
  import opened Streams
  import opened Chunked

  // ---------------------------------------------------------------- bodies as text (section 4.1 of RFC 7230)

  ghost predicate IsLine(line: string) {
    line != "" && line[|line| - 1] == '\n' && forall i :: 0 <= i < |line| - 1 ==> line[i] != '\n'
  }

  /** A line whose number, as `strtoul` reads it, is `n`. */
  ghost predicate SizeLine(line: string, n: nat) {
    IsLine(line) && Strtoul(CString(line)) == Some(n)
  }

  datatype Chunk = Chunk(line: string, data: string)

  ghost predicate GoodChunk(c: Chunk) {
    0 < |c.data| < ULONG_MAX && SizeLine(c.line, |c.data|)
  }

  ghost predicate GoodChunks(cs: seq<Chunk>) { forall i :: 0 <= i < |cs| ==> GoodChunk(cs[i]) }

  function ChunksText(cs: seq<Chunk>): string {
    if cs == [] then "" else cs[0].line + (cs[0].data + ("\r\n" + ChunksText(cs[1..])))
  }

  function Data(cs: seq<Chunk>): string {
    if cs == [] then "" else cs[0].data + Data(cs[1..])
  }

  /** Chunks, a line with the number zero, an end of line, and whatever comes after the body. */
  ghost predicate Body(s: string, cs: seq<Chunk>, last: string, more: string) {
    GoodChunks(cs) && SizeLine(last, 0) && s == ChunksText(cs) + (last + ("\r\n" + more))
  }

  /** Chunks, and one more with something else than an end of line behind it. */
  ghost predicate Cut(s: string, cs: seq<Chunk>, c: Chunk, more: string) {
    GoodChunks(cs) && GoodChunk(c) && more != "" && !("\r\n" <= more) && s == ChunksText(cs) + (c.line + (c.data + more))
  }

  ghost predicate Complete(s: string) {
    exists cs: seq<Chunk>, last: string, more: string :: Body(s, cs, last, more)
  }

  ghost predicate BrokenOff(s: string) {
    exists cs: seq<Chunk>, c: Chunk, more: string :: Cut(s, cs, c, more)
  }

  // ---------------------------------------------------------------- lines

  lemma FirstLine(line: string, rest: string)
    requires IsLine(line)
    ensures LineOf(line + rest) == line && (line + rest)[|line|..] == rest && line + rest != ""
  {
    LineIs(line, rest);
  }

  lemma {:induction false} CStringClean(s: string)
    requires forall i :: 0 <= i < |s| ==> s[i] != '\0'
    ensures CString(s) == s
  {
    if s != "" { CStringClean(s[1..]); }
  }

  /** The test for an end of line, a comparison of C strings with a line, is one for CR and LF at the front. */
  lemma EndOfLine(s: string)
    requires s != ""
    ensures CString(LineOf(s)) == "\r\n" <==> "\r\n" <= s
    ensures "\r\n" <= s ==> LineOf(s) == "\r\n" && s == "\r\n" + s[2..] && s[|LineOf(s)|..] == s[2..]
  {
    if "\r\n" <= s {
      assert s == "\r\n" + s[2..];
      LineIs("\r\n", s[2..]);
      CStringClean("\r\n");
    }
  }

  // ---------------------------------------------------------------- reading one piece

  lemma NothingBefore(r: Received)
    ensures Behind("", r) == r
  {
  }

  /** A chunk and its end of line are passed, if anything is left. */
  lemma ReadOne(c: Chunk, rest: string)
    requires GoodChunk(c) && rest != ""
    ensures ReadChunked(c.line + (c.data + ("\r\n" + rest))) == Behind(c.data, ReadChunked(rest))
  {
    hide CString, Strtoul, LineOf, ReadChunks, AfterChunk;
    var tail := "\r\n" + rest;
    var s := c.data + tail;
    FirstLine(c.line, s);
    ReadChunksSize(c.line, s, "", |c.data|, c.data, tail);
    EndOfLine(tail);
    assert tail[2..] == rest;
    AfterChunkMore("", c.data, tail);
    NothingBefore(ReadChunks(c.line, s));
    assert "" + c.data == c.data;
  }

  lemma ReadLast(last: string, more: string)
    requires SizeLine(last, 0)
    ensures ReadChunked(last + ("\r\n" + more)) == Received(true, "", more)
  {
    hide CString, Strtoul, LineOf, ReadChunks, AfterChunk;
    var tail := "\r\n" + more;
    FirstLine(last, tail);
    ReadChunksEnds(last, tail);
    EndOfLine(tail);
    assert tail[2..] == more;
  }

  lemma ReadCut(c: Chunk, more: string)
    requires GoodChunk(c) && more != "" && !("\r\n" <= more)
    ensures ReadChunked(c.line + (c.data + more)) == Received(true, c.data, more[|LineOf(more)|..])
  {
    hide CString, Strtoul, LineOf, ReadChunks, AfterChunk;
    var s := c.data + more;
    FirstLine(c.line, s);
    ReadChunksSize(c.line, s, "", |c.data|, c.data, more);
    EndOfLine(more);
    AfterChunkEnds("", c.data, more);
    NothingBefore(ReadChunks(c.line, s));
    assert "" + c.data == c.data;
  }

  // ---------------------------------------------------------------- reading them all

  /** Chunks in front of a text that is not empty. */
  lemma {:induction false} ReadAll(cs: seq<Chunk>, rest: string)
    requires GoodChunks(cs) && rest != ""
    ensures ReadChunked(ChunksText(cs) + rest) == Behind(Data(cs), ReadChunked(rest))
    decreases |cs|
  {
    hide ReadChunked, GoodChunk;
    if cs == [] {
      assert ChunksText(cs) + rest == rest;
      NothingBefore(ReadChunked(rest));
    } else {
      var c, more := cs[0], ChunksText(cs[1..]) + rest;
      assert ChunksText(cs) + rest == c.line + (c.data + ("\r\n" + more));
      ReadAll(cs[1..], rest);
      ReadOne(c, more);
      BehindTwice(c.data, Data(cs[1..]), ReadChunked(rest));
    }
  }

  lemma BodyReads(s: string, cs: seq<Chunk>, last: string, more: string)
    requires Body(s, cs, last, more)
    ensures ReadChunked(s) == Received(true, Data(cs), more)
  {
    hide ReadChunked, ChunksText, Data;
    ReadAll(cs, last + ("\r\n" + more));
    ReadLast(last, more);
    assert Data(cs) + "" == Data(cs);
  }

  lemma CutReads(s: string, cs: seq<Chunk>, c: Chunk, more: string)
    requires Cut(s, cs, c, more)
    ensures ReadChunked(s) == Received(true, Data(cs) + c.data, more[|LineOf(more)|..])
  {
    hide ReadChunked, ChunksText, Data;
    assert c.line + (c.data + more) != "";
    ReadAll(cs, c.line + (c.data + more));
    ReadCut(c, more);
  }

  // ---------------------------------------------------------------- nothing else is accepted

  /** The first line of an accepted text. */
  lemma AcceptedLine(s: string) returns (size: nat)
    requires ReadChunked(s).ok
    ensures s != "" && s[|LineOf(s)|..] != "" && SizeLine(LineOf(s), size) && size < ULONG_MAX
    ensures s == LineOf(s) + s[|LineOf(s)|..]
    ensures ReadChunked(s) == ReadChunks(LineOf(s), s[|LineOf(s)|..])
  {
    hide CString, Strtoul, AfterChunk, LineLength;
    var line, rest := LineOf(s), s[|LineOf(s)|..];
    assert ReadChunks(line, rest).ok;
    assert rest != "";
    assert IsLine(line);
    size := Strtoul(CString(line)).value;
  }

  lemma AcceptedEnd(s: string, line: string, rest: string)
    requires s == line + rest && SizeLine(line, 0) && rest != "" && ReadChunks(line, rest).ok
    ensures "\r\n" <= rest && Body(s, [], line, rest[2..])
  {
    hide CString, Strtoul, LineOf;
    ReadChunksEnds(line, rest);
    EndOfLine(rest);
    assert ChunksText([]) + s == s;
  }

  /** How an accepted text is made up. */
  lemma {:induction false} AcceptedParts(s: string) returns (cs: seq<Chunk>, c: Option<Chunk>, last: string, more: string)
    requires ReadChunked(s).ok
    ensures if c.None? then Body(s, cs, last, more) else Cut(s, cs, c.value, more)
    decreases |s|
  {
    hide CString, Strtoul, LineOf, ReadChunks, AfterChunk, ReadChunked, Body, Cut;
    var size := AcceptedLine(s);
    var line, rest := LineOf(s), s[|LineOf(s)|..];
    if size == 0 {
      AcceptedEnd(s, line, rest);
      return [], None, line, rest[2..];
    }
    AcceptedSize(line, rest, size);
    var first, tail := Chunk(line, rest[..size]), rest[size..];
    assert s == line + (first.data + tail);
    EndOfLine(tail);
    AfterChunkEnds("", first.data, tail);
    NothingBefore(AfterChunk(first.data, tail));
    if !("\r\n" <= tail) {
      OneCut(s, first, tail);
      return [], Some(first), "", tail;
    }
    AfterChunkMore("", first.data, tail);
    ReadsOn(first.data, tail[2..]);
    cs, c, last, more := AcceptedParts(tail[2..]);
    PutFirst(s, first, tail[2..], cs, c, last, more);
    cs := [first] + cs;
  }

  lemma AcceptedSize(line: string, rest: string, size: nat)
    requires SizeLine(line, size) && 0 < size < ULONG_MAX && ReadChunks(line, rest).ok
    ensures size <= |rest| && rest[size..] != "" && ReadChunks(line, rest) == AfterChunk(rest[..size], rest[size..])
  {
    hide CString, Strtoul, LineOf;
  }

  lemma ReadsOn(data: string, s: string)
    requires s != "" && Behind("" + data, ReadChunks(LineOf(s), s[|LineOf(s)|..])).ok
    ensures ReadChunked(s).ok
  {
  }

  lemma OneCut(s: string, c: Chunk, more: string)
    requires GoodChunk(c) && more != "" && !("\r\n" <= more) && s == c.line + (c.data + more)
    ensures Cut(s, [], c, more)
  {
    assert ChunksText([]) + s == s;
  }

  lemma PutFirst(s: string, first: Chunk, rest: string, cs: seq<Chunk>, c: Option<Chunk>, last: string, more: string)
    requires GoodChunk(first) && s == first.line + (first.data + ("\r\n" + rest))
    requires if c.None? then Body(rest, cs, last, more) else Cut(rest, cs, c.value, more)
    ensures if c.None? then Body(s, [first] + cs, last, more) else Cut(s, [first] + cs, c.value, more)
  {
    hide GoodChunk;
    var end := if c.None? then last + ("\r\n" + more) else c.value.line + (c.value.data + more);
    assert ([first] + cs)[1..] == cs;
    assert ChunksText([first] + cs) + end == first.line + (first.data + ("\r\n" + (ChunksText(cs) + end)));
  }

  // ---------------------------------------------------------------- the two ways to be accepted exclude each other

  /** The first chunk of a text is determined by the text. */
  lemma SameFirst(c: Chunk, rest: string, c': Chunk, rest': string)
    requires GoodChunk(c) && GoodChunk(c') && c.line + (c.data + rest) == c'.line + (c'.data + rest')
    ensures c == c' && rest == rest'
  {
    hide CString, Strtoul, LineOf;
    FirstLine(c.line, c.data + rest);
    FirstLine(c'.line, c'.data + rest');
    assert (c.data + rest)[..|c.data|] == c.data && (c'.data + rest')[..|c'.data|] == c'.data;
    assert (c.data + rest)[|c.data|..] == rest && (c'.data + rest')[|c'.data|..] == rest';
  }

  lemma NotLast(c: Chunk, rest: string, last: string, rest': string)
    requires GoodChunk(c) && SizeLine(last, 0)
    ensures c.line + rest != last + rest'
  {
    hide CString, Strtoul, LineOf;
    FirstLine(c.line, rest);
    FirstLine(last, rest');
  }

  lemma {:induction false} Exclusive(s: string, cs: seq<Chunk>, last: string, more: string, cs': seq<Chunk>, c: Chunk, more': string)
    requires Body(s, cs, last, more) && Cut(s, cs', c, more')
    ensures false
    decreases |cs|
  {
    hide GoodChunk, SizeLine;
    var end, end' := last + ("\r\n" + more), c.line + (c.data + more');
    if cs == [] {
      var first := if cs' == [] then c else cs'[0];
      var rest := if cs' == [] then c.data + more' else cs'[0].data + ("\r\n" + ChunksText(cs'[1..])) + end';
      assert GoodChunk(first);
      assert s == first.line + rest && s == end;
      NotLast(first, rest, last, "\r\n" + more);
    } else {
      var rest := "\r\n" + (ChunksText(cs[1..]) + end);
      assert s == cs[0].line + (cs[0].data + rest);
      if cs' == [] {
        assert s == end';
        SameFirst(cs[0], rest, c, more');
      } else {
        var rest' := "\r\n" + (ChunksText(cs'[1..]) + end');
        assert s == cs'[0].line + (cs'[0].data + rest');
        SameFirst(cs[0], rest, cs'[0], rest');
        assert rest[2..] == ChunksText(cs[1..]) + end && rest'[2..] == ChunksText(cs'[1..]) + end';
        Exclusive(rest[2..], cs[1..], last, more, cs'[1..], c, more');
      }
    }
  }

  /**
   What success means. The reader accepts a text exactly if a complete body begins it, or it breaks
   off with something else than an end of line behind a chunk, and never both. In the first case it
   delivers the data of the chunks and leaves what comes after the body.
   */
  lemma AcceptedExactly(s: string)
    ensures ReadChunked(s).ok <==> Complete(s) || BrokenOff(s)
    ensures !(Complete(s) && BrokenOff(s))
    ensures forall cs, last, more :: Body(s, cs, last, more) ==> ReadChunked(s) == Received(true, Data(cs), more)
    ensures forall cs, c, more :: Cut(s, cs, c, more) ==> ReadChunked(s) == Received(true, Data(cs) + c.data, more[|LineOf(more)|..])
  {
    hide ReadChunked, Body, Cut;
    forall cs, last, more | Body(s, cs, last, more) ensures ReadChunked(s) == Received(true, Data(cs), more) {
      BodyReads(s, cs, last, more);
    }
    forall cs, c, more | Cut(s, cs, c, more)
      ensures ReadChunked(s) == Received(true, Data(cs) + c.data, more[|LineOf(more)|..])
    {
      CutReads(s, cs, c, more);
    }
    if ReadChunked(s).ok {
      var cs, c, last, more := AcceptedParts(s);
    }
    if Complete(s) && BrokenOff(s) {
      var cs, last, more :| Body(s, cs, last, more);
      var cs', c, more' :| Cut(s, cs', c, more');
      Exclusive(s, cs, last, more, cs', c, more');
    }
  }

  // ---------------------------------------------------------------- what a refused text has delivered

  /** Where a refused text goes wrong after good chunks, and what of it is delivered all the same. */
  ghost predicate Wrong(tail: string, data: string) {
    var line, rest := LineOf(tail), tail[|LineOf(tail)|..];
    if tail == "" then data == ""
    else
      match Strtoul(CString(line))
      case None => data == ""
      case Some(size) =>
        if size == ULONG_MAX then data == ""
        else if size == 0 then data == "" && !("\r\n" <= rest)
        else if size > |rest| then data == rest
        else data == rest[..size] && (rest[size..] == "" || rest[size..] == "\r\n")
  }

  lemma LineBack(s: string)
    ensures |LineOf(s)| <= |s| && s == LineOf(s) + s[|LineOf(s)|..]
  {
  }

  lemma WrongHere(s: string)
    requires !ReadChunked(s).ok
    ensures s == "" ==> Wrong(s, ReadChunked(s).body)
    ensures s != "" ==>
              var line, rest := LineOf(s), s[|LineOf(s)|..];
              match Strtoul(CString(line))
              case None => Wrong(s, ReadChunked(s).body)
              case Some(size) =>
                if size == 0 || size == ULONG_MAX || size > |rest| || rest[size..] == "" || rest[size..] == "\r\n" then
                  Wrong(s, ReadChunked(s).body)
                else
                  var more := rest[size..];
                  && "\r\n" <= more && more[2..] != "" && IsLine(line)
                  && ReadChunked(s) == Behind(rest[..size], ReadChunked(more[2..]))
  {
    hide CString, Strtoul, AfterChunk, LineOf, ReadChunks;
    LineBack(s);
    if s != "" {
      var line, rest := LineOf(s), s[|LineOf(s)|..];
      ReadChunkedIs(s);
      ReadChunksEnds(line, rest);
      if rest != "" { EndOfLine(rest); }
      match Strtoul(CString(line))
      case None =>
      case Some(size) =>
        if 0 < size < ULONG_MAX {
          if size > |rest| {
            TooShort(line, rest, size);
          } else {
            WholeChunk(s, line, rest, size);
          }
        }
    }
  }

  lemma ReadChunkedIs(s: string)
    requires s != ""
    ensures ReadChunked(s) == ReadChunks(LineOf(s), s[|LineOf(s)|..])
  {
    hide ReadChunks;
  }

  lemma TooShort(line: string, rest: string, size: nat)
    requires Strtoul(CString(line)) == Some(size) && 0 < size < ULONG_MAX && size > |rest|
    ensures ReadChunks(line, rest) == Received(false, rest, "")
  {
    hide CString, Strtoul;
  }

  lemma LineEnds(s: string)
    requires s[|LineOf(s)|..] != ""
    ensures IsLine(LineOf(s))
  {
    hide LineLength;
  }

  /** A chunk that is all there: its data are delivered, and what is behind it decides. */
  lemma WholeChunk(s: string, line: string, rest: string, size: nat)
    requires line == LineOf(s) && rest == s[|LineOf(s)|..] && Strtoul(CString(line)) == Some(size) && 0 < size < ULONG_MAX && size <= |rest|
    requires ReadChunked(s) == ReadChunks(line, rest) && !ReadChunked(s).ok
    ensures IsLine(line)
    ensures var (data, more) := (rest[..size], rest[size..]);
            if more == "" || more == "\r\n" then ReadChunked(s) == Received(false, data, "")
            else "\r\n" <= more && more[2..] != "" && ReadChunked(s) == Behind(data, ReadChunked(more[2..]))
  {
    hide CString, Strtoul, LineOf, ReadChunks, AfterChunk;
    LineEnds(s);
    var data, more := rest[..size], rest[size..];
    assert rest == data + more;
    ReadChunksSize(line, rest, "", size, data, more);
    NothingBefore(ReadChunks(line, rest));
    assert "" + data == data;
    AfterChunkEnds("", data, more);
    NothingBefore(AfterChunk(data, more));
    if more != "" {
      EndOfLine(more);
      if "\r\n" <= more && more[2..] != "" { AfterChunkMore("", data, more); }
    }
  }

  /**
   What failure means: good chunks are delivered, and after them the text goes wrong, with no size
   line, a last line that no end of line follows, too few data, or nothing behind a chunk.
   */
  lemma {:induction false} RefusedParts(s: string) returns (cs: seq<Chunk>, tail: string, data: string)
    requires !ReadChunked(s).ok
    ensures GoodChunks(cs) && s == ChunksText(cs) + tail && ReadChunked(s).body == Data(cs) + data && Wrong(tail, data)
    decreases |s|
  {
    hide CString, Strtoul, LineOf, ReadChunked, Wrong, Behind, GoodChunk, ChunksText, Data;
    if Wrong(s, ReadChunked(s).body) {
      cs, tail, data := [], s, ReadChunked(s).body;
      NoChunks(s, data);
    } else {
      var c, rest := FirstOfRefused(s);
      cs, tail, data := RefusedParts(rest);
      PutBefore(s, c, rest, cs, tail);
      DataOfFirst(c, cs, data);
      BehindData(ReadChunked(s), c.data, ReadChunked(rest));
      cs := [c] + cs;
    }
  }

  lemma NoChunks(s: string, data: string)
    ensures GoodChunks([]) && s == ChunksText([]) + s && data == Data([]) + data
  {
  }

  /** If a refused text does not go wrong at once, a good chunk begins it. */
  lemma FirstOfRefused(s: string) returns (c: Chunk, rest: string)
    requires !ReadChunked(s).ok && !Wrong(s, ReadChunked(s).body)
    ensures GoodChunk(c) && s == c.line + (c.data + ("\r\n" + rest))
    ensures !ReadChunked(rest).ok && ReadChunked(s) == Behind(c.data, ReadChunked(rest))
  {
    hide CString, Strtoul, LineOf, ReadChunked, Wrong, Behind;
    WrongHere(s);
    LineBack(s);
    var line, after := LineOf(s), s[|LineOf(s)|..];
    var size := Strtoul(CString(line)).value;
    var more := after[size..];
    c, rest := Chunk(line, after[..size]), more[2..];
    assert after == c.data + more && more == "\r\n" + rest;
    RefusedRest(s, c.data, rest);
  }

  lemma RefusedRest(s: string, data: string, more: string)
    requires ReadChunked(s) == Behind(data, ReadChunked(more)) && !ReadChunked(s).ok
    ensures !ReadChunked(more).ok
  {
    hide ReadChunked;
  }

  lemma BehindData(r: Received, data: string, r': Received)
    requires r == Behind(data, r')
    ensures r.body == data + r'.body
  {
  }

  lemma DataOfFirst(c: Chunk, cs: seq<Chunk>, data: string)
    ensures Data([c] + cs) + data == c.data + (Data(cs) + data)
  {
    assert ([c] + cs)[1..] == cs;
    assert c.data + Data(cs) + data == c.data + (Data(cs) + data);
  }

  lemma PutBefore(s: string, c: Chunk, rest: string, cs: seq<Chunk>, tail: string)
    requires GoodChunk(c) && GoodChunks(cs) && s == c.line + (c.data + ("\r\n" + rest)) && rest == ChunksText(cs) + tail
    ensures GoodChunks([c] + cs) && s == ChunksText([c] + cs) + tail
  {
    hide GoodChunk;
    assert ([c] + cs)[1..] == cs;
    assert c.line + (c.data + ("\r\n" + (ChunksText(cs) + tail))) == c.line + (c.data + ("\r\n" + ChunksText(cs))) + tail;
  }
}
