/** What the chunked writer sends, the chunked reader reads back. */
module ChunkedRoundTrip {
  import opened Texts
  import opened Streams
  import opened Chunked
  import opened ChunkedExact

  function Frames(pieces: seq<string>): string {
    if pieces == [] then "" else Frame(pieces[0]) + Frames(pieces[1..])
  }

  // ---------------------------------------------------------------- sizes

  lemma {:induction false} DigitsOfHex(n: nat, rest: string)
    ensures Digits(HexText(n) + rest, 0) == Digits(rest, n)
    decreases n
  {
    if n < 16 {
      assert (HexText(n) + rest)[1..] == rest;
    } else {
      var d := Digit(n % 16);
      assert HexText(n) + rest == HexText(n / 16) + ([d] + rest);
      DigitsOfHex(n / 16, [d] + rest);
      assert ([d] + rest)[1..] == rest;
      assert 16 * (n / 16) + n % 16 == n;
    }
  }

  lemma {:induction false} HexChar(n: nat, i: nat)
    requires i < |HexText(n)|
    ensures var c := HexText(n)[i]; '0' <= c <= '9' || 'a' <= c <= 'f'
  {
    if n >= 16 && i < |HexText(n / 16)| { HexChar(n / 16, i); }
  }

  /** `strtoul` inverts `from_i_to_hex`. */
  lemma StrtoulInverts(n: nat)
    requires n <= ULONG_MAX
    ensures Strtoul(HexText(n) + "\r\n") == Some(n)
  {
    hide HexText, HexValue, CString;
    var h := HexText(n);
    var s := h + "\r\n";
    HexChar(n, 0);
    assert s[0] == h[0];
    assert SkipSpaces(s) == s;
    if |h| > 1 {
      HexChar(n, 1);
      assert s[1] == h[1];
    }
    DigitsOfHex(n, "\r\n");
    CrIsNoDigit(n);
  }

  lemma CrIsNoDigit(n: nat)
    ensures Digits("\r\n", n) == (n, "\r\n")
  {
  }

  lemma SizeOfHex(n: nat)
    requires n <= ULONG_MAX
    ensures SizeLine(HexText(n) + "\r\n", n)
  {
    hide HexText, HexValue, CString, Strtoul;
    var line := HexText(n) + "\r\n";
    forall i | 0 <= i < |line| ensures line[i] != '\0' && (i < |line| - 1 ==> line[i] != '\n') {
      if i < |HexText(n)| { HexChar(n, i); }
    }
    CStringClean(line);
    StrtoulInverts(n);
  }

  // ---------------------------------------------------------------- reading back

  lemma ReadFrame(data: string, rest: string)
    requires 0 < |data| < ULONG_MAX && rest != ""
    ensures ReadChunked(Frame(data) + rest) == Behind(data, ReadChunked(rest))
  {
    hide HexText, ReadChunked, CString, Strtoul;
    var line := HexText(|data|) + "\r\n";
    SizeOfHex(|data|);
    ReadOne(Chunk(line, data), rest);
    assert Frame(data) + rest == line + (data + ("\r\n" + rest));
  }

  lemma ReadDone(more: string)
    ensures ReadChunked(DONE_MARKER + more) == Received(true, "", more)
  {
    hide ReadChunked;
    assert HexText(0) == "0";
    SizeOfHex(0);
    ReadLast("0\r\n", more);
    assert DONE_MARKER + more == "0\r\n" + ("\r\n" + more);
  }

  lemma OneIsOne()
    ensures HexText(1) == "1" && Data([]) + "a" == "a"
  {
  }

  /** A chunk with other bytes behind it than an end of line: the reader calls it a success, and drops the rest. */
  lemma BrokenOffAccepted()
    ensures ReadChunked("1\r\naX\n0\r\n\r\n") == Received(true, "a", "0\r\n\r\n")
    ensures BrokenOff("1\r\naX\n0\r\n\r\n") && !Complete("1\r\naX\n0\r\n\r\n")
  {
    hide ReadChunked, LineOf, HexText, Cut, GoodChunk, SizeLine, BrokenOff, Complete;
    var s, c, more := "1\r\naX\n0\r\n\r\n", Chunk("1\r\n", "a"), "X\n0\r\n\r\n";
    OneIsOne();
    SizeOfHex(1);
    assert HexText(1) + "\r\n" == c.line;
    GoodOne(c);
    assert s == c.line + (c.data + more) && more[0] != "\r\n"[0];
    OneCut(s, c, more);
    CutReads(s, [], c, more);
    LineIs("X\n", "0\r\n\r\n");
    assert more == "X\n" + "0\r\n\r\n" && more[2..] == "0\r\n\r\n";
    IsBrokenOff(s, c, more);
    AcceptedExactly(s);
  }

  lemma GoodOne(c: Chunk)
    requires c.data == "a" && SizeLine(c.line, 1)
    ensures GoodChunk(c)
  {
  }

  lemma IsBrokenOff(s: string, c: Chunk, more: string)
    requires Cut(s, [], c, more)
    ensures BrokenOff(s)
  {
  }

  /**
   Chunked round trip: for every list of pieces the reader gives back their concatenation, says
   that all is well, and leaves what follows unread.
   */
  lemma {:induction false} ReadBack(pieces: seq<string>, more: string)
    requires forall i :: 0 <= i < |pieces| ==> |pieces[i]| < ULONG_MAX
    ensures ReadChunked(Frames(pieces) + DONE_MARKER + more) == Received(true, Concat(pieces), more)
    decreases |pieces|
  {
    hide ReadChunked, Frame;
    if pieces == [] {
      assert Frames(pieces) + DONE_MARKER + more == DONE_MARKER + more;
      ReadDone(more);
    } else {
      var rest := Frames(pieces[1..]) + DONE_MARKER + more;
      assert Frames(pieces) + DONE_MARKER + more == Frame(pieces[0]) + rest;
      ReadBack(pieces[1..], more);
      if pieces[0] == "" {
        NoFrame();
        assert "" + rest == rest && "" + Concat(pieces[1..]) == Concat(pieces[1..]);
      } else {
        ReadFrame(pieces[0], rest);
      }
    }
  }

  lemma NoFrame()
    ensures Frame("") == ""
  {
  }

  // ---------------------------------------------------------------- from the content provider to the receiver

  function Writes(pieces: seq<string>): (r: seq<Action>)
    ensures |r| == |pieces| && forall i :: 0 <= i < |r| ==> r[i] == Write(pieces[i])
  {
    seq(|pieces|, i requires 0 <= i < |pieces| => Write(pieces[i]))
  }

  /** A provider that writes some pieces in each call, and in its last call is done. */
  function Calls(batches: seq<seq<string>>, last: seq<string>): seq<Call> {
    if batches == [] then [Call(Writes(last) + [Done], true)]
    else [Call(Writes(batches[0]), true)] + Calls(batches[1..], last)
  }

  /** No call but the last ends with an empty piece: the writer takes that for the end of the data. */
  predicate GoesOn(batches: seq<seq<string>>) {
    forall i :: 0 <= i < |batches| ==> batches[i] == [] || batches[i][|batches[i]| - 1] != ""
  }

  function Pieces(batches: seq<seq<string>>, last: seq<string>): seq<string> {
    if batches == [] then last else batches[0] + Pieces(batches[1..], last)
  }

  lemma {:induction false} ActWrites(k: Sink, pieces: seq<string>, after: seq<Action>)
    ensures var k' := Sink(if pieces == [] then k.dataAvailable else pieces[|pieces| - 1] != "", k.wire + Frames(pieces));
            ActAll(k, Writes(pieces) + after) == ActAll(k', after)
    decreases |pieces|
  {
    hide Frame;
    var all := Writes(pieces) + after;
    if pieces == [] {
      assert all == after && k.wire + "" == k.wire;
    } else {
      assert all[0] == Write(pieces[0]) && all[1..] == Writes(pieces[1..]) + after;
      ActWrites(Act(k, all[0]), pieces[1..], after);
      assert k.wire + (Frame(pieces[0]) + Frames(pieces[1..])) == k.wire + Frame(pieces[0]) + Frames(pieces[1..]);
    }
  }

  lemma {:induction false} FramesOfBoth(a: seq<string>, b: seq<string>)
    ensures Frames(a + b) == Frames(a) + Frames(b)
    decreases |a|
  {
    hide Frame;
    if a == [] {
      assert a + b == b && "" + Frames(b) == Frames(b);
    } else {
      assert (a + b)[1..] == a[1..] + b;
      FramesOfBoth(a[1..], b);
    }
  }

  /** What such a provider makes the writer send. */
  lemma {:induction false} ProvideSends(k: Sink, batches: seq<seq<string>>, last: seq<string>)
    requires k.dataAvailable
    requires GoesOn(batches)
    ensures Provide(k, Calls(batches, last)) == (Success, Sink(false, k.wire + Frames(Pieces(batches, last)) + DONE_MARKER))
    decreases |batches|
  {
    hide Frame, Frames, ActAll;
    if batches == [] {
      ActWrites(k, last, [Done]);
      DoneActs(Sink(if last == [] then k.dataAvailable else last[|last| - 1] != "", k.wire + Frames(last)));
      assert Calls(batches, last)[1..] == [];
    } else {
      var calls := Calls(batches, last);
      assert calls[0] == Call(Writes(batches[0]), true) && calls[1..] == Calls(batches[1..], last);
      ActWrites(k, batches[0], []);
      assert Writes(batches[0]) + [] == Writes(batches[0]);
      var k' := Sink(true, k.wire + Frames(batches[0]));
      NoActs(k');
      ProvideSends(k', batches[1..], last);
      FramesOfBoth(batches[0], Pieces(batches[1..], last));
      assert k.wire + Frames(batches[0]) + Frames(Pieces(batches[1..], last)) == k.wire + Frames(Pieces(batches, last));
    }
  }

  lemma DoneActs(k: Sink)
    ensures ActAll(k, [Done]) == Sink(false, k.wire + DONE_MARKER)
  {
    assert [Done][1..] == [];
  }

  lemma NoActs(k: Sink)
    ensures ActAll(k, []) == k
  {
  }

  /** From the provider's pieces to the bytes on the wire and back, whatever follows them. */
  lemma TransferRoundTrip(batches: seq<seq<string>>, last: seq<string>, more: string)
    requires GoesOn(batches)
    requires forall i :: 0 <= i < |Pieces(batches, last)| ==> |Pieces(batches, last)[i]| < ULONG_MAX
    ensures var (error, sink) := Provide(Sink(true, ""), Calls(batches, last));
            error == Success && ReadChunked(sink.wire + more) == Received(true, Concat(Pieces(batches, last)), more)
  {
    hide Frames, ReadChunked, Calls, Pieces, Provide, Concat;
    ProvideSends(Sink(true, ""), batches, last);
    ReadBack(Pieces(batches, last), more);
    assert "" + Frames(Pieces(batches, last)) == Frames(Pieces(batches, last));
  }

  /**
   The same of the methods: over any two streams that do not fail, however few bytes each of their
   reads and writes moves, a receiver that refuses nothing gets what the provider wrote.
   */
  method Transfer(batches: seq<seq<string>>, last: seq<string>, more: string, writing: nat -> int, reading: nat -> int,
                  accepts: (nat, string) -> bool)
    returns (ok: bool, body: string, rest: string)
    requires GoesOn(batches)
    requires forall i :: 0 <= i < |Pieces(batches, last)| ==> |Pieces(batches, last)[i]| < ULONG_MAX
    ensures (forall k: nat :: writing(k) >= 0) && (forall k: nat :: reading(k) >= 0) && (forall k: nat, p: string :: accepts(k, p)) ==>
              ok && body == Concat(Pieces(batches, last)) && rest == more
  {
    hide Calls, Pieces, Concat, Provide, ReadChunked;
    var out := new Stream(writing, "");
    assert (forall k: nat :: writing(k) >= 0) ==> out.Reliable();
    var sent, _ := WriteContentChunked(out, Calls(batches, last));
    TransferRoundTrip(batches, last, more);
    if !sent { return false, "", ""; }
    assert "" + Provide(Sink(true, ""), Calls(batches, last)).1.wire == Provide(Sink(true, ""), Calls(batches, last)).1.wire;
    var back := new Stream(reading, out.outgoing + more);
    var receiver := new Receiver(accepts);
    assert (forall k: nat :: reading(k) >= 0) ==> back.Reliable();
    assert (forall k: nat, p: string :: accepts(k, p)) ==> receiver.Willing();
    ok := ReadContentChunked(back, receiver);
    assert "" + Concat(Pieces(batches, last)) == Concat(Pieces(batches, last));
    body, rest := receiver.body, back.incoming;
  }
}
