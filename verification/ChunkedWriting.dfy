/** Which calls of a content provider the chunked writer makes, what they send, and when that is a whole body. */
module ChunkedWriting {
  import opened Streams
  import opened Chunked
  import opened ChunkedExact
  import opened ChunkedRoundTrip

  // ---------------------------------------------------------------- any provider

  function ActionsOf(calls: seq<Call>): seq<Action> {
    if calls == [] then [] else ActionsOf(calls[..|calls| - 1]) + calls[|calls| - 1].actions
  }

  /** The chunks of what is written, and an end marker for each time the provider is done. */
  function SentFor(actions: seq<Action>): string {
    if actions == [] then ""
    else
      var before, last := SentFor(actions[..|actions| - 1]), actions[|actions| - 1];
      before + if last.Done? then "0\r\n\r\n" else Frame(last.data)
  }

  /** Nothing has been done yet, or last something was written. */
  predicate StillOpen(actions: seq<Action>) {
    actions == [] || (var last := actions[|actions| - 1]; last.Write? && last.data != "")
  }

  lemma {:induction false} ActAllMeans(before: seq<Action>, actions: seq<Action>)
    ensures ActAll(Sink(StillOpen(before), SentFor(before)), actions) == Sink(StillOpen(before + actions), SentFor(before + actions))
    decreases |actions|
  {
    hide Frame;
    if actions == [] {
      assert before + actions == before;
    } else {
      var next := before + [actions[0]];
      assert next[..|before|] == before;
      assert Act(Sink(StillOpen(before), SentFor(before)), actions[0]) == Sink(StillOpen(next), SentFor(next));
      ActAllMeans(next, actions[1..]);
      assert next + actions[1..] == before + actions;
    }
  }

  /** After the i-th call there is to be another one. */
  predicate Continues(calls: seq<Call>, i: nat)
    requires i < |calls|
  {
    calls[i].result && StillOpen(ActionsOf(calls[..i + 1]))
  }

  /** The first `n` calls were made: all but the last were to be followed by another one. */
  ghost predicate Made(calls: seq<Call>, n: nat) {
    && n <= |calls|
    && (forall i :: 0 <= i < n - 1 ==> Continues(calls, i))
    && (n < |calls| ==> n > 0 && !Continues(calls, n - 1))
  }

  lemma {:induction false} ProvideFrom(calls: seq<Call>, m: nat) returns (n: nat)
    requires m <= |calls| && StillOpen(ActionsOf(calls[..m]))
    requires forall i :: 0 <= i < m ==> Continues(calls, i)
    ensures Made(calls, n)
    ensures var all := ActionsOf(calls[..n]);
            Provide(Sink(true, SentFor(ActionsOf(calls[..m]))), calls[m..])
            == (if n > 0 && !calls[n - 1].result then Canceled else Success, Sink(StillOpen(all), SentFor(all)))
    decreases |calls| - m
  {
    hide StillOpen, SentFor, ActAll;
    var done := ActionsOf(calls[..m]);
    if m == |calls| {
      n := m;
      assert calls[m..] == [] && calls[..m] == calls[..n];
      assert m > 0 ==> Continues(calls, m - 1);
    } else {
      var call := calls[m];
      assert calls[..m + 1][..m] == calls[..m] && calls[m..][0] == call && calls[m..][1..] == calls[m + 1..];
      ActAllMeans(done, call.actions);
      var all := ActionsOf(calls[..m + 1]);
      assert all == done + call.actions;
      if call.result && StillOpen(all) {
        n := ProvideFrom(calls, m + 1);
      } else {
        n := m + 1;
        ProvideStops(Sink(StillOpen(all), SentFor(all)), calls[m + 1..]);
      }
    }
  }

  lemma ProvideStops(k: Sink, calls: seq<Call>)
    ensures !k.dataAvailable ==> Provide(k, calls) == (Success, k)
  {
  }

  /**
   What the writer does with any provider: it calls it until a call returns false or ends with
   something else than a piece of data; it sends exactly what those calls did; and it reports
   success unless the last of them returned false.
   */
  lemma ProvideExactly(calls: seq<Call>) returns (n: nat)
    ensures Made(calls, n)
    ensures var all := ActionsOf(calls[..n]);
            Provide(Sink(true, ""), calls)
            == (if n > 0 && !calls[n - 1].result then Canceled else Success, Sink(StillOpen(all), SentFor(all)))
  {
    assert calls[..0] == [] && calls[0..] == calls;
    n := ProvideFrom(calls, 0);
  }

  // ---------------------------------------------------------------- an empty piece ends the data

  /** Chunks without an end are refused. */
  lemma {:induction false} FramesAreNoBody(pieces: seq<string>)
    requires forall i :: 0 <= i < |pieces| ==> |pieces[i]| < ULONG_MAX
    ensures !ReadChunked(Frames(pieces)).ok
    decreases |pieces|
  {
    hide ReadChunked, Frame;
    if pieces == [] {
      NothingRead();
    } else {
      FramesAreNoBody(pieces[1..]);
      if pieces[0] == "" {
        NoFrame();
        assert "" + Frames(pieces[1..]) == Frames(pieces[1..]);
      } else if Frames(pieces[1..]) == "" {
        assert Frame(pieces[0]) + "" == Frame(pieces[0]);
        LastFrame(pieces[0]);
      } else {
        ReadFrame(pieces[0], Frames(pieces[1..]));
      }
    }
  }

  lemma NothingRead()
    ensures !ReadChunked("").ok
  {
  }

  /** A chunk with nothing after it. */
  lemma LastFrame(data: string)
    requires 0 < |data| < ULONG_MAX
    ensures !ReadChunked(Frame(data)).ok
  {
    hide ReadChunks, AfterChunk, LineOf, CString, Strtoul, HexText;
    var line, tail := HexText(|data|) + "\r\n", "\r\n";
    SizeOfHex(|data|);
    assert Frame(data) == line + (data + tail);
    FirstLine(line, data + tail);
    ReadChunksSize(line, data + tail, "", |data|, data, tail);
    EndOfLine(tail);
    AfterChunkEnds("", data, tail);
    assert tail[2..] == "";
  }

  lemma {:induction false} ProvideCut(k: Sink, batches: seq<seq<string>>, last: seq<string>) returns (m: nat)
    requires k.dataAvailable && !GoesOn(batches)
    ensures m < |batches| && Provide(k, Calls(batches, last)) == (Success, Sink(false, k.wire + Frames(Pieces(batches[..m], batches[m]))))
    decreases |batches|
  {
    hide Frame, Frames, ActAll;
    var calls := Calls(batches, last);
    assert calls[0] == Call(Writes(batches[0]), true) && calls[1..] == Calls(batches[1..], last);
    ActWrites(k, batches[0], []);
    assert Writes(batches[0]) + [] == Writes(batches[0]);
    if batches[0] != [] && batches[0][|batches[0]| - 1] == "" {
      m := 0;
      NoActs(Sink(false, k.wire + Frames(batches[0])));
      assert batches[..0] == [];
    } else {
      var k' := Sink(true, k.wire + Frames(batches[0]));
      NoActs(k');
      LaterCut(batches);
      var m' := ProvideCut(k', batches[1..], last);
      m := m' + 1;
      assert batches[..m][0] == batches[0] && batches[..m][1..] == batches[1..][..m'];
      FramesOfBoth(batches[0], Pieces(batches[1..][..m'], batches[m]));
      var rest := Frames(Pieces(batches[1..][..m'], batches[m]));
      assert k.wire + Frames(batches[0]) + rest == k.wire + (Frames(batches[0]) + rest);
    }
  }

  lemma LaterCut(batches: seq<seq<string>>)
    requires !GoesOn(batches) && batches != [] && (batches[0] == [] || batches[0][|batches[0]| - 1] != "")
    ensures !GoesOn(batches[1..])
  {
    var i :| 0 <= i < |batches| && !(batches[i] == [] || batches[i][|batches[i]| - 1] != "");
    assert batches[1..][i - 1] == batches[i];
  }

  lemma {:induction false} PiecesInside(batches: seq<seq<string>>, last: seq<string>, m: nat)
    requires m < |batches|
    ensures Pieces(batches[..m], batches[m]) <= Pieces(batches, last)
    decreases |batches|
  {
    if m == 0 {
      assert batches[..0] == [];
    } else {
      PiecesInside(batches[1..], last, m - 1);
      assert batches[..m][0] == batches[0] && batches[..m][1..] == batches[1..][..m - 1];
    }
  }

  /**
   Although the writer reports success either way, what it sends is a body that the reader accepts
   exactly if no call but the last one ends with an empty piece.
   */
  lemma BodyIsWholeExactly(batches: seq<seq<string>>, last: seq<string>)
    requires forall i :: 0 <= i < |Pieces(batches, last)| ==> |Pieces(batches, last)[i]| < ULONG_MAX
    ensures var (error, sink) := Provide(Sink(true, ""), Calls(batches, last));
            error == Success && (ReadChunked(sink.wire).ok <==> GoesOn(batches))
  {
    hide Frames, ReadChunked, Calls, Pieces, Provide;
    if GoesOn(batches) {
      TransferRoundTrip(batches, last, "");
      var wire := Provide(Sink(true, ""), Calls(batches, last)).1.wire;
      assert wire + "" == wire;
    } else {
      var m := ProvideCut(Sink(true, ""), batches, last);
      var pieces := Pieces(batches[..m], batches[m]);
      PiecesInside(batches, last, m);
      assert forall i :: 0 <= i < |pieces| ==> pieces[i] == Pieces(batches, last)[i];
      FramesAreNoBody(pieces);
      assert "" + Frames(pieces) == Frames(pieces);
    }
  }

  /** A provider that writes `a` and an empty piece, and would be done in its next call: its end is never sent. */
  lemma EmptyPieceCuts()
    ensures var (error, sink) := Provide(Sink(true, ""), Calls([["a", ""]], []));
            error == Success && !ReadChunked(sink.wire).ok
  {
    hide Provide, ReadChunked, Calls;
    var batches := [["a", ""]];
    assert batches[1..] == [] && Pieces([], []) == [] && Pieces(batches, []) == ["a", ""] + [];
    assert batches[0][1] == "";
    BodyIsWholeExactly(batches, []);
  }
}
