/** Splitting and trimming text, and query strings over a multimap of parameters. */
module QueryStrings {
  import opened Texts

  // ---------------------------------------------------------------- splitting

  /** The text between delimiters. */
  function Segments(s: string, d: char): (r: seq<string>)
    ensures r != []
  {
    if s == "" then [""]
    else
      var rest := Segments(s[1..], d);
      if s[0] == d then [""] + rest else [s[..1] + rest[0]] + rest[1..]
  }

  /** Segments without the spaces and tabs around them, but for those that have nothing else. */
  function Kept(segments: seq<string>): seq<string> {
    if segments == [] then []
    else (if TrimCopy(segments[0]) == "" then [] else [TrimCopy(segments[0])]) + Kept(segments[1..])
  }

  function Split(s: string, d: char): seq<string> { Kept(Segments(s, d)) }

  lemma {:induction false} SegmentsNone(s: string, d: char)
    requires forall i :: 0 <= i < |s| ==> s[i] != d
    ensures Segments(s, d) == [s]
  {
    if s != "" {
      SegmentsNone(s[1..], d);
      assert s[..1] + s[1..] == s;
    }
  }

  lemma {:induction false} SegmentsAt(a: string, d: char, b: string)
    requires forall i :: 0 <= i < |a| ==> a[i] != d
    ensures Segments(a + [d] + b, d) == [a] + Segments(b, d)
  {
    var s := a + [d] + b;
    if a == "" {
      assert s[1..] == b;
    } else {
      assert s[1..] == a[1..] + [d] + b;
      SegmentsAt(a[1..], d, b);
      assert s[..1] + a[1..] == a;
    }
  }

  /** `trim` */
  method Trim(s: string, left: nat, right: nat) returns (l: nat, r: nat)
    requires right <= |s|
    ensures l == TrimLeft(s, left, |s|) && r == TrimRight(s, right)
  {
    l, r := left, right;
    while l < |s| && IsSpaceOrTab(s[l])
      invariant TrimLeft(s, l, |s|) == TrimLeft(s, left, |s|)
      decreases |s| - l
    {
      l := l + 1;
    }
    while r > 0 && IsSpaceOrTab(s[r - 1])
      invariant r <= |s| && TrimRight(s, r) == TrimRight(s, right)
    {
      r := r - 1;
    }
  }

  /** From the k-th character on: trimming all of the text against trimming the segment. */
  lemma {:induction false} TrimLeftSegment(s: string, beg: nat, end: nat, k: nat)
    requires beg + k <= end <= |s|
    ensures var l, l' := TrimLeft(s, beg + k, |s|), TrimLeft(s[beg..end], k, end - beg);
            if l' < end - beg then l == beg + l' && !IsSpaceOrTab(s[beg..end][l']) else l >= end
    ensures forall i :: k <= i < TrimLeft(s[beg..end], k, end - beg) ==> IsSpaceOrTab(s[beg..end][i])
    decreases end - k
  {
    assert beg + k < end ==> s[beg..end][k] == s[beg + k];
    if beg + k < end && IsSpaceOrTab(s[beg + k]) { TrimLeftSegment(s, beg, end, k + 1); }
  }

  lemma {:induction false} TrimRightSegment(s: string, beg: nat, end: nat, k: nat)
    requires beg + k <= end <= |s|
    ensures var r, r' := TrimRight(s, beg + k), TrimRight(s[beg..end], k);
            if r' > 0 then r == beg + r' && !IsSpaceOrTab(s[beg..end][r' - 1]) else r <= beg
    ensures forall i :: TrimRight(s[beg..end], k) <= i < k ==> IsSpaceOrTab(s[beg..end][i])
    decreases k
  {
    assert k > 0 ==> s[beg..end][k - 1] == s[beg + k - 1];
    if k > 0 && IsSpaceOrTab(s[beg + k - 1]) { TrimRightSegment(s, beg, end, k - 1); }
  }

  lemma TrimCopyCases(segment: string)
    ensures var l, r := TrimLeft(segment, 0, |segment|), TrimRight(segment, |segment|);
            if l < |segment| then l < r && TrimCopy(segment) == segment[l..r] else r == 0 && TrimCopy(segment) == ""
  {
    hide TrimLeft, TrimRight;
    TrimLeftSegment(segment, 0, |segment|, 0);
    TrimRightSegment(segment, 0, |segment|, |segment|);
    assert segment[0..|segment|] == segment;
  }

  /**
   Although `trim` looks at all of the text, past the segment on either side, what it leaves of a
   segment is the segment trimmed, or nothing if that is empty.
   */
  lemma TrimSegment(s: string, beg: nat, end: nat)
    requires beg <= end <= |s|
    ensures var l, r := TrimLeft(s, beg, |s|), TrimRight(s, end);
            if l < r then r <= |s| && s[l..r] == TrimCopy(s[beg..end]) != "" else TrimCopy(s[beg..end]) == ""
  {
    hide TrimLeft, TrimRight, TrimCopy;
    var segment := s[beg..end];
    TrimCopyCases(segment);
    TrimLeftSegment(s, beg, end, 0);
    TrimRightSegment(s, beg, end, |segment|);
    var l', r' := TrimLeft(segment, 0, |segment|), TrimRight(segment, |segment|);
    if l' < |segment| {
      SliceOfSlice(s, beg, end, l', r');
    }
  }

  lemma SliceOfSlice(s: string, beg: nat, end: nat, l: nat, r: nat)
    requires beg <= end <= |s| && l <= r <= end - beg
    ensures s[beg + l..beg + r] == s[beg..end][l..r]
  {
    var a, b := s[beg + l..beg + r], s[beg..end][l..r];
    assert |a| == |b| && forall i :: 0 <= i < |a| ==> a[i] == s[beg + l + i] == b[i];
  }

  /** `split`: the pieces handed to the callback. */
  method SplitText(s: string, d: char) returns (pieces: seq<string>)
    ensures pieces == Split(s, d)
  {
    hide Kept, Segments, Split, TrimLeft, TrimRight;
    pieces := [];
    var i, beg := 0, 0;
    SplitStart(s, d);
    while i < |s|
      invariant beg <= i <= |s| && forall k :: beg <= k < i ==> s[k] != d
      invariant pieces + Kept(Segments(s[beg..], d)) == Split(s, d)
    {
      if s[i] == d {
        var l, r := Trim(s, beg, i);
        SplitStep(s, d, beg, i, pieces);
        if l < r { pieces := pieces + [s[l..r]]; }
        beg := i + 1;
      }
      i := i + 1;
    }
    SplitEnd(s, d, beg, pieces);
    if i > 0 {
      var l, r := Trim(s, beg, i);
      if l < r { pieces := pieces + [s[l..r]]; }
    }
  }

  lemma SplitStart(s: string, d: char)
    ensures [] + Kept(Segments(s[0..], d)) == Split(s, d)
  {
    assert s[0..] == s;
  }

  /** The pieces with what a segment adds to them. */
  function WithPiece(s: string, l: nat, r: nat, pieces: seq<string>): seq<string> {
    if l < r <= |s| then pieces + [s[l..r]] else pieces
  }

  lemma SplitStep(s: string, d: char, beg: nat, i: nat, pieces: seq<string>)
    requires beg <= i < |s| && s[i] == d && forall k :: beg <= k < i ==> s[k] != d
    ensures pieces + Kept(Segments(s[beg..], d))
            == WithPiece(s, TrimLeft(s, beg, |s|), TrimRight(s, i), pieces) + Kept(Segments(s[i + 1..], d))
  {
    hide Segments, TrimCopy, TrimLeft, TrimRight;
    var a, b := s[beg..i], s[i + 1..];
    assert s[beg..] == a + [d] + b;
    SegmentsAt(a, d, b);
    TrimSegment(s, beg, i);
    assert ([a] + Segments(b, d))[1..] == Segments(b, d);
  }

  lemma SplitEnd(s: string, d: char, beg: nat, pieces: seq<string>)
    requires beg <= |s| && forall k :: beg <= k < |s| ==> s[k] != d
    ensures pieces + Kept(Segments(s[beg..], d)) == WithPiece(s, TrimLeft(s, beg, |s|), TrimRight(s, |s|), pieces)
    ensures s == "" ==> pieces + Kept(Segments(s[beg..], d)) == pieces
  {
    hide Segments, TrimCopy, TrimLeft, TrimRight;
    SegmentsNone(s[beg..], d);
    TrimSegment(s, beg, |s|);
    assert s[beg..] == s[beg..|s|];
    TrimEmpty();
  }

  lemma TrimEmpty()
    ensures TrimLeft("", 0, 0) == 0 && TrimRight("", 0) == 0
  {
  }
}
