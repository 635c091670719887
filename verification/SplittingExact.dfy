/** Splitting at a delimiter, told by what is put together again. */
module SplittingExact {
  import opened Texts
  import opened Trimming
  import opened QueryStrings

  /** The segments with a delimiter between each two. */
  function Joined(segments: seq<string>, d: char): string {
    if segments == [] then ""
    else if |segments| == 1 then segments[0]
    else segments[0] + [d] + Joined(segments[1..], d)
  }

  /** At least one segment, and no delimiter inside any. */
  ghost predicate Whole(segments: seq<string>, d: char) {
    segments != [] && forall i, k :: 0 <= i < |segments| && 0 <= k < |segments[i]| ==> segments[i][k] != d
  }

  lemma {:induction false} SegmentsOfJoined(segments: seq<string>, d: char)
    requires Whole(segments, d)
    ensures Segments(Joined(segments, d), d) == segments
    decreases |segments|
  {
    hide Segments;
    if |segments| == 1 {
      SegmentsNone(segments[0], d);
    } else {
      SegmentsAt(segments[0], d, Joined(segments[1..], d));
      SegmentsOfJoined(segments[1..], d);
    }
  }

  lemma {:induction false} SegmentsAreWhole(s: string, d: char)
    ensures Whole(Segments(s, d), d) && Joined(Segments(s, d), d) == s
  {
    if s != "" {
      var rest := Segments(s[1..], d);
      SegmentsAreWhole(s[1..], d);
      if s[0] == d {
        assert ([""] + rest)[1..] == rest;
        assert "" + [d] + s[1..] == s;
      } else {
        var first := s[..1] + rest[0];
        assert ([first] + rest[1..])[1..] == rest[1..];
        assert forall k :: 0 < k < |first| ==> first[k] == rest[0][k - 1];
        if |rest| > 1 { assert first + [d] + Joined(rest[1..], d) == s[..1] + (rest[0] + [d] + Joined(rest[1..], d)); }
        assert s[..1] + s[1..] == s;
      }
    }
  }

  /** The segments of a text are the one way to put it together from texts without delimiters. */
  lemma SegmentsExactly(s: string, d: char, segments: seq<string>)
    ensures Segments(s, d) == segments <==> Whole(segments, d) && Joined(segments, d) == s
  {
    hide Segments, Whole, Joined;
    SegmentsAreWhole(s, d);
    if Whole(segments, d) && Joined(segments, d) == s { SegmentsOfJoined(segments, d); }
  }

  /** The pieces are the segments stripped, in order, without those that have nothing left. */
  ghost predicate Strips(segments: seq<string>, pieces: seq<string>)
    decreases |segments|
  {
    if segments == [] then pieces == []
    else if Blank(segments[0]) then Strips(segments[1..], pieces)
    else pieces != [] && Stripped(segments[0], pieces[0]) && Strips(segments[1..], pieces[1..])
  }

  lemma BlankStrips(s: string)
    ensures Blank(s) <==> TrimCopy(s) == ""
    ensures Stripped(s, TrimCopy(s))
  {
    hide TrimCopy, Stripped;
    TrimStrips(s);
    if TrimCopy(s) == "" { NothingLeft(s); }
    if Blank(s) {
      StrippedAs(s, s, "", "");
      StrippedOnce(s, "", TrimCopy(s));
    }
  }

  lemma NothingLeft(s: string)
    requires Stripped(s, "")
    ensures Blank(s)
  {
    var l, r := Sides(s, "");
    assert s == l + r;
  }

  lemma {:induction false} KeptStrips(segments: seq<string>, pieces: seq<string>)
    ensures Strips(segments, pieces) <==> pieces == Kept(segments)
    decreases |segments|
  {
    hide TrimCopy, Stripped, Blank;
    if segments != [] {
      var s, rest := segments[0], segments[1..];
      BlankStrips(s);
      if Blank(s) {
        KeptStrips(rest, pieces);
        assert [] + Kept(rest) == Kept(rest);
      } else if pieces != [] {
        KeptStrips(rest, pieces[1..]);
        if Stripped(s, pieces[0]) { StrippedOnce(s, pieces[0], TrimCopy(s)); }
        assert pieces == [pieces[0]] + pieces[1..];
        assert ([TrimCopy(s)] + Kept(rest))[1..] == Kept(rest);
      }
    }
  }

  /** What `split` gives for a text put together from segments. */
  lemma SplitExactly(segments: seq<string>, d: char, pieces: seq<string>)
    requires Whole(segments, d)
    ensures Split(Joined(segments, d), d) == pieces <==> Strips(segments, pieces)
  {
    hide Whole, Joined, Segments, Kept, Strips;
    SegmentsOfJoined(segments, d);
    KeptStrips(segments, pieces);
  }
}
