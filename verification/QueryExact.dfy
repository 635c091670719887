/**
 Exactly which multimaps survive being written as a query string and parsed.

 Parsing can only lose characters: what it takes for keys and values is no longer, in all, than what
 was written. So a multimap that comes back has lost nothing, and its keys are of a kind that fits.
 */
module QueryExact {
  import opened Texts
  import opened PercentCoding
  import opened SortedMaps
  import opened QueryStrings
  import opened QueryRoundTrip

  // ---------------------------------------------------------------- lengths

  function SumLength(pieces: seq<string>): nat {
    if pieces == [] then 0 else |pieces[0]| + SumLength(pieces[1..])
  }

  lemma {:induction false} SumOfBoth(a: seq<string>, b: seq<string>)
    ensures SumLength(a + b) == SumLength(a) + SumLength(b)
    decreases |a|
  {
    if a == [] {
      assert a + b == b;
    } else {
      SumOfBoth(a[1..], b);
      assert (a + b)[1..] == a[1..] + b;
    }
  }

  /** Splitting at a delimiter loses the delimiters. */
  lemma {:induction false} SegmentsLength(s: string, d: char)
    ensures SumLength(Segments(s, d)) + |Segments(s, d)| == |s| + 1
    ensures |Segments(s, d)| == 1 <==> d !in s
  {
    if s != "" {
      SegmentsLength(s[1..], d);
      var rest := Segments(s[1..], d);
      assert s == s[..1] + s[1..];
      if s[0] == d {
        assert ([""] + rest)[1..] == rest;
      } else {
        assert ([s[..1] + rest[0]] + rest[1..])[1..] == rest[1..];
      }
    }
  }

  lemma TrimShrinks(s: string)
    ensures |TrimCopy(s)| <= |s|
    ensures |TrimCopy(s)| == |s| ==> TrimCopy(s) == s
  {
  }

  lemma {:induction false} KeptShrinks(segments: seq<string>)
    ensures SumLength(Kept(segments)) <= SumLength(segments)
  {
    hide TrimCopy;
    if segments != [] {
      KeptShrinks(segments[1..]);
      TrimShrinks(segments[0]);
      var t, rest := TrimCopy(segments[0]), Kept(segments[1..]);
      if t == "" {
        assert [] + rest == rest;
      } else {
        assert ([t] + rest)[1..] == rest;
      }
    }
  }

  lemma TokenShrinks(s: string, plusIsSpace: bool)
    requires s != ""
    ensures |Token(s, plusIsSpace).0| <= Token(s, plusIsSpace).1
    ensures |Token(s, plusIsSpace).0| == Token(s, plusIsSpace).1 ==>
              Token(s, plusIsSpace) == (if plusIsSpace && s[0] == '+' then " " else s[..1], 1)
  {
    hide FromHex;
  }

  /** Decoding shortens a text, or leaves all of it but for plus signs. */
  lemma {:induction false} DecodeShrinks(s: string)
    ensures |Decode(s, true)| <= |s|
    ensures |Decode(s, true)| == |s| ==> forall i :: 0 <= i < |s| ==> Decode(s, true)[i] == if s[i] == '+' then ' ' else s[i]
    decreases |s|
  {
    hide Token;
    if s != "" {
      TokenShrinks(s, true);
      var (out, n) := Token(s, true);
      DecodeShrinks(s[n..]);
    }
  }

  // ---------------------------------------------------------------- splitting a concatenation

  /** The segments with one more character in front. */
  function InFront(c: char, segments: seq<string>, d: char): seq<string>
    requires segments != []
  {
    if c == d then [""] + segments else [[c] + segments[0]] + segments[1..]
  }

  lemma SegmentsCons(s: string, d: char)
    requires s != ""
    ensures Segments(s, d) == InFront(s[0], Segments(s[1..], d), d)
  {
    assert s[..1] == [s[0]];
  }

  lemma {:induction false} SegmentsJoin(a: string, d: char, b: string)
    ensures Segments(a + [d] + b, d) == Segments(a, d) + Segments(b, d)
  {
    var s := a + [d] + b;
    if a == "" {
      assert s == [d] + b && s[1..] == b;
      assert Segments("", d) == [""];
      SegmentsCons(s, d);
    } else {
      hide Segments;
      SegmentsJoin(a[1..], d, b);
      SegmentsCons(a, d);
      SegmentsCons(s, d);
      assert s[1..] == a[1..] + [d] + b;
      FrontOfBoth(a[0], Segments(a[1..], d), Segments(b, d), d);
    }
  }

  lemma FrontOfBoth(c: char, first: seq<string>, second: seq<string>, d: char)
    requires first != []
    ensures InFront(c, first + second, d) == InFront(c, first, d) + second
  {
    assert (first + second)[1..] == first[1..] + second;
  }

  /** The segments with more text behind the last. */
  function InBack(segments: seq<string>, b: string): seq<string>
    requires segments != []
  {
    segments[..|segments| - 1] + [segments[|segments| - 1] + b]
  }

  /** The last segment goes on where the delimiter does not occur. */
  lemma {:induction false} SegmentsTail(a: string, d: char, b: string)
    requires d !in b
    ensures Segments(a + b, d) == InBack(Segments(a, d), b)
  {
    if a == "" {
      SegmentsNone(b, d);
      assert a + b == b && "" + b == b && Segments("", d) == [""];
    } else {
      hide Segments;
      SegmentsTail(a[1..], d, b);
      SegmentsCons(a, d);
      SegmentsCons(a + b, d);
      assert (a + b)[1..] == a[1..] + b;
      FrontAndBack(a[0], Segments(a[1..], d), b, d);
    }
  }

  lemma FrontAndBack(c: char, segments: seq<string>, b: string, d: char)
    requires segments != []
    ensures InFront(c, InBack(segments, b), d) == InBack(InFront(c, segments, d), b)
  {
    if c != d && |segments| == 1 {
      assert [c] + (segments[0] + b) == [c] + segments[0] + b;
    }
  }

  lemma {:induction false} KeptOfBoth(a: seq<string>, b: seq<string>)
    ensures Kept(a + b) == Kept(a) + Kept(b)
    decreases |a|
  {
    hide TrimCopy;
    if a == [] {
      assert a + b == b;
    } else {
      KeptOfBoth(a[1..], b);
      assert (a + b)[1..] == a[1..] + b;
    }
  }

  // ---------------------------------------------------------------- what one text can become

  function Size(p: Param): nat { |p.key| + |p.val| }

  /** The pair that parsing takes a text for. */
  function Taken(text: string): Option<Param> {
    var pieces := Split(text, '=');
    if pieces == [] then None
    else Some(Entry(Decode(PairOf(pieces).0, true), Decode(PairOf(pieces).1, true)))
  }

  function Weight(text: string): nat {
    match Taken(text)
    case None => 0
    case Some(p) => Size(p)
  }

  lemma {:induction false} EndsLength(pieces: seq<string>)
    requires pieces != []
    ensures |PairOf(pieces).0| + |PairOf(pieces).1| <= SumLength(pieces)
    decreases |pieces|
  {
    if |pieces| > 2 {
      EndsLength(pieces[1..]);
    } else if |pieces| == 2 {
      assert pieces[1..][1..] == [];
    }
  }

  lemma WeightOfPieces(text: string)
    ensures Weight(text) <= SumLength(Split(text, '='))
  {
    hide Split, Decode;
    var pieces := Split(text, '=');
    if pieces != [] {
      EndsLength(pieces);
      DecodeShrinks(PairOf(pieces).0);
      DecodeShrinks(PairOf(pieces).1);
    }
  }

  lemma WeightOfText(text: string)
    ensures Weight(text) <= |text|
  {
    WeightOfPieces(text);
    KeptShrinks(Segments(text, '='));
    SegmentsLength(text, '=');
  }

  // ---------------------------------------------------------------- the text of a pair

  /** A key that parsing does not shorten. */
  predicate Level(key: string) {
    '=' !in key && TrimCopy(key) == key && |Decode(key, true)| == |key|
  }

  function KeyPieces(key: string): seq<string> { Kept(Segments(key, '=')) }

  lemma PairPieces(key: string, val: string)
    requires Bytes(val)
    ensures Split(key + "=" + EncodeParam(val), '=') == KeyPieces(key) + if val == "" then [] else [EncodeParam(val)]
  {
    hide EncodeParam, Segments, TrimCopy;
    EncodedPlain(val);
    var e := EncodeParam(val);
    SegmentsJoin(key, '=', e);
    assert key + "=" + e == key + ['='] + e;
    SegmentsNone(e, '=');
    KeptOfBoth(Segments(key, '='), [e]);
    KeptSingle(e);
  }

  lemma KeptSingle(s: string)
    ensures Kept([s]) == if TrimCopy(s) == "" then [] else [TrimCopy(s)]
  {
    hide TrimCopy;
    assert [s][1..] == [];
  }

  lemma KeyPiecesLength(key: string)
    ensures SumLength(KeyPieces(key)) <= |key|
    ensures SumLength(KeyPieces(key)) == |key| ==>
              '=' !in key && TrimCopy(key) == key && KeyPieces(key) == if key == "" then [] else [key]
  {
    hide TrimCopy;
    KeptShrinks(Segments(key, '='));
    SegmentsLength(key, '=');
    if SumLength(KeyPieces(key)) == |key| {
      SegmentsNone(key, '=');
      KeptSingle(key);
      TrimShrinks(key);
      assert [TrimCopy(key)][1..] == [];
    }
  }

  lemma LevelPieces(key: string)
    requires Level(key)
    ensures KeyPieces(key) == if key == "" then [] else [key]
  {
    hide TrimCopy, Segments;
    SegmentsNone(key, '=');
    KeptSingle(key);
  }

  /** A pair's text weighs no more than the pair, and as much only if the key is level. */
  lemma PairWeight(key: string, val: string)
    requires Bytes(val)
    ensures Weight(key + "=" + EncodeParam(val)) <= |key| + |val|
    ensures Weight(key + "=" + EncodeParam(val)) == |key| + |val| ==> Level(key)
  {
    hide Split, Decode, KeyPieces, EncodeParam, TrimCopy;
    var e, kk := EncodeParam(val), KeyPieces(key);
    PairPieces(key, val);
    KeyPiecesLength(key);
    DecodeInverts(val, true);
    DecodeNothing();
    if kk == [] {
      if key == "" { LevelNothing(); }
    } else {
      DecodeShrinks(kk[0]);
      FirstLength(kk);
      if val == "" {
        assert kk + [] == kk;
        EndsLength(kk);
        DecodeShrinks(PairOf(kk).1);
      } else {
        assert PairOf(kk + [e]) == (kk[0], e);
      }
    }
  }

  lemma LevelNothing()
    ensures Level("")
  {
  }

  lemma FirstLength(pieces: seq<string>)
    requires pieces != []
    ensures |pieces[0]| <= SumLength(pieces)
    ensures |pieces| == 1 ==> SumLength(pieces) == |pieces[0]|
  {
    assert |pieces| == 1 ==> pieces[1..] == [];
  }

  // ---------------------------------------------------------------- a pair in a query

  lemma {:induction false} TrimLeftStops(s: string, left: nat, k: nat)
    requires left <= k < |s| && !IsSpaceOrTab(s[k])
    ensures TrimLeft(s, left, |s|) <= k
    decreases k - left
  {
    if left < k { TrimLeftStops(s, left + 1, k); }
  }

  /** Trimming the end of a key with its value takes off at most spaces in front. */
  lemma TrimmedPair(key: string, val: string) returns (j: nat)
    requires Bytes(val)
    ensures j <= |key| && TrimCopy(key + "=" + EncodeParam(val)) == key[j..] + "=" + EncodeParam(val)
  {
    hide EncodeParam;
    EncodedPlain(val);
    var e := EncodeParam(val);
    var t := key + "=" + e;
    assert t[|key|] == '=' && !IsSpaceOrTab(t[|t| - 1]);
    TrimLeftStops(t, 0, |key|);
    j := TrimLeft(t, 0, |t|);
    assert TrimRight(t, |t|) == |t|;
    assert t[j..] == key[j..] + "=" + e;
  }

  lemma TrimmedWeight(key: string, val: string)
    requires Bytes(val)
    ensures var t := TrimCopy(key + "=" + EncodeParam(val));
            && t != "" && Weight(t) <= |key| + |val| && (Weight(t) == |key| + |val| ==> Level(key))
  {
    hide Weight, Level, EncodeParam, TrimCopy;
    var j := TrimmedPair(key, val);
    PairWeight(key[j..], val);
    if j == 0 { assert key[j..] == key; }
  }

  function WeightAll(texts: seq<string>): nat {
    if texts == [] then 0 else Weight(texts[0]) + WeightAll(texts[1..])
  }

  lemma {:induction false} WeightOfBoth(a: seq<string>, b: seq<string>)
    ensures WeightAll(a + b) == WeightAll(a) + WeightAll(b)
    decreases |a|
  {
    hide Weight;
    if a == [] {
      assert a + b == b;
    } else {
      WeightOfBoth(a[1..], b);
      assert (a + b)[1..] == a[1..] + b;
    }
  }

  lemma WeightOfOne(t: string)
    ensures WeightAll([t]) == Weight(t)
  {
    hide Weight;
    assert [t][1..] == [];
  }

  lemma {:induction false} KeptWeight(segments: seq<string>)
    ensures WeightAll(Kept(segments)) <= SumLength(segments)
  {
    hide TrimCopy, Weight;
    if segments != [] {
      var t, rest := TrimCopy(segments[0]), Kept(segments[1..]);
      KeptWeight(segments[1..]);
      TrimShrinks(segments[0]);
      WeightOfText(t);
      if t == "" {
        assert [] + rest == rest;
      } else {
        assert ([t] + rest)[1..] == rest;
      }
    }
  }

  /** The pieces of a query that a pair's text is split into weigh no more than the pair. */
  lemma PairInQuery(p: Param)
    requires Bytes(p.val)
    ensures WeightAll(Split(PairText(p), '&')) <= Size(p)
    ensures WeightAll(Split(PairText(p), '&')) == Size(p) ==> '&' !in p.key && Level(p.key)
  {
    hide Kept, EncodeParam, Segments, Weight, WeightAll, TrimCopy, Level;
    var segments := Segments(p.key, '&');
    var n := |segments| - 1;
    var last := segments[n] + "=" + EncodeParam(p.val);
    PairSegments(p);
    KeptOfBoth(segments[..n], [last]);
    KeptSingle(last);
    TrimmedWeight(segments[n], p.val);
    WeightOfBoth(Kept(segments[..n]), [TrimCopy(last)]);
    WeightOfOne(TrimCopy(last));
    KeptWeight(segments[..n]);
    FrontLength(p.key);
  }

  /** Only the key of a pair can have an ampersand. */
  lemma PairSegments(p: Param)
    requires Bytes(p.val)
    ensures var segments := Segments(p.key, '&');
            Segments(PairText(p), '&') == segments[..|segments| - 1] + [segments[|segments| - 1] + "=" + EncodeParam(p.val)]
  {
    hide EncodeParam, Segments;
    EncodedPlain(p.val);
    var e, segments := EncodeParam(p.val), Segments(p.key, '&');
    assert PairText(p) == p.key + ("=" + e);
    SegmentsTail(p.key, '&', "=" + e);
    assert segments[|segments| - 1] + ("=" + e) == segments[|segments| - 1] + "=" + e;
  }

  lemma FrontLength(key: string)
    ensures var segments := Segments(key, '&');
            var n := |segments| - 1;
            && SumLength(segments[..n]) + |segments[n]| + n == |key|
            && (n == 0 ==> '&' !in key && segments[n] == key)
  {
    hide Segments;
    var segments := Segments(key, '&');
    var n := |segments| - 1;
    SegmentsLength(key, '&');
    SumOfBoth(segments[..n], [segments[n]]);
    assert segments[..n] + [segments[n]] == segments;
    FirstLength([segments[n]]);
    if n == 0 { SegmentsNone(key, '&'); }
  }

  // ---------------------------------------------------------------- whole queries

  function AllTexts(ps: seq<Param>): seq<string>
    requires ByteValues(ps)
  {
    if ps == [] then [] else Split(PairText(ps[0]), '&') + AllTexts(ps[1..])
  }

  lemma {:induction false} QuerySplits(ps: seq<Param>)
    requires ByteValues(ps)
    ensures Split(QueryOf(ps), '&') == AllTexts(ps)
    decreases |ps|
  {
    hide PairText, Segments, TrimCopy, Kept;
    if ps == [] {
      SplitNothing('&');
    } else {
      var text := PairText(ps[0]);
      if |ps| == 1 {
        assert Split(text, '&') + [] == Split(text, '&');
      } else {
        var rest := QueryOf(ps[1..]);
        assert text + ("&" + rest) == text + ['&'] + rest;
        SegmentsJoin(text, '&', rest);
        QuerySplits(ps[1..]);
        KeptOfBoth(Segments(text, '&'), Segments(rest, '&'));
      }
    }
  }

  function TotalSize(ps: seq<Param>): nat {
    if ps == [] then 0 else Size(ps[0]) + TotalSize(ps[1..])
  }

  lemma {:induction false} InsertSize(m: seq<Param>, p: Param)
    ensures TotalSize(MultiInsert(m, p)) == TotalSize(m) + Size(p)
  {
    hide Less;
    if m == [] {
      assert [p][1..] == [];
    } else if Less(p.key, m[0].key) {
      assert ([p] + m)[1..] == m;
    } else {
      InsertSize(m[1..], p);
      assert ([m[0]] + MultiInsert(m[1..], p))[1..] == MultiInsert(m[1..], p);
    }
  }

  lemma AddPairTakes(text: string, params: seq<Param>)
    ensures AddPair(text, params) == match Taken(text) case None => params case Some(p) => MultiInsert(params, p)
    ensures TotalSize(AddPair(text, params)) == TotalSize(params) + Weight(text)
  {
    hide Split, Decode, MultiInsert, TotalSize;
    if Taken(text).Some? { InsertSize(params, Taken(text).value); }
  }

  /** Parsing adds at most the weight of the texts. */
  lemma {:induction false} ParsedSize(texts: seq<string>, seen: set<string>, params: seq<Param>)
    ensures TotalSize(AddPairs(texts, seen, params)) <= TotalSize(params) + WeightAll(texts)
    decreases |texts|
  {
    hide AddPair, Weight, TotalSize;
    if texts != [] {
      AddPairTakes(texts[0], params);
      if texts[0] in seen {
        ParsedSize(texts[1..], seen, params);
      } else {
        ParsedSize(texts[1..], seen + {texts[0]}, AddPair(texts[0], params));
      }
    }
  }

  /** The texts of a query weigh no more than its pairs, and as much only if all keys are level. */
  lemma {:induction false} QueryWeight(ps: seq<Param>)
    requires ByteValues(ps)
    ensures WeightAll(AllTexts(ps)) <= TotalSize(ps)
    ensures WeightAll(AllTexts(ps)) == TotalSize(ps) ==> forall i :: 0 <= i < |ps| ==> '&' !in ps[i].key && Level(ps[i].key)
    decreases |ps|
  {
    hide PairText, Split, Level, Size;
    if ps != [] {
      hide WeightAll;
      PairInQuery(ps[0]);
      QueryWeight(ps[1..]);
      WeightOfBoth(Split(PairText(ps[0]), '&'), AllTexts(ps[1..]));
      forall i | 0 < i < |ps| ensures ps[i] == ps[1..][i - 1] {}
    }
  }

  /** A multimap that comes back has lost nothing. */
  lemma ReturnedIsLevel(ps: seq<Param>)
    requires ByteValues(ps) && Parse(QueryOf(ps), []) == ps
    ensures forall i :: 0 <= i < |ps| ==> '&' !in ps[i].key && Level(ps[i].key)
  {
    hide AddPairs, AllTexts, WeightAll, QueryOf, Split, Level;
    QuerySplits(ps);
    ParsedSize(AllTexts(ps), {}, []);
    QueryWeight(ps);
  }

  // ---------------------------------------------------------------- which keys come back

  /** What parsing takes the text of a pair with a level key for. */
  lemma LevelTaken(p: Param)
    requires Level(p.key) && Bytes(p.val)
    ensures Taken(PairText(p))
            == if p.key != "" then Some(Entry(Decode(p.key, true), p.val)) else if p.val != "" then Some(Entry(p.val, "")) else None
  {
    hide EncodeParam, Segments, TrimCopy, Decode, Kept;
    var e := EncodeParam(p.val);
    PairPieces(p.key, p.val);
    LevelPieces(p.key);
    DecodeInverts(p.val, true);
    DecodeNothing();
    EncodedPlain(p.val);
    var kk := KeyPieces(p.key);
    if p.val == "" {
      assert kk + [] == kk;
    } else {
      assert kk + [e] == if p.key == "" then [e] else [p.key, e];
    }
  }

  lemma LevelText(p: Param)
    requires Level(p.key) && '&' !in p.key && Bytes(p.val)
    ensures Split(PairText(p), '&') == [PairText(p)]
  {
    hide EncodeParam, Segments, TrimCopy, Decode, Kept;
    EncodedPlain(p.val);
    var text := PairText(p);
    SegmentsNone(text, '&');
    KeptSingle(text);
    if p.key != "" {
      TrimEnds(p.key);
      assert text[0] == p.key[0];
    }
    TrimEnds(text);
  }

  predicate NonEmpty(key: string) { key != "" }

  predicate NoPlus(key: string) { '+' !in key }

  ghost predicate AllKeys(ps: seq<Param>, ok: string -> bool) { forall i :: 0 <= i < |ps| ==> ok(ps[i].key) }

  lemma {:induction false} InsertKeys(m: seq<Param>, p: Param, ok: string -> bool)
    requires AllKeys(m, ok) && ok(p.key)
    ensures AllKeys(MultiInsert(m, p), ok)
  {
    hide Less;
    if m != [] {
      InsertKeys(m[1..], p, ok);
    }
  }

  lemma {:induction false} ParsedKeys(texts: seq<string>, seen: set<string>, params: seq<Param>, ok: string -> bool)
    requires AllKeys(params, ok) && forall i :: 0 <= i < |texts| ==> Taken(texts[i]).Some? ==> ok(Taken(texts[i]).value.key)
    ensures AllKeys(AddPairs(texts, seen, params), ok)
    decreases |texts|
  {
    hide AddPair, Taken, AllKeys;
    if texts != [] {
      AddPairTakes(texts[0], params);
      if texts[0] in seen {
        ParsedKeys(texts[1..], seen, params, ok);
      } else {
        if Taken(texts[0]).Some? { InsertKeys(params, Taken(texts[0]).value, ok); }
        ParsedKeys(texts[1..], seen + {texts[0]}, AddPair(texts[0], params), ok);
      }
    }
  }

  lemma {:induction false} LevelTexts(ps: seq<Param>)
    requires ByteValues(ps) && forall i :: 0 <= i < |ps| ==> '&' !in ps[i].key && Level(ps[i].key)
    ensures AllTexts(ps) == PairTexts(ps)
  {
    hide PairText, PairTexts, Split, Level;
    if ps == [] {
      NoTexts();
    } else {
      forall i | 0 <= i < |ps[1..]| ensures ps[1..][i] == ps[i + 1] {}
      assert '&' !in ps[0].key && Level(ps[0].key);
      LevelText(ps[0]);
      LevelTexts(ps[1..]);
      TextsCons(ps);
      assert PairTexts(ps) == [PairText(ps[0])] + PairTexts(ps[1..]);
    }
  }

  /** The keys that parsing makes of level ones are not empty, and have no plus sign if those are not empty. */
  lemma LevelKeys(ps: seq<Param>, i: nat)
    requires ByteValues(ps) && i < |ps| && Level(ps[i].key)
    ensures var t := Taken(PairTexts(ps)[i]);
            t.Some? ==> NonEmpty(t.value.key) && (ps[i].key != "" ==> NoPlus(t.value.key))
  {
    hide PairText, Taken, TrimCopy;
    LevelTaken(ps[i]);
    DecodeShrinks(ps[i].key);
  }

  lemma ReturnedKeys(ps: seq<Param>)
    requires ByteValues(ps) && Parse(QueryOf(ps), []) == ps
    ensures AllKeys(ps, NonEmpty) && AllKeys(ps, NoPlus)
  {
    hide AddPairs, AllTexts, PairTexts, QueryOf, Split, Level, Taken, NonEmpty, NoPlus;
    ReturnedIsLevel(ps);
    QuerySplits(ps);
    LevelTexts(ps);
    var texts := PairTexts(ps);
    forall i | 0 <= i < |texts| && Taken(texts[i]).Some? ensures NonEmpty(Taken(texts[i]).value.key) {
      LevelKeys(ps, i);
    }
    ParsedKeys(texts, {}, [], NonEmpty);
    forall i | 0 <= i < |texts| && Taken(texts[i]).Some? ensures NoPlus(Taken(texts[i]).value.key) {
      LevelKeys(ps, i);
      IsNonEmpty(ps[i].key);
    }
    ParsedKeys(texts, {}, [], NoPlus);
  }

  lemma IsNonEmpty(key: string)
    requires NonEmpty(key)
    ensures key != ""
  {
  }

  lemma LevelFits(key: string)
    requires Level(key) && key != "" && NoPlus(key)
    ensures KeyFits(key)
  {
    hide TrimCopy;
    DecodeShrinks(key);
    assert forall i :: 0 <= i < |key| ==> Decode(key, true)[i] == key[i];
    assert Decode(key, true) == key;
  }

  /**
   The exact condition. A multimap written as a query string and parsed comes back if and only if
   all its keys fit and its pairs are distinct.
   */
  lemma RoundTripExactly(ps: seq<Param>)
    requires ByteValues(ps) && MultiSorted(ps)
    ensures Parse(QueryOf(ps), []) == ps <==>
              (forall i :: 0 <= i < |ps| ==> Fits(ps[i].key)) && forall i, j :: 0 <= i < j < |ps| ==> ps[i] != ps[j]
  {
    hide Parse, QueryOf, Level, KeyFits, NonEmpty, NoPlus, MultiSorted;
    if Parse(QueryOf(ps), []) == ps {
      ReturnedIsLevel(ps);
      ReturnedKeys(ps);
      forall i | 0 <= i < |ps| ensures Fits(ps[i].key) {
        assert NonEmpty(ps[i].key) && NoPlus(ps[i].key);
        IsNonEmpty(ps[i].key);
        LevelFits(ps[i].key);
      }
      RoundTrip(ps);
    }
    if forall i :: 0 <= i < |ps| ==> Fits(ps[i].key) {
      RoundTrip(ps);
    }
  }

  // ---------------------------------------------------------------- one pair

  lemma {:induction false} InsertAll(m: seq<Param>, p: Param)
    ensures multiset(MultiInsert(m, p)) == multiset(m) + multiset{p}
  {
    hide Less;
    if m != [] {
      InsertAll(m[1..], p);
      assert m == [m[0]] + m[1..];
    }
  }

  lemma InsertedSame(m: seq<Param>, p: Param, q: Param)
    requires MultiInsert(m, p) == MultiInsert(m, q)
    ensures p == q
  {
    hide MultiInsert;
    InsertAll(m, p);
    InsertAll(m, q);
    assert multiset{p}[p] == 1;
    assert (multiset(m) + multiset{p})[p] == multiset(m)[p] + 1;
    assert (multiset(m) + multiset{q})[p] == multiset(m)[p] + multiset{q}[p];
  }

  lemma InsertedMore(m: seq<Param>, p: Param)
    ensures MultiInsert(m, p) != m
  {
    InsertAll(m, p);
    assert |multiset(m) + multiset{p}| == |multiset(m)| + 1;
  }

  /** The text of one pair is taken for that pair if and only if the key fits. */
  lemma PairExactly(p: Param, params: seq<Param>)
    requires Bytes(p.val)
    ensures AddPair(PairText(p), params) == MultiInsert(params, p) <==> KeyFits(p.key)
  {
    hide AddPair, PairText, MultiInsert, Taken, KeyFits, Level;
    if KeyFits(p.key) { AddPairInserts(p, params); }
    if AddPair(PairText(p), params) == MultiInsert(params, p) {
      AddPairTakes(PairText(p), params);
      InsertedMore(params, p);
      var q := Taken(PairText(p)).value;
      InsertedSame(params, q, p);
      TextWeight(p);
      LevelTaken(p);
      TakenFits(p);
    }
  }

  lemma TextWeight(p: Param)
    requires Bytes(p.val)
    ensures Taken(PairText(p)) == Some(p) ==> Level(p.key)
  {
    hide Taken, Level;
    PairWeight(p.key, p.val);
  }

  lemma TakenFits(p: Param)
    requires Level(p.key)
    requires Some(p) == if p.key != "" then Some(Entry(Decode(p.key, true), p.val)) else if p.val != "" then Some(Entry(p.val, "")) else None
    ensures KeyFits(p.key)
  {
    hide TrimCopy, Decode;
  }
}
