/** Query strings written from a multimap of parameters, and parsed back into one. */
module QueryRoundTrip {
  import opened Texts
  import opened PercentCoding
  import opened SortedMaps
  import opened QueryStrings

  type Param = Entry<string>

  // ---------------------------------------------------------------- writing

  function PairText(p: Param): string
    requires Bytes(p.val)
  {
    p.key + "=" + EncodeParam(p.val)
  }

  ghost predicate ByteValues(ps: seq<Param>) { forall i :: 0 <= i < |ps| ==> Bytes(ps[i].val) }

  function QueryOf(ps: seq<Param>): string
    requires ByteValues(ps)
  {
    if ps == [] then ""
    else if |ps| == 1 then PairText(ps[0])
    else PairText(ps[0]) + ("&" + QueryOf(ps[1..]))
  }

  /** All pairs from the i-th on, each with an ampersand before it. */
  function QueryAfter(ps: seq<Param>, i: nat): string
    requires ByteValues(ps)
    decreases |ps| - i
  {
    if i >= |ps| then "" else "&" + PairText(ps[i]) + QueryAfter(ps, i + 1)
  }

  lemma {:induction false} QueryAfterIs(ps: seq<Param>, i: nat)
    requires ByteValues(ps) && i < |ps|
    ensures QueryOf(ps[i..]) == PairText(ps[i]) + QueryAfter(ps, i + 1)
    decreases |ps| - i
  {
    hide PairText;
    if i + 1 < |ps| {
      QueryAfterIs(ps, i + 1);
      assert ps[i..][1..] == ps[i + 1..];
      assert "&" + (PairText(ps[i + 1]) + QueryAfter(ps, i + 2)) == "&" + PairText(ps[i + 1]) + QueryAfter(ps, i + 2);
    } else {
      assert PairText(ps[i]) + "" == PairText(ps[i]);
    }
  }

  /** `params_to_query_str` */
  method ParamsToQueryStr(ps: seq<Param>) returns (query: string)
    requires ByteValues(ps)
    ensures query == QueryOf(ps)
  {
    hide EncodeParam, QueryOf, QueryAfter, PairText;
    query := "";
    QueryOfNone();
    if ps != [] { QueryAfterIs(ps, 0); }
    assert ps[0..] == ps;
    for i := 0 to |ps|
      invariant i > 0 ==> query + QueryAfter(ps, i) == QueryOf(ps)
      invariant i == 0 ==> query == ""
    {
      WriteStep(ps, i, query);
      if i > 0 { query := query + "&"; }
      query := query + ps[i].key;
      query := query + "=";
      var val := EncodeQueryParam(ps[i].val);
      query := query + val;
    }
    QueryAfterNone(ps);
    assert query + "" == query;
  }

  lemma WriteStep(ps: seq<Param>, i: nat, query: string)
    requires ByteValues(ps) && i < |ps|
    ensures query + ps[i].key + "=" + EncodeParam(ps[i].val) == query + PairText(ps[i])
    ensures query + QueryAfter(ps, i) == query + "&" + ps[i].key + "=" + EncodeParam(ps[i].val) + QueryAfter(ps, i + 1)
    ensures "" + PairText(ps[i]) == PairText(ps[i])
  {
    hide EncodeParam;
    var key, val, after := ps[i].key, EncodeParam(ps[i].val), QueryAfter(ps, i + 1);
    Associates(query, key, "=", val);
    Associates(query + "&", key, "=", val);
    assert query + ("&" + PairText(ps[i]) + after) == query + "&" + PairText(ps[i]) + after;
  }

  lemma Associates(a: string, b: string, c: string, d: string)
    ensures a + b + c + d == a + (b + c + d)
  {
    assert a + b + c == a + (b + c);
    assert a + (b + c) + d == a + (b + c + d);
  }

  lemma QueryAfterNone(ps: seq<Param>)
    requires ByteValues(ps)
    ensures QueryAfter(ps, |ps|) == ""
  {
  }

  lemma QueryOfNone()
    ensures QueryOf([]) == ""
  {
  }

  // ---------------------------------------------------------------- parsing

  /** `std::multimap::emplace`: behind the entries of the same key. */
  function MultiInsert(m: seq<Param>, p: Param): seq<Param> {
    if m == [] then [p]
    else if Less(p.key, m[0].key) then [p] + m
    else [m[0]] + MultiInsert(m[1..], p)
  }

  /** The first piece of a pair is its key, the last of the others its value. */
  function PairOf(pieces: seq<string>): (string, string)
    requires pieces != []
  {
    (pieces[0], if |pieces| > 1 then pieces[|pieces| - 1] else "")
  }

  function AddPair(text: string, params: seq<Param>): seq<Param> {
    var pieces := Split(text, '=');
    if pieces == [] then params
    else MultiInsert(params, Entry(Decode(PairOf(pieces).0, true), Decode(PairOf(pieces).1, true)))
  }

  /** Texts that were there before are skipped. */
  function AddPairs(texts: seq<string>, seen: set<string>, params: seq<Param>): seq<Param>
    decreases |texts|
  {
    if texts == [] then params
    else if texts[0] in seen then AddPairs(texts[1..], seen, params)
    else AddPairs(texts[1..], seen + {texts[0]}, AddPair(texts[0], params))
  }

  function Parse(s: string, params: seq<Param>): seq<Param> {
    AddPairs(Split(s, '&'), {}, params)
  }

  lemma {:induction false} PiecesNonEmpty(segments: seq<string>)
    ensures forall i :: 0 <= i < |Kept(segments)| ==> Kept(segments)[i] != ""
  {
    hide TrimCopy;
    if segments != [] { PiecesNonEmpty(segments[1..]); }
  }

  /** The callback for one pair. */
  method ParsePair(text: string, params: seq<Param>) returns (r: seq<Param>)
    ensures r == AddPair(text, params)
  {
    hide MultiInsert, Split, Decode;
    var pieces := SplitText(text, '=');
    SplitNonEmpty(text, '=');
    var key, val := "", "";
    for j := 0 to |pieces|
      invariant key == if j == 0 then "" else pieces[0]
      invariant val == if j <= 1 then "" else pieces[j - 1]
    {
      if key == "" { key := pieces[j]; } else { val := pieces[j]; }
    }
    if key == "" { return params; }
    var k := DecodeUrl(key, true);
    var v := DecodeUrl(val, true);
    r := MultiInsert(params, Entry(k, v));
  }

  lemma SplitNonEmpty(s: string, d: char)
    ensures forall i :: 0 <= i < |Split(s, d)| ==> Split(s, d)[i] != ""
  {
    PiecesNonEmpty(Segments(s, d));
  }

  /** `parse_query_text` */
  method ParseQueryText(s: string, params: seq<Param>) returns (r: seq<Param>)
    ensures r == Parse(s, params)
  {
    hide AddPair, Split;
    var cache: set<string> := {};
    r := params;
    var texts := SplitText(s, '&');
    assert texts[0..] == texts;
    for i := 0 to |texts|
      invariant AddPairs(texts[i..], cache, r) == Parse(s, params)
    {
      assert texts[i..][1..] == texts[i + 1..];
      if texts[i] !in cache {
        cache := cache + {texts[i]};
        r := ParsePair(texts[i], r);
      }
    }
  }

  // ---------------------------------------------------------------- what was written is parsed

  /** A key that comes back from the text of a pair: no equals sign, no space around it, and nothing to decode. */
  predicate KeyFits(key: string) {
    key != "" && '=' !in key && TrimCopy(key) == key && Decode(key, true) == key
  }

  /** In a query, no ampersand either. */
  predicate Fits(key: string) { KeyFits(key) && '&' !in key }

  ghost predicate Good(p: Param) { Fits(p.key) && Bytes(p.val) }

  ghost predicate AllGood(ps: seq<Param>) { forall i :: 0 <= i < |ps| ==> Good(ps[i]) }

  /** Whatever the encoder leaves alone fits. */
  lemma UnreservedFits(key: string)
    requires key != "" && forall i :: 0 <= i < |key| ==> Unreserved(key[i])
    ensures Fits(key)
  {
    hide Decode, TrimCopy;
    UnreservedDecodes(key, true);
    assert Unreserved(key[0]) && Unreserved(key[|key| - 1]);
    TrimEnds(key);
    assert !Unreserved('=') && !Unreserved('&');
  }

  /** Trimming leaves a text alone if there is no space at either end. */
  lemma TrimEnds(s: string)
    requires s != ""
    ensures TrimCopy(s) == s <==> !IsSpaceOrTab(s[0]) && !IsSpaceOrTab(s[|s| - 1])
  {
  }

  /** An encoded value has no space, ampersand or equals sign. */
  lemma EncodedPlain(value: string)
    requires Bytes(value)
    ensures var e := EncodeParam(value);
            && '&' !in e && '=' !in e && TrimCopy(e) == e && (e == "" <==> value == "")
            && (e != "" ==> !IsSpaceOrTab(e[|e| - 1]))
  {
    EncodedClean(value);
    hide EncodeParam;
    var e := EncodeParam(value);
    forall i | 0 <= i < |e| ensures e[i] != '=' && e[i] != '&' && !IsSpaceOrTab(e[i]) {
      assert Unreserved(e[i]) || e[i] == '%';
    }
    if e != "" { TrimEnds(e); }
  }

  /** The text of a pair is a segment of its own. */
  lemma PairTextClean(p: Param)
    requires Good(p)
    ensures TrimCopy(PairText(p)) == PairText(p) != "" && forall i :: 0 <= i < |PairText(p)| ==> PairText(p)[i] != '&'
  {
    hide EncodeParam, TrimCopy, Decode;
    EncodedPlain(p.val);
    var text := PairText(p);
    TrimEnds(p.key);
    assert text[0] == p.key[0];
    TrimEnds(text);
  }

  lemma SplitPair(p: Param)
    requires KeyFits(p.key) && Bytes(p.val)
    ensures Split(PairText(p), '=') == [p.key] + if p.val == "" then [] else [EncodeParam(p.val)]
  {
    EncodedPlain(p.val);
    hide EncodeParam, Segments, TrimCopy, Decode;
    var e := EncodeParam(p.val);
    assert PairText(p) == p.key + ['='] + e;
    SegmentsAt(p.key, '=', e);
    SegmentsNone(e, '=');
    KeptTwo(p.key, e);
  }

  lemma KeptTwo(a: string, b: string)
    requires TrimCopy(a) == a != "" && TrimCopy(b) == b
    ensures Kept([a] + [b]) == [a] + if b == "" then [] else [b]
  {
    hide TrimCopy;
    assert ([a] + [b])[1..] == [b] && [b][1..] == [];
    assert Kept([b]) == if b == "" then [] else [b];
    assert ([a] + [b])[0] == a;
  }

  lemma AddPairInserts(p: Param, params: seq<Param>)
    requires KeyFits(p.key) && Bytes(p.val)
    ensures AddPair(PairText(p), params) == MultiInsert(params, p)
  {
    hide MultiInsert, Split, PairText, EncodeParam, Decode;
    SplitPair(p);
    DecodeInverts(p.val, true);
    DecodeNothing();
  }

  lemma DecodeNothing()
    ensures Decode("", true) == ""
  {
  }

  /** Different pairs have different texts. */
  lemma PairTextInjective(p: Param, q: Param)
    requires Good(p) && Good(q) && PairText(p) == PairText(q)
    ensures p == q
  {
    hide Split, PairText, EncodeParam, Decode;
    SplitPair(p);
    SplitPair(q);
    DecodeInverts(p.val, true);
    DecodeInverts(q.val, true);
    EncodedEmpty(p.val);
    EncodedEmpty(q.val);
    assert p.key == Split(PairText(p), '=')[0] == q.key;
    assert p.val == "" <==> |Split(PairText(p), '=')| == 1;
    assert p.val != "" ==> EncodeParam(p.val) == Split(PairText(p), '=')[1] == EncodeParam(q.val);
  }

  lemma EncodedEmpty(value: string)
    requires Bytes(value)
    ensures EncodeParam(value) == "" <==> value == ""
  {
    EncodedClean(value);
  }

  function PairTexts(ps: seq<Param>): (r: seq<string>)
    requires ByteValues(ps)
    ensures |r| == |ps| && forall i :: 0 <= i < |ps| ==> r[i] == PairText(ps[i])
  {
    seq(|ps|, i requires 0 <= i < |ps| => PairText(ps[i]))
  }

  lemma GoodParts(ps: seq<Param>)
    requires AllGood(ps) && ps != []
    ensures Good(ps[0]) && KeyFits(ps[0].key) && Bytes(ps[0].val) && ByteValues(ps) && AllGood(ps[1..]) && ByteValues(ps[1..])
  {
    forall i | 0 <= i < |ps[1..]| ensures Good(ps[1..][i]) { assert ps[1..][i] == ps[i + 1]; }
  }

  lemma {:induction false} SplitQuery(ps: seq<Param>)
    requires AllGood(ps)
    ensures Split(QueryOf(ps), '&') == PairTexts(ps)
    decreases |ps|
  {
    hide PairText, Segments, TrimCopy, Good;
    if ps == [] {
      SplitNothing('&');
    } else {
      GoodParts(ps);
      PairTextClean(ps[0]);
      var text := PairText(ps[0]);
      if |ps| == 1 {
        SegmentsNone(text, '&');
        KeptOne(text, []);
      } else {
        var rest := QueryOf(ps[1..]);
        assert text + ("&" + rest) == text + ['&'] + rest;
        SegmentsAt(text, '&', rest);
        SplitQuery(ps[1..]);
        KeptOne(text, Segments(rest, '&'));
      }
    }
  }

  lemma KeptOne(text: string, rest: seq<string>)
    requires TrimCopy(text) == text != ""
    ensures Kept([text] + rest) == [text] + Kept(rest) && Kept([]) == [] && [text] + [] == [text]
  {
    hide TrimCopy;
    assert ([text] + rest)[1..] == rest;
  }

  lemma SplitNothing(d: char)
    ensures Split("", d) == []
  {
    assert Segments("", d) == [""];
    assert [""][1..] == [];
  }

  /** The pairs without those that were there before. */
  function FirstOccurrences(ps: seq<Param>, before: set<Param>): seq<Param>
    decreases |ps|
  {
    if ps == [] then []
    else if ps[0] in before then FirstOccurrences(ps[1..], before)
    else [ps[0]] + FirstOccurrences(ps[1..], before + {ps[0]})
  }

  /** A multimap's iteration order. */
  ghost predicate MultiSorted(ps: seq<Param>) {
    forall i, j :: 0 <= i < j < |ps| ==> !Less(ps[j].key, ps[i].key)
  }

  lemma {:induction false} InsertLast(m: seq<Param>, p: Param)
    requires forall i :: 0 <= i < |m| ==> !Less(p.key, m[i].key)
    ensures MultiInsert(m, p) == m + [p]
  {
    if m != [] {
      assert !Less(p.key, m[0].key);
      InsertLast(m[1..], p);
    }
  }

  lemma InsertFirst(params: seq<Param>, ps: seq<Param>)
    requires MultiSorted(params + ps) && ps != []
    ensures MultiInsert(params, ps[0]) == params + [ps[0]] && MultiSorted(params + [ps[0]] + ps[1..])
  {
    hide Less;
    var all := params + ps;
    forall i | 0 <= i < |params| ensures !Less(ps[0].key, params[i].key) {
      assert all[i] == params[i] && all[|params|] == ps[0];
    }
    InsertLast(params, ps[0]);
    assert params + [ps[0]] + ps[1..] == all;
  }

  ghost predicate SeenAre(seen: set<string>, before: set<Param>) {
    forall p: Param :: Good(p) ==> (PairText(p) in seen <==> p in before)
  }

  lemma SeenOne(seen: set<string>, before: set<Param>, p: Param)
    requires SeenAre(seen, before) && Good(p)
    ensures SeenAre(seen + {PairText(p)}, before + {p})
  {
    hide PairText;
    forall q: Param | Good(q) ensures PairText(q) in seen + {PairText(p)} <==> q in before + {p} {
      if PairText(q) == PairText(p) { PairTextInjective(q, p); }
    }
  }

  lemma {:induction false} ParseTexts(ps: seq<Param>, seen: set<string>, before: set<Param>, params: seq<Param>)
    requires AllGood(ps) && MultiSorted(params + ps) && SeenAre(seen, before)
    ensures AddPairs(PairTexts(ps), seen, params) == params + FirstOccurrences(ps, before)
    decreases |ps|
  {
    hide PairText, PairTexts, AddPair, Good, AllGood, KeyFits, SeenAre, MultiSorted, MultiInsert;
    if ps == [] {
      NoTexts();
      assert params + [] == params;
    } else {
      var p := ps[0];
      GoodParts(ps);
      TextsCons(ps);
      SeenFor(seen, before, p);
      SortedTail(params, ps);
      if p in before {
        ParseTexts(ps[1..], seen, before, params);
      } else {
        AddPairInserts(p, params);
        InsertFirst(params, ps);
        SeenOne(seen, before, p);
        ParseTexts(ps[1..], seen + {PairText(p)}, before + {p}, params + [p]);
        assert params + [p] + FirstOccurrences(ps[1..], before + {p}) == params + ([p] + FirstOccurrences(ps[1..], before + {p}));
      }
    }
  }

  lemma NoTexts()
    ensures PairTexts([]) == []
  {
  }

  lemma TextsCons(ps: seq<Param>)
    requires ps != [] && ByteValues(ps) && ByteValues(ps[1..]) && Bytes(ps[0].val)
    ensures PairTexts(ps) != [] && PairTexts(ps)[0] == PairText(ps[0]) && PairTexts(ps)[1..] == PairTexts(ps[1..])
  {
    hide PairText;
  }

  lemma SeenFor(seen: set<string>, before: set<Param>, p: Param)
    requires SeenAre(seen, before) && Good(p)
    ensures PairText(p) in seen <==> p in before
  {
  }

  lemma SortedTail(params: seq<Param>, ps: seq<Param>)
    requires MultiSorted(params + ps) && ps != []
    ensures MultiSorted(params + ps[1..])
  {
    hide Less;
    var all, less := params + ps, params + ps[1..];
    forall i, j | 0 <= i < j < |less| ensures !Less(less[j].key, less[i].key) {
      var i', j' := if i < |params| then i else i + 1, if j < |params| then j else j + 1;
      assert less[i] == all[i'] && less[j] == all[j'];
    }
  }

  ghost predicate Distinct(ps: seq<Param>, before: set<Param>) {
    && (forall i :: 0 <= i < |ps| ==> ps[i] !in before)
    && (forall i, j :: 0 <= i < j < |ps| ==> ps[i] != ps[j])
  }

  lemma DistinctFirst(ps: seq<Param>, before: set<Param>)
    requires ps != []
    ensures Distinct(ps, before) <==> ps[0] !in before && Distinct(ps[1..], before + {ps[0]})
  {
    var p, rest := ps[0], ps[1..];
    if Distinct(ps, before) {
      forall i | 0 <= i < |rest| ensures rest[i] !in before + {p} { assert rest[i] == ps[i + 1]; }
    }
    if p !in before && Distinct(rest, before + {p}) {
      forall i | 0 < i < |ps| ensures ps[i] !in before && ps[i] != p { assert ps[i] == rest[i - 1]; }
      forall i, j | 0 < i < j < |ps| ensures ps[i] != ps[j] { assert ps[i] == rest[i - 1] && ps[j] == rest[j - 1]; }
    }
  }

  lemma {:induction false} FirstsAreAll(ps: seq<Param>, before: set<Param>)
    ensures FirstOccurrences(ps, before) == ps <==> Distinct(ps, before)
    ensures |FirstOccurrences(ps, before)| <= |ps|
    decreases |ps|
  {
    hide Distinct;
    if ps == [] {
      assert Distinct(ps, before) by { NothingDistinct(before); }
    } else {
      DistinctFirst(ps, before);
      if ps[0] in before {
        FirstsAreAll(ps[1..], before);
      } else {
        FirstsAreAll(ps[1..], before + {ps[0]});
        assert ps == [ps[0]] + ps[1..];
      }
    }
  }

  lemma NothingDistinct(before: set<Param>)
    ensures Distinct([], before)
  {
  }

  lemma NothingSeen()
    ensures SeenAre({}, {})
  {
  }

  /**
   Query-string round trip: with keys that fit, parsing what was written from a multimap gives its
   pairs back, each once; all of it if and only if its pairs are distinct.
   */
  lemma RoundTrip(ps: seq<Param>)
    requires AllGood(ps) && MultiSorted(ps)
    ensures Parse(QueryOf(ps), []) == FirstOccurrences(ps, {})
    ensures Parse(QueryOf(ps), []) == ps <==> forall i, j :: 0 <= i < j < |ps| ==> ps[i] != ps[j]
  {
    hide PairText, Good, Split, AddPairs, FirstOccurrences, QueryOf, MultiSorted, PairTexts, SeenAre;
    SplitQuery(ps);
    NothingSeen();
    assert [] + ps == ps;
    ParseTexts(ps, {}, {}, []);
    assert [] + FirstOccurrences(ps, {}) == FirstOccurrences(ps, {});
    FirstsAreAll(ps, {});
  }

  /** A pair that is there twice comes back once. */
  lemma RepeatedPairLost()
    ensures var p := Entry("a", "1"); Parse(QueryOf([p, p]), []) == [p]
  {
    hide Split, PairText, AddPairs, QueryOf, Fits;
    var p := Entry("a", "1");
    UnreservedFits("a");
    assert AllGood([p, p]);
    LessTrichotomy("a", "a");
    assert MultiSorted([p, p]);
    RoundTrip([p, p]);
    assert [p, p][1..] == [p] && [p][1..] == [];
    assert {} + {p} == {p};
    assert FirstOccurrences([p], {p}) == [];
    assert FirstOccurrences([p, p], {}) == [p] + FirstOccurrences([p], {p});
  }

  /** An empty key is lost, and its value becomes the key. */
  lemma EmptyKeyLost()
    ensures QueryOf([Entry("", "x")]) == "=x" && Parse("=x", []) == [Entry("x", "")]
  {
    assert EncodeParam("x") == "x" by { UnreservedDecodes("x", true); }
    assert QueryOf([Entry("", "x")]) == "=x";
    hide Segments, Decode, TrimCopy;
    SegmentsNone("=x", '&');
    SegmentsAt("", '=', "x");
    SegmentsNone("x", '=');
    assert "=x" == "" + ['='] + "x" && [""] + ["x"] == ["", "x"];
    TrimEnds("=x");
    TrimEnds("x");
    NothingTrimmed();
    KeptOne("=x", []);
    assert ["", "x"][1..] == ["x"];
    KeptOne("x", []);
    assert ["x"] + [] == ["x"] && ["=x"] + [] == ["=x"];
    assert Split("=x", '&') == ["=x"] && Split("=x", '=') == ["x"];
    UnreservedDecodes("x", true);
    DecodeNothing();
    assert ["=x"][1..] == [];
  }

  lemma NothingTrimmed()
    ensures TrimCopy("") == ""
  {
  }
}
