/** What any query text is read as, written or not. */
module QueryReads {
  import opened SortedMaps
  import opened PercentCoding
  import opened QueryStrings
  import opened QueryRoundTrip
  import opened SplittingExact

  /** A pair is inserted behind the last entry whose key is not above its own, and nothing else moves. */
  lemma {:induction false} InsertExactly(m: seq<Param>, p: Param) returns (i: nat)
    requires MultiSorted(m)
    ensures i <= |m| && MultiInsert(m, p) == m[..i] + [p] + m[i..]
    ensures forall j :: 0 <= j < i ==> !Less(p.key, m[j].key)
    ensures forall j :: i <= j < |m| ==> Less(p.key, m[j].key)
    ensures MultiSorted(MultiInsert(m, p))
  {
    if m == [] {
      i := 0;
    } else if Less(p.key, m[0].key) {
      i := 0;
      forall j | 0 <= j < |m| ensures Less(p.key, m[j].key) { AboveAll(m, p.key, j); }
      InsertedSorted(m, p, 0);
    } else {
      var k := InsertExactly(m[1..], p);
      i := k + 1;
      assert m[..i] == [m[0]] + m[1..][..k] && m[i..] == m[1..][k..];
      assert [m[0]] + (m[1..][..k] + [p] + m[1..][k..]) == [m[0]] + m[1..][..k] + [p] + m[1..][k..];
      forall j | i <= j < |m| ensures Less(p.key, m[j].key) { assert m[1..][j - 1] == m[j]; }
      forall j | 0 < j < i ensures !Less(p.key, m[j].key) { assert m[1..][j - 1] == m[j]; }
      InsertedSorted(m, p, i);
    }
  }

  lemma AboveAll(m: seq<Param>, key: string, j: nat)
    requires MultiSorted(m) && m != [] && Less(key, m[0].key) && j < |m|
    ensures Less(key, m[j].key)
  {
    if j > 0 {
      LessTrichotomy(m[0].key, m[j].key);
      if m[0].key != m[j].key { LessTransitive(key, m[0].key, m[j].key); }
    }
  }

  lemma InsertedSorted(m: seq<Param>, p: Param, i: nat)
    requires MultiSorted(m) && i <= |m| && (forall j :: 0 <= j < i ==> !Less(p.key, m[j].key)) && (forall j :: i <= j < |m| ==> Less(p.key, m[j].key))
    ensures MultiSorted(m[..i] + [p] + m[i..])
  {
    var r := m[..i] + [p] + m[i..];
    forall x, y | 0 <= x < y < |r| ensures !Less(r[y].key, r[x].key) {
      if x == i {
        LessTrichotomy(p.key, m[y - 1].key);
      } else if y != i {
        assert r[x] == m[if x < i then x else x - 1] && r[y] == m[if y < i then y else y - 1];
      }
    }
  }

  /** What a pair's text is read as: the first piece between equals signs is the key, the last of the others the value. */
  lemma PairReads(segments: seq<string>, pieces: seq<string>, params: seq<Param>)
    requires Whole(segments, '=') && Strips(segments, pieces)
    ensures AddPair(Joined(segments, '='), params)
         == if pieces == [] then params
            else MultiInsert(params, Entry(Decode(pieces[0], true), if |pieces| == 1 then "" else Decode(pieces[|pieces| - 1], true)))
  {
    hide Split, Whole, Strips, Joined, MultiInsert;
    SplitExactly(segments, '=', pieces);
  }

  /** Each text where it first comes. */
  function Firsts(texts: seq<string>): seq<string> {
    if texts == [] then []
    else
      var before, last := texts[..|texts| - 1], texts[|texts| - 1];
      Firsts(before) + if last in before then [] else [last]
  }

  function AddEach(texts: seq<string>, params: seq<Param>): seq<Param> {
    if texts == [] then params else AddPair(texts[|texts| - 1], AddEach(texts[..|texts| - 1], params))
  }

  lemma {:induction false} AddPairsSnoc(texts: seq<string>, last: string, seen: set<string>, params: seq<Param>)
    ensures AddPairs(texts + [last], seen, params)
         == if last in seen || last in texts then AddPairs(texts, seen, params) else AddPair(last, AddPairs(texts, seen, params))
    decreases |texts|
  {
    hide AddPair;
    if texts == [] {
      assert [last][1..] == [] && [] + [last] == [last];
    } else {
      assert (texts + [last])[0] == texts[0] && (texts + [last])[1..] == texts[1..] + [last];
      assert last in texts <==> last == texts[0] || last in texts[1..];
      if texts[0] in seen {
        AddPairsSnoc(texts[1..], last, seen, params);
      } else {
        AddPairsSnoc(texts[1..], last, seen + {texts[0]}, AddPair(texts[0], params));
      }
    }
  }

  lemma {:induction false} AddPairsFirsts(texts: seq<string>, params: seq<Param>)
    ensures AddPairs(texts, {}, params) == AddEach(Firsts(texts), params)
    decreases |texts|
  {
    hide AddPair;
    if texts != [] {
      var before, last := texts[..|texts| - 1], texts[|texts| - 1];
      assert texts == before + [last];
      AddPairsSnoc(before, last, {}, params);
      AddPairsFirsts(before, params);
      assert (Firsts(before) + [last])[..|Firsts(before)|] == Firsts(before);
      assert Firsts(before) + [] == Firsts(before);
    }
  }

  /** What a query is read as: the pairs between ampersands, stripped, each text once, in order. */
  lemma QueryReadsAs(segments: seq<string>, texts: seq<string>, params: seq<Param>)
    requires Whole(segments, '&') && Strips(segments, texts)
    ensures Parse(Joined(segments, '&'), params) == AddEach(Firsts(texts), params)
  {
    hide Split, Whole, Strips, Joined, AddPairs, AddEach;
    SplitExactly(segments, '&', texts);
    AddPairsFirsts(texts, params);
  }
}
