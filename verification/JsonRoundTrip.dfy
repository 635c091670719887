/**
 Printing and parsing are inverse: parsing the text of a value, anywhere inside a larger text and
 in any layout, builds a value with the same meaning and stops at the end of the text.
 */
module JsonRoundTrip {
  import opened Texts
  import opened SortedMaps
  import opened Escapes
  import opened JsonValues
  import opened JsonGrammar
  import opened JsonScalars

  // ---------------------------------------------------------------- printable documents

  /** A key in the escaped form in which objects store it, whose raw form is no typed literal. */
  ghost predicate GoodKey(key: string) {
    exists raw :: PlainString(raw) && key == Escape(raw)
  }

  ghost predicate Printable(d: Doc)
    decreases d, 1
  {
    match d
    case Atom(s) => GoodScalar(s)
    case List(items) => PrintableItems(items)
    case Table(kind, members) => !kind.Items? && PrintableMembers(members)
  }

  ghost predicate PrintableItems(items: seq<Doc>)
    decreases items, 0
  {
    items == [] || (Printable(items[0]) && PrintableItems(items[1..]))
  }

  ghost predicate PrintableMembers(ms: seq<Entry<Doc>>)
    decreases ms, 0
  {
    ms == [] || (GoodKey(ms[0].key) && Printable(ms[0].val) && PrintableMembers(ms[1..]))
  }

  // ---------------------------------------------------------------- what the parser builds

  /** The kind the parser gives back: the marker is there only in typed output, and never for an empty indented table. */
  function ReadKind(kind: Kind, empty: bool, l: Layout, typed: bool): (r: Kind)
    ensures !r.Items?
  {
    if typed && (kind.Fio? || kind.Flat?) && !(empty && l.Pretty?) then kind else Plain
  }

  function Collect(obj: Json, ms: seq<Entry<Json>>): (r: Json)
    requires obj.Obj? || obj.Ordered?
    ensures r.Obj? || r.Ordered?
    decreases |ms|
  {
    if ms == [] then obj else Collect(SetMember(obj, ms[0].key, ms[0].val), ms[1..])
  }

  function Built(d: Doc, l: Layout, typed: bool): Json
    decreases d, 1
  {
    match d
    case Atom(s) => Leaf(s)
    case List(items) => Arr(BuiltItems(items, l, typed))
    case Table(kind, members) =>
      Collect(New(ReadKind(kind, members == [], l, typed)), BuiltMembers(members, l, typed))
  }

  function BuiltItems(items: seq<Doc>, l: Layout, typed: bool): seq<Json>
    decreases items, 0
  {
    if items == [] then [] else [Built(items[0], l, typed)] + BuiltItems(items[1..], l, typed)
  }

  function BuiltMembers(ms: seq<Entry<Doc>>, l: Layout, typed: bool): seq<Entry<Json>>
    decreases ms, 0
  {
    if ms == [] then [] else [Entry(ms[0].key, Built(ms[0].val, l, typed))] + BuiltMembers(ms[1..], l, typed)
  }

  // ---------------------------------------------------------------- layouts are white space

  ghost predicate Spacing(l: Layout) {
    l.Compact? || AllSpace(l.tab)
  }

  lemma {:induction false} RepeatSpace(tab: string, n: int)
    requires AllSpace(tab)
    ensures AllSpace(Repeat(tab, n))
    decreases n
  {
    if n > 0 { RepeatSpace(tab, n - 1); }
  }

  lemma LayoutSpace(l: Layout, kind: Kind, depth: int)
    requires Spacing(l)
    ensures AllSpace(Open(l, kind, depth)) && AllSpace(Gap(l, kind, depth)) && AllSpace(Close(l, kind, depth))
    ensures Colon(l) == ":" || Colon(l) == " : "
  {
    if l.Pretty? {
      RepeatSpace(l.tab, depth);
    }
  }

  lemma SpaceJoin(a: string, b: string)
    requires AllSpace(a) && AllSpace(b)
    ensures AllSpace(a + b)
  {
  }

  lemma AtSkip(t: string, o: nat, ws: string, rest: string)
    requires At(t, o, ws + rest) && AllSpace(ws) && rest != "" && !IsSpace(rest[0])
    ensures o + |ws| < |t| && SkipSpace(t, o) == o + |ws| && t[o + |ws|] == rest[0]
    ensures At(t, o + |ws|, rest)
  {
    hide *;
    AtConcat(t, o, ws, rest);
    AtChar(t, o + |ws|, rest, 0);
    SkipOver(t, o, ws);
  }

  /** White space before a value changes nothing. */
  lemma NextSkips(t: string, o: nat, b: nat, st: Status)
    requires o <= |t| && b <= |t| && SkipSpace(t, o) == b
    ensures ParseNext(t, o, st) == ParseNext(t, b, st)
  {
    assert SkipSpace(t, b) == b;
  }

  // ---------------------------------------------------------------- first characters

  lemma {:induction false} RenderFirst(d: Doc, l: Layout, depth: int, typed: bool)
    requires Printable(d)
    ensures Render(d, l, depth, typed) != "" && !IsSpace(Render(d, l, depth, typed)[0])
  {
    match d
    case Atom(s) => if s.Int? { NumberInverts(s.n); }
    case List(_) =>
    case Table(_, _) =>
  }

  lemma RenderMembersFirst(ms: seq<Entry<Doc>>, l: Layout, kind: Kind, depth: int, typed: bool)
    requires ms != []
    ensures RenderMembers(ms, l, kind, depth, typed) != "" && RenderMembers(ms, l, kind, depth, typed)[0] == '\"'
  {
  }

  // ---------------------------------------------------------------- one value in its context

  /** What a document's text is followed by, when it stands inside a container or before other text. */
  predicate Follows(after: string) {
    after != "" && (after[0] == ',' || after[0] == ']' || after[0] == '}' || AllSpace(after[..1]))
  }

  lemma FollowsFirst(after: string)
    requires Follows(after)
    ensures after != "" && Terminator(after[0])
  {
    assert after[..1][0] == after[0];
  }

  /** White space, a value's text and a terminator: the parser reads the value and stops at the terminator. */
  lemma {:induction false} ParseFirst(t: string, o: nat, ws: string, d: Doc, l: Layout, depth: int, typed: bool, after: string, st: Status)
    requires Spacing(l) && Printable(d) && AllSpace(ws) && Follows(after)
    requires At(t, o, ws + (Render(d, l, depth, typed) + after))
    ensures var end := o + |ws| + |Render(d, l, depth, typed)|;
            && ParseNext(t, o, st) == Done(Built(d, l, typed), end, st)
            && At(t, end, after)
    decreases d, 2
  {
    hide *;
    var r := Render(d, l, depth, typed);
    FollowsFirst(after);
    AtConcat(t, o, ws, r + after);
    AtConcat(t, o + |ws|, r, after);
    RenderFirst(d, l, depth, typed);
    AtChar(t, o + |ws|, r, 0);
    SkipOver(t, o, ws);
    NextSkips(t, o, o + |ws|, st);
    AtChar(t, o + |ws| + |r|, after, 0);
    ParseDoc(t, o + |ws|, d, l, depth, typed, st);
  }

  /** The main lemma: a document's text, anywhere, parses to what the document denotes. */
  lemma {:induction false} ParseDoc(t: string, o: nat, d: Doc, l: Layout, depth: int, typed: bool, st: Status)
    requires Spacing(l) && Printable(d) && At(t, o, Render(d, l, depth, typed))
    requires d.Atom? && d.s.Int? ==>
      o + |Render(d, l, depth, typed)| < |t| && Terminator(t[o + |Render(d, l, depth, typed)|])
    ensures o <= |t| && ParseNext(t, o, st) == Done(Built(d, l, typed), o + |Render(d, l, depth, typed)|, st)
    decreases d, 1
  {
    hide ParseNext, RenderItems, RenderMembers, RenderScalar, At;
    match d
    case Atom(s) => ParseScalar(t, o, s, st);
    case List(items) => ParseList(t, o, items, l, depth, typed, st);
    case Table(kind, members) => ParseTable(t, o, kind, members, l, depth, typed, st);
  }

  // ---------------------------------------------------------------- arrays

  /** One pass of the array loop. */
  lemma ItemsStep(t: string, o: nat, st: Status, acc: seq<Json>, v: Json, o1: nat, end: nat)
    requires o <= |t| && o1 <= |t| && ParseNext(t, o, st) == Done(v, o1, st) && SkipSpace(t, o1) == end < |t|
    ensures t[end] == ',' ==> o <= end + 1 && ParseItems(t, o, st, acc) == ParseItems(t, end + 1, st, acc + [v])
    ensures t[end] == ']' ==> ParseItems(t, o, st, acc) == Done(Arr(acc + [v]), end + 1, st)
    ensures t[end] != ',' && t[end] != ']' ==> ParseItems(t, o, st, acc) == Done(Arr([]), end, ArrayError)
  {
    hide ParseNext;
  }

  lemma ItemsCons(items: seq<Doc>, l: Layout, depth: int, typed: bool, tail: string)
    requires items != [] && PrintableItems(items)
    ensures Printable(items[0]) && PrintableItems(items[1..])
    ensures BuiltItems(items, l, typed) == [Built(items[0], l, typed)] + BuiltItems(items[1..], l, typed)
    ensures |items| == 1 ==> BuiltItems(items[1..], l, typed) == []
    ensures RenderItems(items, l, depth, typed) + tail == Render(items[0], l, Inner(l, Items, depth), typed)
         + if |items| == 1 then tail else "," + (Gap(l, Items, depth) + (RenderItems(items[1..], l, depth, typed) + tail))
  {
    hide Render, Built, Printable, Gap, Inner;
    var r := Render(items[0], l, Inner(l, Items, depth), typed);
    if |items| > 1 {
      var more := RenderItems(items[1..], l, depth, typed);
      assert r + ("," + Gap(l, Items, depth) + more) + tail == r + ("," + (Gap(l, Items, depth) + (more + tail)));
    } else {
      assert r + "" + tail == r + tail;
    }
  }

  lemma {:induction false} ParseItemsText(t: string, o: nat, ws: string, items: seq<Doc>, l: Layout, depth: int, typed: bool,
                                          close: string, st: Status, acc: seq<Json>)
    requires Spacing(l) && items != [] && PrintableItems(items) && AllSpace(ws) && AllSpace(close)
    requires At(t, o, ws + (RenderItems(items, l, depth, typed) + (close + "]")))
    ensures o <= |t| && ParseItems(t, o, st, acc)
         == Done(Arr(acc + BuiltItems(items, l, typed)), o + |ws + (RenderItems(items, l, depth, typed) + (close + "]"))|, st)
    decreases items, 0
  {
    hide *;
    ItemsCons(items, l, depth, typed, close + "]");
    var r, v := Render(items[0], l, Inner(l, Items, depth), typed), Built(items[0], l, typed);
    var gap, more := Gap(l, Items, depth), RenderItems(items[1..], l, depth, typed) + (close + "]");
    var after := if |items| == 1 then close + "]" else "," + (gap + more);
    LayoutSpace(l, Items, depth);
    ElementFollows(close, ']', gap + more);
    ParseFirst(t, o, ws, items[0], l, Inner(l, Items, depth), typed, after, st);
    var end := o + |ws| + |r|;
    AtBounds(t, o, ws + (RenderItems(items, l, depth, typed) + (close + "]")));
    if |items| == 1 {
      CloseAt(t, end, close, ']');
      ItemsStep(t, o, st, acc, v, end, end + |close|);
      assert [v] + [] == [v];
    } else {
      CommaAt(t, end, gap + more);
      ItemsStep(t, o, st, acc, v, end, end);
      ParseItemsText(t, end + 1, gap, items[1..], l, depth, typed, close, st, acc + [v]);
      assert acc + [v] + BuiltItems(items[1..], l, typed) == acc + ([v] + BuiltItems(items[1..], l, typed));
    }
  }

  /** Inside a container an element is followed by its closing text or by a comma. */
  lemma ElementFollows(close: string, c: char, more: string)
    requires AllSpace(close) && (c == ']' || c == '}')
    ensures Follows(close + [c]) && Follows("," + more) && !IsSpace(c)
  {
  }

  lemma CloseAt(t: string, o: nat, close: string, c: char)
    requires At(t, o, close + [c]) && AllSpace(close) && !IsSpace(c)
    ensures o + |close| < |t| && SkipSpace(t, o) == o + |close| && t[o + |close|] == c
  {
    AtConcat(t, o, close, [c]);
    AtChar(t, o + |close|, [c], 0);
    SkipOver(t, o, close);
  }

  lemma CommaAt(t: string, o: nat, more: string)
    requires At(t, o, "," + more)
    ensures o < |t| && SkipSpace(t, o) == o && t[o] == ',' && At(t, o + 1, more)
  {
    AtConcat(t, o, ",", more);
    AtChar(t, o, ",", 0);
  }

  lemma EmptyItems(l: Layout, depth: int, typed: bool)
    ensures RenderItems([], l, depth, typed) == "" && BuiltItems([], l, typed) == []
  {
  }

  /** `parse_next` at an opening bracket. */
  lemma ArrayStart(t: string, o: nat, st: Status, first: nat)
    requires o < |t| && t[o] == '[' && SkipSpace(t, o + 1) == first < |t|
    ensures o < first && ParseNext(t, o, st) == if t[first] == ']' then Done(Arr([]), first + 1, st) else ParseItems(t, first, st, [])
  {
    hide ParseItems;
  }

  lemma ListText(items: seq<Doc>, l: Layout, depth: int, typed: bool)
    ensures Render(List(items), l, depth, typed)
         == "[" + (Open(l, Items, depth) + (RenderItems(items, l, depth, typed) + (Close(l, Items, depth) + "]")))
  {
    hide Open, Close, RenderItems;
    var open, close, body := Open(l, Items, depth), Close(l, Items, depth), RenderItems(items, l, depth, typed);
    assert "[" + open + body + close + "]" == "[" + (open + (body + (close + "]")));
  }

  lemma EmptyList(t: string, o: nat, open: string, close: string, st: Status)
    requires AllSpace(open) && AllSpace(close) && At(t, o, "[" + (open + (close + "]")))
    ensures o <= |t| && ParseNext(t, o, st) == Done(Arr([]), o + |open| + |close| + 2, st)
  {
    hide *;
    AtHead(t, o, '[', open + (close + "]"));
    assert open + (close + "]") == (open + close) + "]";
    SpaceJoin(open, close);
    EmptySpace();
    ElementFollows("", ']', "");
    AtSkip(t, o + 1, open + close, "]");
    ArrayStart(t, o, st, o + 1 + |open + close|);
  }

  lemma {:induction false} FullList(t: string, o: nat, open: string, items: seq<Doc>, l: Layout, depth: int, typed: bool, close: string, st: Status)
    requires Spacing(l) && items != [] && PrintableItems(items) && AllSpace(open) && AllSpace(close)
    requires At(t, o, "[" + (open + (RenderItems(items, l, depth, typed) + (close + "]"))))
    ensures o <= |t| && ParseNext(t, o, st)
         == Done(Arr(BuiltItems(items, l, typed)), o + 1 + |open| + |RenderItems(items, l, depth, typed) + (close + "]")|, st)
    decreases items, 1
  {
    hide *;
    AtHead(t, o, '[', open + (RenderItems(items, l, depth, typed) + (close + "]")));
    ItemsBegin(t, o + 1, open, items, l, depth, typed, close + "]");
    ArrayStart(t, o, st, o + 1 + |open|);
    EmptySpace();
    ParseItemsText(t, o + 1 + |open|, "", items, l, depth, typed, close, st, []);
    assert [] + BuiltItems(items, l, typed) == BuiltItems(items, l, typed);
  }

  lemma {:induction false} ParseList(t: string, o: nat, items: seq<Doc>, l: Layout, depth: int, typed: bool, st: Status)
    requires Spacing(l) && PrintableItems(items) && At(t, o, Render(List(items), l, depth, typed))
    ensures o <= |t| && ParseNext(t, o, st) == Done(Arr(BuiltItems(items, l, typed)), o + |Render(List(items), l, depth, typed)|, st)
    decreases items, 2
  {
    hide *;
    ListText(items, l, depth, typed);
    var open, close := Open(l, Items, depth), Close(l, Items, depth);
    LayoutSpace(l, Items, depth);
    if items == [] {
      EmptyItems(l, depth, typed);
      assert "" + (close + "]") == close + "]";
      EmptyList(t, o, open, close, st);
    } else {
      FullList(t, o, open, items, l, depth, typed, close, st);
    }
  }

  lemma ItemsBegin(t: string, o: nat, open: string, items: seq<Doc>, l: Layout, depth: int, typed: bool, tail: string)
    requires items != [] && PrintableItems(items) && AllSpace(open)
    requires At(t, o, open + (RenderItems(items, l, depth, typed) + tail))
    ensures o + |open| < |t| && SkipSpace(t, o) == o + |open| && t[o + |open|] != ']'
    ensures At(t, o + |open|, "" + (RenderItems(items, l, depth, typed) + tail))
  {
    hide *;
    var body := RenderItems(items, l, depth, typed) + tail;
    ItemsCons(items, l, depth, typed, tail);
    ItemFirst(items[0], l, Inner(l, Items, depth), typed);
    AtSkip(t, o, open, body);
    assert "" + body == body;
  }

  lemma ItemFirst(d: Doc, l: Layout, depth: int, typed: bool)
    requires Printable(d)
    ensures Render(d, l, depth, typed) != "" && !IsSpace(Render(d, l, depth, typed)[0]) && Render(d, l, depth, typed)[0] != ']'
  {
    RenderFirst(d, l, depth, typed);
    match d
    case Atom(s) => if s.Int? { NumberInverts(s.n); }
    case List(_) =>
    case Table(_, _) =>
  }

  // ---------------------------------------------------------------- objects

  /** A key's text is read back as the key. */
  lemma ParseKey(t: string, o: nat, key: string, st: Status)
    requires GoodKey(key) && At(t, o, Quote(key))
    ensures o < |t| && !IsSpace(t[o])
    ensures var r := ParseNext(t, o, st); r.Done? && r.offset == o + |Quote(key)| && r.status == st && ToString(r.val) == key
  {
    var raw :| PlainString(raw) && key == Escape(raw);
    ParseScalar(t, o, Str(raw), st);
  }

  lemma ColonAt(t: string, o: nat, l: Layout, rest: string)
    requires At(t, o, Colon(l) + rest) && rest != "" && !IsSpace(rest[0])
    ensures var colon := SkipSpace(t, o);
            && colon < |t| && t[colon] == ':'
            && SkipSpace(t, colon + 1) == o + |Colon(l)| < |t|
    ensures At(t, o + |Colon(l)|, rest)
  {
    var ws := if l.Compact? then "" else " ";
    assert Colon(l) + rest == ws + (":" + (ws + rest));
    AtConcat(t, o, ws, ":" + (ws + rest));
    AtConcat(t, o + |ws|, ":", ws + rest);
    AtConcat(t, o + |ws| + 1, ws, rest);
    AtChar(t, o + |ws|, ":", 0);
    AtChar(t, o + |ws| + 1 + |ws|, rest, 0);
    SkipOver(t, o, ws);
    SkipOver(t, o + |ws| + 1, ws);
  }

  /** One pass of the object loop up to the value. */
  lemma MemberStep(t: string, o: nat, st: Status, obj: Json, key: Json, o1: nat, colon: nat, begin: nat, v: Json, o2: nat)
    requires o <= |t| && o1 <= |t| && (obj.Obj? || obj.Ordered?)
    requires ParseNext(t, o, st) == Done(key, o1, st)
    requires SkipSpace(t, o1) == colon < |t| && t[colon] == ':' && SkipSpace(t, colon + 1) == begin < |t|
    requires ParseNext(t, begin, st) == Done(v, o2, st)
    ensures o2 <= |t| && ParseMember(t, o, st, obj) == AfterMember(t, o2, st, SetMember(obj, ToString(key), v))
  {
    hide ParseNext, AfterMember, SetMember, ToString, SkipSpace;
  }

  lemma MemberText(m: Entry<Doc>, l: Layout, kind: Kind, depth: int, typed: bool, after: string)
    ensures RenderMember(m, l, kind, depth, typed) + after
         == Quote(m.key) + (Colon(l) + (Render(m.val, l, Inner(l, kind, depth), typed) + after))
    ensures |RenderMember(m, l, kind, depth, typed)| == |Quote(m.key)| + |Colon(l)| + |Render(m.val, l, Inner(l, kind, depth), typed)|
  {
    hide Quote, Colon, Render, Inner;
    var q, c, r := Quote(m.key), Colon(l), Render(m.val, l, Inner(l, kind, depth), typed);
    assert q + c + r + after == q + (c + (r + after));
  }

  /** From the start of a member's text to its value. */
  lemma MemberStart(t: string, o: nat, ws: string, key: string, l: Layout, rest: string, st: Status)
    requires GoodKey(key) && AllSpace(ws) && rest != "" && !IsSpace(rest[0])
    requires At(t, o, ws + (Quote(key) + (Colon(l) + rest)))
    ensures var o1 := o + |ws| + |Quote(key)|;
            var r := ParseNext(t, o, st);
            && o <= |t| && r.Done? && r.offset == o1 && r.status == st && ToString(r.val) == key
            && o1 <= |t| && SkipSpace(t, o1) < |t| && t[SkipSpace(t, o1)] == ':'
            && SkipSpace(t, SkipSpace(t, o1) + 1) == o1 + |Colon(l)| < |t|
            && At(t, o1 + |Colon(l)|, rest)
  {
    hide *;
    AtConcat(t, o, ws, Quote(key) + (Colon(l) + rest));
    var b := o + |ws|;
    AtConcat(t, b, Quote(key), Colon(l) + rest);
    ParseKey(t, b, key, st);
    SkipOver(t, o, ws);
    NextSkips(t, o, b, st);
    ColonAt(t, b + |Quote(key)|, l, rest);
  }

  lemma {:induction false} ParseMemberText(t: string, o: nat, ws: string, m: Entry<Doc>, l: Layout, kind: Kind, depth: int, typed: bool,
                                           after: string, st: Status, obj: Json)
    requires Spacing(l) && GoodKey(m.key) && Printable(m.val) && AllSpace(ws) && Follows(after)
    requires obj.Obj? || obj.Ordered?
    requires At(t, o, ws + (RenderMember(m, l, kind, depth, typed) + after))
    ensures var end := o + |ws| + |RenderMember(m, l, kind, depth, typed)|;
            && At(t, end, after) && end <= |t|
            && ParseMember(t, o, st, obj) == AfterMember(t, end, st, SetMember(obj, m.key, Built(m.val, l, typed)))
    decreases m, 3
  {
    hide *;
    var r := Render(m.val, l, Inner(l, kind, depth), typed);
    MemberText(m, l, kind, depth, typed, after);
    RenderFirst(m.val, l, Inner(l, kind, depth), typed);
    MemberStart(t, o, ws, m.key, l, r + after, st);
    var o1 := o + |ws| + |Quote(m.key)|;
    var begin := o1 + |Colon(l)|;
    assert "" + (r + after) == r + after;
    EmptySpace();
    ParseFirst(t, begin, "", m.val, l, Inner(l, kind, depth), typed, after, st);
    MemberStep(t, o, st, obj, ParseNext(t, o, st).val, o1, SkipSpace(t, o1), begin, Built(m.val, l, typed), begin + |r|);
  }

  lemma EmptySpace()
    ensures AllSpace("")
  {
  }

  lemma MembersCons(ms: seq<Entry<Doc>>, l: Layout, kind: Kind, depth: int, typed: bool, tail: string)
    requires ms != [] && PrintableMembers(ms)
    ensures GoodKey(ms[0].key) && Printable(ms[0].val) && PrintableMembers(ms[1..])
    ensures RenderMembers(ms, l, kind, depth, typed) + tail == RenderMember(ms[0], l, kind, depth, typed)
         + if |ms| == 1 then tail else "," + (Gap(l, kind, depth) + (RenderMembers(ms[1..], l, kind, depth, typed) + tail))
  {
    hide RenderMember, Printable, Gap, GoodKey;
    var r := RenderMember(ms[0], l, kind, depth, typed);
    if |ms| > 1 {
      var more := RenderMembers(ms[1..], l, kind, depth, typed);
      assert r + ("," + Gap(l, kind, depth) + more) + tail == r + ("," + (Gap(l, kind, depth) + (more + tail)));
    } else {
      assert r + "" + tail == r + tail;
    }
  }

  lemma CollectCons(ms: seq<Entry<Doc>>, l: Layout, typed: bool, obj: Json)
    requires ms != [] && (obj.Obj? || obj.Ordered?)
    ensures var obj' := SetMember(obj, ms[0].key, Built(ms[0].val, l, typed));
            && (obj'.Obj? || obj'.Ordered?)
            && Collect(obj, BuiltMembers(ms, l, typed)) == (if |ms| == 1 then obj' else Collect(obj', BuiltMembers(ms[1..], l, typed)))
  {
    hide Built, SetMember;
    assert BuiltMembers(ms, l, typed)[1..] == BuiltMembers(ms[1..], l, typed);
  }

  lemma MembersStep(t: string, o: nat, st: Status, obj: Json, obj': Json, o1: nat, end: nat)
    requires o <= |t| && o1 <= |t| && (obj.Obj? || obj.Ordered?) && (obj'.Obj? || obj'.Ordered?)
    requires ParseMember(t, o, st, obj) == AfterMember(t, o1, st, obj') && SkipSpace(t, o1) == end < |t|
    ensures t[end] == ',' ==> ParseMembers(t, o, st, obj) == ParseMembers(t, end + 1, st, obj')
    ensures t[end] == '}' ==> ParseMembers(t, o, st, obj) == Done(obj', end + 1, st)
    ensures t[end] != ',' && t[end] != '}' ==> ParseMembers(t, o, st, obj) == Done(obj', end, ObjectError)
  {
    hide ParseMember, SkipSpace;
  }

  lemma {:induction false} LastMember(t: string, o: nat, ws: string, m: Entry<Doc>, l: Layout, kind: Kind, depth: int, typed: bool,
                                      close: string, st: Status, obj: Json)
    requires Spacing(l) && GoodKey(m.key) && Printable(m.val) && AllSpace(ws) && AllSpace(close)
    requires obj.Obj? || obj.Ordered?
    requires At(t, o, ws + (RenderMember(m, l, kind, depth, typed) + (close + "}")))
    ensures o <= |t| && ParseMembers(t, o, st, obj)
         == Done(SetMember(obj, m.key, Built(m.val, l, typed)), o + |ws| + |RenderMember(m, l, kind, depth, typed)| + |close| + 1, st)
    decreases m, 4
  {
    hide *;
    AtBounds(t, o, ws + (RenderMember(m, l, kind, depth, typed) + (close + "}")));
    ElementFollows(close, '}', "");
    ParseMemberText(t, o, ws, m, l, kind, depth, typed, close + "}", st, obj);
    var end := o + |ws| + |RenderMember(m, l, kind, depth, typed)|;
    CloseAt(t, end, close, '}');
    MembersStep(t, o, st, obj, SetMember(obj, m.key, Built(m.val, l, typed)), end, end + |close|);
  }

  lemma {:induction false} NextMember(t: string, o: nat, ws: string, m: Entry<Doc>, l: Layout, kind: Kind, depth: int, typed: bool,
                                      more: string, st: Status, obj: Json)
    requires Spacing(l) && GoodKey(m.key) && Printable(m.val) && AllSpace(ws)
    requires obj.Obj? || obj.Ordered?
    requires At(t, o, ws + (RenderMember(m, l, kind, depth, typed) + ("," + more)))
    ensures var end := o + |ws| + |RenderMember(m, l, kind, depth, typed)|;
            && o <= end + 1 <= |t| && At(t, end + 1, more)
            && ParseMembers(t, o, st, obj) == ParseMembers(t, end + 1, st, SetMember(obj, m.key, Built(m.val, l, typed)))
    decreases m, 4
  {
    hide *;
    AtBounds(t, o, ws + (RenderMember(m, l, kind, depth, typed) + ("," + more)));
    EmptySpace();
    ElementFollows("", '}', more);
    ParseMemberText(t, o, ws, m, l, kind, depth, typed, "," + more, st, obj);
    var end := o + |ws| + |RenderMember(m, l, kind, depth, typed)|;
    CommaAt(t, end, more);
    MembersStep(t, o, st, obj, SetMember(obj, m.key, Built(m.val, l, typed)), end, end);
  }

  lemma {:induction false} ParseMembersText(t: string, o: nat, ws: string, ms: seq<Entry<Doc>>, l: Layout, kind: Kind, depth: int, typed: bool,
                                            close: string, st: Status, obj: Json)
    requires Spacing(l) && ms != [] && PrintableMembers(ms) && AllSpace(ws) && AllSpace(close)
    requires obj.Obj? || obj.Ordered?
    requires At(t, o, ws + (RenderMembers(ms, l, kind, depth, typed) + (close + "}")))
    ensures o <= |t| && ParseMembers(t, o, st, obj)
         == Done(Collect(obj, BuiltMembers(ms, l, typed)), o + |ws + (RenderMembers(ms, l, kind, depth, typed) + (close + "}"))|, st)
    decreases ms, 0
  {
    hide *;
    MembersCons(ms, l, kind, depth, typed, close + "}");
    CollectCons(ms, l, typed, obj);
    if |ms| == 1 {
      LastMember(t, o, ws, ms[0], l, kind, depth, typed, close, st, obj);
    } else {
      var gap, more := Gap(l, kind, depth), RenderMembers(ms[1..], l, kind, depth, typed) + (close + "}");
      LayoutSpace(l, kind, depth);
      NextMember(t, o, ws, ms[0], l, kind, depth, typed, gap + more, st, obj);
      var end := o + |ws| + |RenderMember(ms[0], l, kind, depth, typed)|;
      ParseMembersText(t, end + 1, gap, ms[1..], l, kind, depth, typed, close, st, SetMember(obj, ms[0].key, Built(ms[0].val, l, typed)));
    }
  }

  /** The marker after the brace decides the kind that is read. */
  lemma KindAt(t: string, o: nat, kind: Kind, typed: bool, rest: string)
    requires !kind.Items? && rest != "" && rest[0] != 'f'
    requires At(t, o, Marker(kind, typed) + rest)
    ensures var k := if typed then kind else Plain;
            && ObjectKind(t, o) == k && MarkerLength(k) == |Marker(kind, typed)|
            && At(t, o + MarkerLength(k), rest)
  {
    AtConcat(t, o, Marker(kind, typed), rest);
    if typed && kind.Flat? {
      if At(t, o, "fio") {
        AtChar(t, o, "fio", 1);
        AtChar(t, o, "flat", 1);
      }
    } else if !typed || kind.Plain? {
      AtChar(t, o, rest, 0);
      if At(t, o, "fio") { AtChar(t, o, "fio", 0); }
      if At(t, o, "flat") { AtChar(t, o, "flat", 0); }
    }
  }

  lemma {:induction false} ParseTable(t: string, o: nat, kind: Kind, ms: seq<Entry<Doc>>, l: Layout, depth: int, typed: bool, st: Status)
    requires Spacing(l) && !kind.Items? && PrintableMembers(ms) && At(t, o, Render(Table(kind, ms), l, depth, typed))
    ensures o <= |t| && ParseNext(t, o, st) == Done(Built(Table(kind, ms), l, typed), o + |Render(Table(kind, ms), l, depth, typed)|, st)
    decreases ms, 2
  {
    hide *;
    if ms == [] {
      EmptyTable(t, o, kind, l, depth, typed, st);
    } else {
      FullTable(t, o, kind, ms, l, depth, typed, st);
    }
  }

  /** `parse_next` at an opening brace. */
  lemma ObjectStart(t: string, o: nat, st: Status, kind: Kind, first: nat)
    requires o < |t| && t[o] == '{' && ObjectKind(t, o + 1) == kind && !kind.Items?
    requires o + 1 + MarkerLength(kind) <= |t| && SkipSpace(t, o + 1 + MarkerLength(kind)) == first < |t|
    ensures ParseNext(t, o, st) == if t[first] == '}' then Done(New(kind), first + 1, st) else ParseMembers(t, first, st, New(kind))
  {
    hide ParseMembers, ObjectKind, MarkerLength;
  }

  lemma EmptyTable(t: string, o: nat, kind: Kind, l: Layout, depth: int, typed: bool, st: Status)
    requires !kind.Items? && At(t, o, Render(Table(kind, []), l, depth, typed))
    ensures o <= |t| && ParseNext(t, o, st) == Done(Built(Table(kind, []), l, typed), o + |Render(Table(kind, []), l, depth, typed)|, st)
  {
    hide *;
    var typed' := typed && l.Compact?;
    var m := Marker(kind, typed');
    EmptyTableText(kind, l, depth, typed);
    AtConcat(t, o, "{", m + "}");
    AtChar(t, o, "{", 0);
    KindAt(t, o + 1, kind, typed', "}");
    EmptySpace();
    ElementFollows("", '}', "");
    assert "" + "}" == "}";
    CloseAt(t, o + 1 + |m|, "", '}');
    ObjectStart(t, o, st, if typed' then kind else Plain, o + 1 + |m|);
  }

  lemma EmptyTableText(kind: Kind, l: Layout, depth: int, typed: bool)
    requires !kind.Items?
    ensures Render(Table(kind, []), l, depth, typed) == "{" + (Marker(kind, typed && l.Compact?) + "}")
    ensures Built(Table(kind, []), l, typed) == New(if typed && l.Compact? then kind else Plain)
  {
    assert BuiltMembers([], l, typed) == [];
  }

  lemma TableText(kind: Kind, ms: seq<Entry<Doc>>, l: Layout, depth: int, typed: bool)
    requires ms != [] && !kind.Items?
    ensures Render(Table(kind, ms), l, depth, typed)
         == "{" + (Marker(kind, typed) + (Open(l, kind, depth) + (RenderMembers(ms, l, kind, depth, typed) + (Close(l, kind, depth) + "}"))))
    ensures var k := if typed then kind else Plain;
            && (New(k).Obj? || New(k).Ordered?)
            && Built(Table(kind, ms), l, typed) == Collect(New(k), BuiltMembers(ms, l, typed))
  {
    hide Open, Close, RenderMembers, Marker, BuiltMembers, Collect;
    var m, open, close, body := Marker(kind, typed), Open(l, kind, depth), Close(l, kind, depth), RenderMembers(ms, l, kind, depth, typed);
    assert "{" + m + open + body + close + "}" == "{" + (m + (open + (body + (close + "}"))));
  }

  lemma FirstOfTable(open: string, rest: string)
    requires AllSpace(open) && rest != "" && rest[0] == '\"'
    ensures open + rest != "" && (open + rest)[0] != 'f' && !IsSpace('\"')
  {
    assert open == "" ==> open + rest == rest;
  }

  lemma TableStart(t: string, o: nat, kind: Kind, typed: bool, open: string, inner: string, st: Status)
    requires !kind.Items? && AllSpace(open) && inner != "" && inner[0] == '\"'
    requires At(t, o, "{" + (Marker(kind, typed) + (open + inner)))
    ensures var k := if typed then kind else Plain;
            var first := o + 1 + |Marker(kind, typed)| + |open|;
            && o <= first <= |t| && (New(k).Obj? || New(k).Ordered?)
            && ParseNext(t, o, st) == ParseMembers(t, first, st, New(k))
            && At(t, first, "" + inner)
  {
    hide *;
    FirstOfTable(open, inner);
    NewKind(if typed then kind else Plain);
    AtHead(t, o, '{', Marker(kind, typed) + (open + inner));
    KindAt(t, o + 1, kind, typed, open + inner);
    var o1 := o + 1 + |Marker(kind, typed)|;
    AtSkip(t, o1, open, inner);
    ObjectStart(t, o, st, if typed then kind else Plain, o1 + |open|);
    assert "" + inner == inner;
  }

  lemma NewKind(kind: Kind)
    requires !kind.Items?
    ensures New(kind).Obj? || New(kind).Ordered?
  {
  }

  lemma {:induction false} FullTable(t: string, o: nat, kind: Kind, ms: seq<Entry<Doc>>, l: Layout, depth: int, typed: bool, st: Status)
    requires Spacing(l) && !kind.Items? && ms != [] && PrintableMembers(ms) && At(t, o, Render(Table(kind, ms), l, depth, typed))
    ensures o <= |t| && ParseNext(t, o, st) == Done(Built(Table(kind, ms), l, typed), o + |Render(Table(kind, ms), l, depth, typed)|, st)
    decreases ms, 1
  {
    hide *;
    var m, open, close, body := Marker(kind, typed), Open(l, kind, depth), Close(l, kind, depth), RenderMembers(ms, l, kind, depth, typed);
    var k := if typed then kind else Plain;
    TableText(kind, ms, l, depth, typed);
    LayoutSpace(l, kind, depth);
    RenderMembersFirst(ms, l, kind, depth, typed);
    TableStart(t, o, kind, typed, open, body + (close + "}"), st);
    EmptySpace();
    ParseMembersText(t, o + 1 + |m| + |open|, "", ms, l, kind, depth, typed, close, st, New(k));
  }
}
