/** What a reader gets from printing a well-formed value and parsing the text again. */
module JsonTheorems {
  import opened SortedMaps
  import opened OrderedObjects
  import opened JsonValues
  import opened JsonGrammar
  import opened JsonScalars
  import opened JsonRoundTrip
  import opened Texts
  import JsonParser
  import JsonPrinters

  // ---------------------------------------------------------------- well-formed documents

  ghost predicate NamedOnce<V>(ms: seq<Entry<V>>) {
    && (forall i :: 0 <= i < |ms| ==> ms[i].key != "")
    && (forall i, j :: 0 <= i < j < |ms| ==> ms[i].key != ms[j].key)
  }

  /** Printable, with the keys of a plain object in map order and those of an ordered one distinct and non-empty. */
  ghost predicate WellFormed(d: Doc)
    decreases d, 1
  {
    match d
    case Atom(s) => GoodScalar(s)
    case List(items) => WellFormedItems(items)
    case Table(kind, ms) =>
      && !kind.Items?
      && (if kind.Plain? then Sorted(ms) else NamedOnce(ms))
      && WellFormedMembers(ms)
  }

  ghost predicate WellFormedItems(items: seq<Doc>)
    decreases items, 0
  {
    items == [] || (WellFormed(items[0]) && WellFormedItems(items[1..]))
  }

  ghost predicate WellFormedMembers(ms: seq<Entry<Doc>>)
    decreases ms, 0
  {
    ms == [] || (GoodKey(ms[0].key) && WellFormed(ms[0].val) && WellFormedMembers(ms[1..]))
  }

  lemma {:induction false} WellFormedPrintable(d: Doc)
    requires WellFormed(d)
    ensures Printable(d)
    decreases d, 1
  {
    match d
    case Atom(_) =>
    case List(items) => WellFormedPrintableItems(items);
    case Table(_, ms) => WellFormedPrintableMembers(ms);
  }

  lemma {:induction false} WellFormedPrintableItems(items: seq<Doc>)
    requires WellFormedItems(items)
    ensures PrintableItems(items)
    decreases items, 0
  {
    if items != [] {
      WellFormedPrintable(items[0]);
      WellFormedPrintableItems(items[1..]);
    }
  }

  lemma {:induction false} WellFormedPrintableMembers(ms: seq<Entry<Doc>>)
    requires WellFormedMembers(ms)
    ensures PrintableMembers(ms)
    decreases ms, 0
  {
    if ms != [] {
      WellFormedPrintable(ms[0].val);
      WellFormedPrintableMembers(ms[1..]);
    }
  }

  // ---------------------------------------------------------------- the document that is read back

  function PutAll(m: seq<Entry<Doc>>, ms: seq<Entry<Doc>>): seq<Entry<Doc>>
    decreases |ms|
  {
    if ms == [] then m else PutAll(Put(m, ms[0].key, ms[0].val), ms[1..])
  }

  /** Ordered tables stay ordered in typed text and become key-sorted plain tables otherwise. */
  function ReadBack(d: Doc, l: Layout, typed: bool): Doc
    decreases d, 1
  {
    match d
    case Atom(_) => d
    case List(items) => List(ReadItems(items, l, typed))
    case Table(kind, ms) =>
      var k := ReadKind(kind, ms == [], l, typed);
      Table(k, if k.Plain? then PutAll([], ReadMembers(ms, l, typed)) else ReadMembers(ms, l, typed))
  }

  function ReadItems(items: seq<Doc>, l: Layout, typed: bool): seq<Doc>
    decreases items, 0
  {
    if items == [] then [] else [ReadBack(items[0], l, typed)] + ReadItems(items[1..], l, typed)
  }

  function ReadMembers(ms: seq<Entry<Doc>>, l: Layout, typed: bool): (r: seq<Entry<Doc>>)
    ensures |r| == |ms| && forall i :: 0 <= i < |ms| ==> r[i].key == ms[i].key
    decreases ms, 0
  {
    if ms == [] then [] else [Entry(ms[0].key, ReadBack(ms[0].val, l, typed))] + ReadMembers(ms[1..], l, typed)
  }

  // ---------------------------------------------------------------- plain objects

  lemma {:induction false} ViewPut(m: seq<Entry<Json>>, k: string, v: Json)
    ensures ViewMembers(Put(m, k, v)) == Put(ViewMembers(m), k, View(v))
  {
    hide View, Less;
    if m == [] {
      assert ViewMembers([Entry(k, v)]) == [Entry(k, View(v))] + ViewMembers([]);
    } else if m[0].key == k {
      assert ([Entry(k, v)] + m[1..])[1..] == m[1..];
    } else if Less(k, m[0].key) {
      assert ([Entry(k, v)] + m)[1..] == m;
    } else {
      ViewPut(m[1..], k, v);
      assert ([m[0]] + Put(m[1..], k, v))[1..] == Put(m[1..], k, v);
    }
  }

  lemma {:induction false} ViewCollectPlain(m: seq<Entry<Json>>, es: seq<Entry<Json>>)
    ensures View(Collect(Obj(m), es)) == Table(Plain, PutAll(ViewMembers(m), ViewMembers(es)))
    decreases |es|
  {
    if es != [] {
      ViewCollectPlain(Put(m, es[0].key, es[0].val), es[1..]);
      ViewPut(m, es[0].key, es[0].val);
      assert ViewMembers(es)[1..] == ViewMembers(es[1..]);
    }
  }

  // ---------------------------------------------------------------- ordered objects

  /** Non-empty keys are all visible: the printers show an ordered object's entries in slot order. */
  lemma {:induction false} OrderedView(slots: seq<Slot<Json>>)
    requires forall i :: 0 <= i < |slots| ==> slots[i].key != ""
    ensures ViewShown(StoredAll(slots)) == ViewMembers(Entries(slots))
  {
    if slots != [] {
      var s := slots[0];
      OrderedView(slots[1..]);
      RKeyParts(s.n, s.key);
      hide View, Strip, RKey;
      assert StoredAll(slots)[1..] == StoredAll(slots[1..]);
      assert Entries(slots)[1..] == Entries(slots[1..]);
      assert Shown(StoredAll(slots)[0].key);
    }
  }

  /** The slots with a key. */
  function Named(slots: seq<Slot<Json>>): seq<Slot<Json>> {
    if slots == [] then [] else (if slots[0].key == "" then [] else [slots[0]]) + Named(slots[1..])
  }

  lemma NamedCons(slots: seq<Slot<Json>>)
    requires slots != []
    ensures StoredAll(slots)[1..] == StoredAll(slots[1..]) && StoredAll(slots)[0] == Entry(RKey(slots[0].n, slots[0].key), slots[0].val)
    ensures Entries(Named(slots))
         == (if slots[0].key == "" then [] else [Entry(slots[0].key, slots[0].val)]) + Entries(Named(slots[1..]))
  {
    hide RKey;
  }

  lemma ShownSlot(n: nat, key: string)
    ensures Shown(RKey(n, key)) <==> key != ""
    ensures Strip(RKey(n, key)) == key
  {
    RKeyParts(n, key);
  }

  lemma ViewMembersCons(some: seq<Entry<Json>>, rest: seq<Entry<Json>>)
    requires |some| <= 1
    ensures ViewMembers(some + rest) == (if some == [] then [] else [Entry(some[0].key, View(some[0].val))]) + ViewMembers(rest)
  {
    hide View;
    if some == [] { assert some + rest == rest; } else { assert (some + rest)[1..] == rest; }
  }

  /** Whatever the keys, the printers show the entries in slot order, except one under the empty key. */
  lemma {:induction false} ShownExactly(slots: seq<Slot<Json>>)
    ensures ViewShown(StoredAll(slots)) == ViewMembers(Entries(Named(slots)))
  {
    if slots != [] {
      hide *;
      var s := slots[0];
      ShownExactly(slots[1..]);
      NamedCons(slots);
      ShownSlot(s.n, s.key);
      ViewShownCons(StoredAll(slots));
      ViewMembersCons(if s.key == "" then [] else [Entry(s.key, s.val)], Entries(Named(slots[1..])));
    }
  }

  /** Collecting members with new distinct keys appends them to the ordered object. */
  lemma {:induction false} CollectOrdered(flat: bool, maps: Maps<Json>, slots: seq<Slot<Json>>, es: seq<Entry<Json>>) returns (slots': seq<Slot<Json>>)
    requires Rep(maps, slots) && NamedOnce(es)
    requires forall i :: 0 <= i < |es| ==> es[i].key !in maps.keys
    requires forall i :: 0 <= i < |slots| ==> slots[i].key != ""
    ensures var r := Collect(Ordered(flat, maps), es); r.Ordered? && r.flat == flat && Rep(r.maps, slots')
    ensures Entries(slots') == Entries(slots) + es
    ensures forall i :: 0 <= i < |slots'| ==> slots'[i].key != ""
    decreases |es|
  {
    hide Rep, AssignMaps;
    if es == [] {
      slots' := slots;
      assert Entries(slots) + [] == Entries(slots);
    } else {
      var e := es[0];
      var next := slots + [Slot(NextNumber(slots), e.key, e.val)];
      var maps' := AssignMaps(maps, e.key, e.val, Leaf(Null));
      AssignNew(maps, slots, e.key, e.val, Leaf(Null));
      AssignKeys(maps, e.key, e.val);
      slots' := CollectOrdered(flat, maps', next, es[1..]);
      assert Entries(next) == Entries(slots) + [e];
      assert Entries(slots) + [e] + es[1..] == Entries(slots) + es;
    }
  }

  lemma AssignKeys(maps: Maps<Json>, key: string, v: Json)
    ensures AssignMaps(maps, key, v, Leaf(Null)).keys.Keys == maps.keys.Keys + {key}
  {
  }

  lemma EmptyRep()
    ensures Rep(Empty<Json>(), [])
  {
  }

  lemma ViewCollectOrdered(flat: bool, es: seq<Entry<Json>>)
    requires NamedOnce(es)
    ensures View(Collect(Ordered(flat, Empty()), es)) == Table(if flat then Flat else Fio, ViewMembers(es))
  {
    hide Rep, Collect, ViewShown, ViewMembers;
    EmptyRep();
    var slots := CollectOrdered(flat, Empty(), [], es);
    assert Entries<Json>([]) + es == es;
    RepShown(Collect(Ordered(flat, Empty()), es).maps, slots);
  }

  lemma RepShown(maps: Maps<Json>, slots: seq<Slot<Json>>)
    requires Rep(maps, slots) && forall i :: 0 <= i < |slots| ==> slots[i].key != ""
    ensures ViewShown(maps.vals) == ViewMembers(Entries(slots))
  {
    hide ViewShown, ViewMembers;
    OrderedView(slots);
  }

  lemma {:induction false} ViewKeys(ms: seq<Entry<Json>>)
    ensures |ViewMembers(ms)| == |ms| && forall i :: 0 <= i < |ms| ==> ViewMembers(ms)[i].key == ms[i].key
  {
    hide View;
    if ms != [] { ViewKeys(ms[1..]); }
  }

  /** An ordered object kept by the library's operations, with well-formed members under non-empty keys, is well formed. */
  lemma OrderedWellFormed(flat: bool, maps: Maps<Json>, slots: seq<Slot<Json>>)
    requires Rep(maps, slots) && (forall i :: 0 <= i < |slots| ==> slots[i].key != "")
    requires WellFormedMembers(ViewMembers(Entries(slots)))
    ensures WellFormed(View(Ordered(flat, maps)))
    ensures View(Ordered(flat, maps)) == Table(if flat then Flat else Fio, ViewMembers(Entries(slots)))
  {
    hide ViewMembers, ViewShown, WellFormedMembers, Rep;
    RepShown(maps, slots);
    assert View(Ordered(flat, maps)) == Table(if flat then Flat else Fio, ViewMembers(Entries(slots)));
    RepNamedOnce(maps, slots);
  }

  lemma RepNamedOnce(maps: Maps<Json>, slots: seq<Slot<Json>>)
    requires Rep(maps, slots) && (forall i :: 0 <= i < |slots| ==> slots[i].key != "")
    ensures NamedOnce(ViewMembers(Entries(slots)))
  {
    hide ViewMembers, RKey;
    ViewKeys(Entries(slots));
  }

  // ---------------------------------------------------------------- the parsed value means the document read back

  lemma {:induction false} BuiltKeys(ms: seq<Entry<Doc>>, l: Layout, typed: bool)
    ensures |BuiltMembers(ms, l, typed)| == |ms|
    ensures forall i :: 0 <= i < |ms| ==> BuiltMembers(ms, l, typed)[i].key == ms[i].key
  {
    hide Built;
    if ms != [] { BuiltKeys(ms[1..], l, typed); }
  }

  lemma {:induction false} BuiltMeans(d: Doc, l: Layout, typed: bool)
    requires WellFormed(d)
    ensures View(Built(d, l, typed)) == ReadBack(d, l, typed)
    decreases d, 1
  {
    match d
    case Atom(_) =>
    case List(items) => BuiltItemsMean(items, l, typed);
    case Table(kind, ms) =>
      BuiltMembersMean(ms, l, typed);
      BuiltKeys(ms, l, typed);
      TableMeans(ReadKind(kind, ms == [], l, typed), BuiltMembers(ms, l, typed));
  }

  lemma TableMeans(k: Kind, es: seq<Entry<Json>>)
    requires !k.Items? && (!k.Plain? ==> NamedOnce(es))
    ensures View(Collect(New(k), es)) == Table(k, if k.Plain? then PutAll([], ViewMembers(es)) else ViewMembers(es))
  {
    match k
    case Plain => ViewCollectPlain([], es);
    case Fio => ViewCollectOrdered(false, es);
    case Flat => ViewCollectOrdered(true, es);
  }

  lemma {:induction false} BuiltItemsMean(items: seq<Doc>, l: Layout, typed: bool)
    requires WellFormedItems(items)
    ensures ViewItems(BuiltItems(items, l, typed)) == ReadItems(items, l, typed)
    decreases items, 0
  {
    hide View, Built, ReadBack, WellFormed;
    if items != [] {
      BuiltMeans(items[0], l, typed);
      BuiltItemsMean(items[1..], l, typed);
      assert BuiltItems(items, l, typed)[1..] == BuiltItems(items[1..], l, typed);
    }
  }

  lemma {:induction false} BuiltMembersMean(ms: seq<Entry<Doc>>, l: Layout, typed: bool)
    requires WellFormedMembers(ms)
    ensures ViewMembers(BuiltMembers(ms, l, typed)) == ReadMembers(ms, l, typed)
    decreases ms, 0
  {
    hide View, Built, ReadBack, WellFormed;
    if ms != [] {
      BuiltMeans(ms[0].val, l, typed);
      BuiltMembersMean(ms[1..], l, typed);
      assert BuiltMembers(ms, l, typed)[1..] == BuiltMembers(ms[1..], l, typed);
    }
  }

  // ---------------------------------------------------------------- when reading back gives the same document

  lemma {:induction false} PutAllSorted(m: seq<Entry<Doc>>, ms: seq<Entry<Doc>>)
    requires Sorted(m + ms)
    ensures PutAll(m, ms) == m + ms
    decreases |ms|
  {
    if ms == [] {
      assert m + ms == m;
    } else {
      assert forall i :: 0 <= i < |m| ==> (m + ms)[i] == m[i] && Less((m + ms)[i].key, (m + ms)[|m|].key);
      PutLast(m, ms[0].key, ms[0].val);
      assert m + [ms[0]] + ms[1..] == m + ms;
      PutAllSorted(m + [Entry(ms[0].key, ms[0].val)], ms[1..]);
    }
  }

  /** Somewhere in the document there is an ordered table without entries. */
  predicate HasEmptyOrdered(d: Doc)
    decreases d, 1
  {
    match d
    case Atom(_) => false
    case List(items) => HasEmptyOrderedItems(items)
    case Table(kind, ms) => ((kind.Fio? || kind.Flat?) && ms == []) || HasEmptyOrderedMembers(ms)
  }

  predicate HasEmptyOrderedItems(items: seq<Doc>)
    decreases items, 0
  {
    items != [] && (HasEmptyOrdered(items[0]) || HasEmptyOrderedItems(items[1..]))
  }

  predicate HasEmptyOrderedMembers(ms: seq<Entry<Doc>>)
    decreases ms, 0
  {
    ms != [] && (HasEmptyOrdered(ms[0].val) || HasEmptyOrderedMembers(ms[1..]))
  }

  /** Typed text loses nothing, except that indented text loses the kind of an empty ordered table. */
  lemma {:induction false} TypedReadBack(d: Doc, l: Layout)
    requires WellFormed(d)
    ensures ReadBack(d, l, true) == d <==> l.Compact? || !HasEmptyOrdered(d)
    decreases d, 1
  {
    hide PutAll, Sorted, GoodScalar;
    match d
    case Atom(_) =>
    case List(items) => TypedReadItems(items, l);
    case Table(kind, ms) =>
      TypedReadMembers(ms, l);
      if kind.Plain? { ReadSorted(ms, l); }
      TableReadBack(kind, ms, l);
  }

  /** Sorted members stay as they are when put one by one. */
  lemma ReadSorted(ms: seq<Entry<Doc>>, l: Layout)
    requires Sorted(ms)
    ensures PutAll([], ReadMembers(ms, l, true)) == ReadMembers(ms, l, true)
  {
    hide PutAll, Less;
    var r := ReadMembers(ms, l, true);
    assert [] + r == r;
    PutAllSorted([], r);
  }

  lemma TableReadBack(kind: Kind, ms: seq<Entry<Doc>>, l: Layout)
    requires !kind.Items?
    requires kind.Plain? ==> PutAll([], ReadMembers(ms, l, true)) == ReadMembers(ms, l, true)
    requires ReadMembers(ms, l, true) == ms <==> l.Compact? || !HasEmptyOrderedMembers(ms)
    ensures ReadBack(Table(kind, ms), l, true) == Table(kind, ms) <==> l.Compact? || !HasEmptyOrdered(Table(kind, ms))
  {
    hide PutAll, ReadMembers;
  }

  lemma {:induction false} TypedReadItems(items: seq<Doc>, l: Layout)
    requires WellFormedItems(items)
    ensures ReadItems(items, l, true) == items <==> l.Compact? || !HasEmptyOrderedItems(items)
    decreases items, 0
  {
    hide ReadBack, HasEmptyOrdered, WellFormed;
    if items != [] {
      TypedReadBack(items[0], l);
      TypedReadItems(items[1..], l);
      assert items == [items[0]] + items[1..];
      assert ReadItems(items, l, true)[1..] == ReadItems(items[1..], l, true);
    }
  }

  lemma {:induction false} TypedReadMembers(ms: seq<Entry<Doc>>, l: Layout)
    requires WellFormedMembers(ms)
    ensures ReadMembers(ms, l, true) == ms <==> l.Compact? || !HasEmptyOrderedMembers(ms)
    decreases ms, 0
  {
    hide ReadBack, HasEmptyOrdered, WellFormed;
    if ms != [] {
      TypedReadBack(ms[0].val, l);
      TypedReadMembers(ms[1..], l);
      assert ms == [ms[0]] + ms[1..];
      assert ReadMembers(ms, l, true)[1..] == ReadMembers(ms[1..], l, true);
      assert ms[0] == Entry(ms[0].key, ms[0].val);
    }
  }

  /** Untyped text is read the same way whatever its layout. */
  lemma {:induction false} UntypedBuilt(d: Doc, l: Layout)
    ensures Built(d, l, false) == Built(d, Compact, false)
    decreases d, 1
  {
    match d
    case Atom(_) =>
    case List(items) => UntypedItems(items, l);
    case Table(_, ms) => UntypedMembers(ms, l);
  }

  lemma {:induction false} UntypedItems(items: seq<Doc>, l: Layout)
    ensures BuiltItems(items, l, false) == BuiltItems(items, Compact, false)
    decreases items, 0
  {
    if items != [] {
      UntypedBuilt(items[0], l);
      UntypedItems(items[1..], l);
    }
  }

  lemma {:induction false} UntypedMembers(ms: seq<Entry<Doc>>, l: Layout)
    ensures BuiltMembers(ms, l, false) == BuiltMembers(ms, Compact, false)
    decreases ms, 0
  {
    if ms != [] {
      UntypedBuilt(ms[0].val, l);
      UntypedMembers(ms[1..], l);
    }
  }

  // ---------------------------------------------------------------- main theorems

  /** A well-formed value in a white-space layout, before text that ends it if it is a number. */
  ghost predicate Placed(v: Json, l: Layout, post: string) {
    Spacing(l) && WellFormed(View(v)) && (v.Leaf? && v.s.Int? ==> Follows(post))
  }

  lemma ParsesInContext(pre: string, v: Json, l: Layout, depth: int, typed: bool, post: string, st: Status)
    requires Placed(v, l, post)
    ensures var r := Render(View(v), l, depth, typed);
            ParseNext(pre + r + post, |pre|, st) == Done(Built(View(v), l, typed), |pre| + |r|, st)
  {
    hide ParseNext, Render, Built, WellFormed;
    var r := Render(View(v), l, depth, typed);
    var t := pre + r + post;
    assert t[|pre|..|pre| + |r|] == r;
    WellFormedPrintable(View(v));
    if v.Leaf? && v.s.Int? {
      assert t[|pre| + |r|] == post[0];
    }
    ParseDoc(t, |pre|, View(v), l, depth, typed, st);
  }

  /**
   Typed round trip. Parsing at the start of `dump_vector_in_type(v)`, inside any surrounding text,
   succeeds, stops exactly at the end of the text, and gives a value with the meaning of `v`.
   */
  lemma TypedRoundTrip(pre: string, v: Json, post: string, st: Status)
    requires Placed(v, Compact, post)
    ensures var r := Render(View(v), Compact, 0, true);
            var p := ParseNext(pre + r + post, |pre|, st);
            p.Done? && View(p.val) == View(v) && p.offset == |pre| + |r| && p.status == st
  {
    ParsesInContext(pre, v, Compact, 0, true, post, st);
    BuiltMeans(View(v), Compact, true);
    TypedReadBack(View(v), Compact);
  }

  /** The indented typed printer keeps the meaning exactly when no ordered object inside is empty. */
  lemma IndentedTypedRoundTrip(pre: string, v: Json, depth: int, tab: string, post: string, st: Status)
    requires Placed(v, Pretty(tab), post)
    ensures var r := Render(View(v), Pretty(tab), depth, true);
            var p := ParseNext(pre + r + post, |pre|, st);
            p.Done? && p.offset == |pre| + |r| && p.status == st && (View(p.val) == View(v) <==> !HasEmptyOrdered(View(v)))
  {
    ParsesInContext(pre, v, Pretty(tab), depth, true, post, st);
    BuiltMeans(View(v), Pretty(tab), true);
    TypedReadBack(View(v), Pretty(tab));
  }

  /** An empty first-in-order object, printed by the indented typed printer, is read back as a plain one. */
  lemma EmptyKindLost()
    ensures var v := Ordered(false, Empty());
            && View(v) == Table(Fio, []) && Render(View(v), Pretty("  "), 1, true) == "{}"
            && ParseNext("{}", 0, Success) == Done(Obj([]), 2, Success) && View(Obj([])) == Table(Plain, [])
  {
    hide ParseNext;
    EmptyTable("{}", 0, Fio, Pretty("  "), 1, true, Success);
  }

  /**
   Two printers, one meaning. The untyped outputs of the two printers, at any depth and
   indentation, parse to the very same value.
   */
  lemma TwoPrintersOneMeaning(pre: string, v: Json, depth: int, tab: string, post: string, st: Status)
    requires Placed(v, Compact, post) && AllSpace(tab)
    ensures var r1, r2 := Render(View(v), Compact, 0, false), Render(View(v), Pretty(tab), depth, false);
            var p1, p2 := ParseNext(pre + r1 + post, |pre|, st), ParseNext(pre + r2 + post, |pre|, st);
            && p1.Done? && p2.Done? && p1.val == p2.val
            && View(p1.val) == ReadBack(View(v), Compact, false)
            && p1.offset == |pre| + |r1| && p2.offset == |pre| + |r2| && p1.status == p2.status == st
  {
    ParsesInContext(pre, v, Compact, 0, false, post, st);
    ParsesInContext(pre, v, Pretty(tab), depth, false, post, st);
    UntypedBuilt(View(v), Pretty(tab));
    BuiltMeans(View(v), Compact, false);
  }

  /** The same of the printer and the parser as they run: what is saved is loaded, with success. */
  method SaveAndLoad(v: Json) returns (r: Option<Json>, status: Status)
    requires WellFormed(View(v)) && !(v.Leaf? && v.s.Int?)
    ensures r.Some? && View(r.value) == View(v) && status == Success
  {
    hide WellFormed, View, Render, ParseNext;
    var text := JsonPrinters.DumpVector(v, true);
    RenderNonEmpty(View(v));
    assert "" + text + "" == text;
    TypedRoundTrip("", v, "", Success);
    r, status := JsonParser.Load(text);
  }

  lemma RenderNonEmpty(d: Doc)
    ensures Render(d, Compact, 0, true) != ""
  {
    if d.Atom? && d.s.Int? { assert Number(d.s.n) != ""; }
  }
}
