/** The two printers with the library's loops, each proved to write the rendering of the value's meaning. */
module JsonPrinters {
  import opened SortedMaps
  import opened Escapes
  import opened OrderedObjects
  import opened JsonValues

  lemma {:induction false} HexSnoc(bs: seq<byte>, b: byte)
    ensures Hex(bs + [b]) == Hex(bs) + [HexDigit(b / 16), HexDigit(b % 16)]
  {
    hide HexDigit;
    if bs != [] {
      HexSnoc(bs[1..], b);
      assert (bs + [b])[1..] == bs[1..] + [b];
    }
  }

  method HexString(src: seq<byte>) returns (ans: string)
    ensures ans == Hex(src)
  {
    ans := "";
    for i := 0 to |src|
      invariant ans == Hex(src[..i])
    {
      HexSnoc(src[..i], src[i]);
      assert src[..i + 1] == src[..i] + [src[i]];
      ans := ans + [HexDigit(src[i] / 16)] + [HexDigit(src[i] % 16)];
    }
    assert src[..|src|] == src;
  }

  method DumpScalar(s: Scalar) returns (out: string)
    ensures out == RenderScalar(s)
  {
    match s
    case Null => out := "null";
    case Bool(b) => out := if b then "true" else "false";
    case Int(n) => out := Number(n);
    case Str(s) =>
      var e := JsonEscape(s);
      out := "\"" + e + "\"";
    case Hash(h) =>
      var e := HexString(h);
      out := Quote(HASH_TAG + e);
    case Buffer(bs) =>
      var e := HexString(bs);
      out := Quote(BUFF_TAG + e);
  }

  // ---------------------------------------------------------------- one more element in a printing loop

  /** Appending item `i` to text `p` that ends with the items before it. */
  lemma ItemStep(p: string, items: seq<Json>, i: nat, l: Layout, depth: int, typed: bool)
    requires i < |items|
    ensures p + RenderItems(ViewItems(items[..i + 1]), l, depth, typed)
         == p + RenderItems(ViewItems(items[..i]), l, depth, typed) + Separator(i == 0, l, Items, depth)
            + Render(View(items[i]), l, Inner(l, Items, depth), typed)
  {
    hide Render, RenderItems, View, Separator, Inner;
    ViewItemsSnoc(items[..i], items[i]);
    assert items[..i + 1] == items[..i] + [items[i]];
    RenderItemsSnoc(ViewItems(items[..i]), View(items[i]), l, depth, typed);
  }

  lemma MemberStep(p: string, ms: seq<Entry<Json>>, i: nat, l: Layout, depth: int, typed: bool)
    requires i < |ms|
    ensures p + RenderMembers(ViewMembers(ms[..i + 1]), l, Plain, depth, typed)
         == p + RenderMembers(ViewMembers(ms[..i]), l, Plain, depth, typed) + Separator(i == 0, l, Plain, depth)
            + RenderMember(Entry(ms[i].key, View(ms[i].val)), l, Plain, depth, typed)
  {
    hide Render, RenderMembers, RenderMember, View, Separator;
    ViewMembersSnoc(ms[..i], ms[i]);
    assert ms[..i + 1] == ms[..i] + [ms[i]];
    RenderMembersSnoc(ViewMembers(ms[..i]), Entry(ms[i].key, View(ms[i].val)), l, Plain, depth, typed);
  }

  lemma ShownStep(p: string, vals: seq<Entry<Json>>, i: nat, l: Layout, kind: Kind, depth: int, typed: bool)
    requires i < |vals|
    ensures Shown(vals[i].key) ==>
      && ViewShown(vals[..i + 1]) != []
      && p + RenderMembers(ViewShown(vals[..i + 1]), l, kind, depth, typed)
         == p + RenderMembers(ViewShown(vals[..i]), l, kind, depth, typed) + Separator(ViewShown(vals[..i]) == [], l, kind, depth)
            + RenderMember(Entry(Strip(vals[i].key), View(vals[i].val)), l, kind, depth, typed)
    ensures !Shown(vals[i].key) ==> ViewShown(vals[..i + 1]) == ViewShown(vals[..i])
  {
    hide Render, RenderMembers, RenderMember, View, Shown, Strip, Separator;
    ViewShownSnoc(vals[..i], vals[i]);
    assert vals[..i + 1] == vals[..i] + [vals[i]];
    RenderMembersSnoc(ViewShown(vals[..i]), Entry(Strip(vals[i].key), View(vals[i].val)), l, kind, depth, typed);
  }

  lemma NothingYet<T>(s: seq<T>, l: Layout, kind: Kind, depth: int, typed: bool)
    ensures s[..0] == []
    ensures ViewItems([]) == [] && ViewMembers([]) == [] && ViewShown([]) == []
    ensures RenderItems([], l, depth, typed) == "" && RenderMembers([], l, kind, depth, typed) == ""
  {
  }

  lemma SameEmptiness(ms: seq<Entry<Json>>)
    ensures ViewMembers(ms) == [] <==> ms == []
  {
  }

  lemma CompactTable(kind: Kind, ms: seq<Entry<Doc>>, typed: bool)
    ensures Render(Table(kind, ms), Compact, 0, typed)
         == "{" + Marker(kind, typed) + RenderMembers(ms, Compact, kind, 0, typed) + "}"
  {
    hide RenderMembers;
    var body := RenderMembers(ms, Compact, kind, 0, typed);
    assert "{" + Marker(kind, typed) + "" + body + "" + "}" == "{" + Marker(kind, typed) + body + "}";
  }

  lemma CompactList(items: seq<Doc>, typed: bool)
    ensures Render(List(items), Compact, 0, typed) == "[" + RenderItems(items, Compact, 0, typed) + "]"
  {
    hide RenderItems;
    var body := RenderItems(items, Compact, 0, typed);
    assert "[" + "" + body + "" + "]" == "[" + body + "]";
  }

  lemma PrettyList(items: seq<Doc>, tab: string, depth: int, typed: bool, pad: string)
    requires pad == Repeat(tab, depth)
    ensures Render(List(items), Pretty(tab), depth, typed)
         == ("[\n" + pad) + RenderItems(items, Pretty(tab), depth, typed) + ("\n" + Drop2(pad) + "]")
  {
    hide RenderItems, Drop2, Repeat;
    var body := RenderItems(items, Pretty(tab), depth, typed);
    assert "[\n" + pad == "[" + ("\n" + pad);
    assert ("[\n" + pad) + body + ("\n" + Drop2(pad) + "]") == "[" + ("\n" + pad) + body + ("\n" + Drop2(pad)) + "]";
  }

  lemma PrettyTable(kind: Kind, ms: seq<Entry<Doc>>, tab: string, depth: int, typed: bool, pad: string)
    requires pad == Repeat(tab, depth) && (kind.Plain? || kind.Fio?)
    ensures Render(Table(kind, ms), Pretty(tab), depth, typed)
         == if ms == [] then "{}"
            else ("{" + Marker(kind, typed) + "\n" + pad) + RenderMembers(ms, Pretty(tab), kind, depth, typed) + ("\n" + Drop2(pad) + "}")
  {
    hide RenderMembers, Drop2, Repeat;
    var body := RenderMembers(ms, Pretty(tab), kind, depth, typed);
    var mark := "{" + Marker(kind, typed);
    assert mark + "\n" + pad == mark + ("\n" + pad);
    assert (mark + ("\n" + pad)) + body + ("\n" + Drop2(pad) + "}") == mark + ("\n" + pad) + body + ("\n" + Drop2(pad)) + "}";
  }

  lemma FlatTable(ms: seq<Entry<Doc>>, tab: string, depth: int, typed: bool)
    ensures Render(Table(Flat, ms), Pretty(tab), depth, typed)
         == if ms == [] then "{}"
            else ("{" + Marker(Flat, typed) + " ") + RenderMembers(ms, Pretty(tab), Flat, depth, typed) + " }"
  {
    hide RenderMembers;
    var body := ("{" + Marker(Flat, typed) + " ") + RenderMembers(ms, Pretty(tab), Flat, depth, typed);
    assert body + " }" == body + " " + "}";
  }

  /** The tag test that every ordered case of the printers makes before it prints a member. */
  method VisibleKey(rkey: string) returns (shown: bool, key: string)
    ensures shown == Shown(rkey)
    ensures shown ==> key == Strip(rkey)
  {
    key := rkey;
    var pos := DashAt(key);
    var tag := "";
    if pos != |key| && pos + 1 < |key| {
      tag := key[..pos];
      key := key[pos + 1..];
    }
    shown := IsNumber(tag);
  }

  // ---------------------------------------------------------------- the compact printer

  /** `dump_vector`; with `inType` set, `dump_vector_in_type`. */
  method DumpVector(v: Json, inType: bool) returns (out: string)
    ensures out == Render(View(v), Compact, 0, inType)
    decreases v, 1
  {
    match v
    case Leaf(s) => out := DumpScalar(s);
    case Arr(items) => out := DumpArrayVector(items, inType);
    case Obj(members) => out := DumpObjectVector(members, inType);
    case Ordered(flat, maps) => out := DumpOrderedVector(maps.vals, if flat then Flat else Fio, inType);
  }

  method DumpArrayVector(items: seq<Json>, inType: bool) returns (out: string)
    ensures out == Render(List(ViewItems(items)), Compact, 0, inType)
    decreases items, 0
  {
    hide Render, RenderItems, View, ViewItems, Repeat, Drop2;
    NothingYet(items, Compact, Items, 0, inType);
    out := "[";
    var skip := true;
    for i := 0 to |items|
      invariant skip == (i == 0)
      invariant out == "[" + RenderItems(ViewItems(items[..i]), Compact, 0, inType)
    {
      ItemStep("[", items, i, Compact, 0, inType);
      if !skip { out := out + ","; }
      var sv := DumpVector(items[i], inType);
      out := out + sv;
      skip := false;
    }
    assert items[..|items|] == items;
    out := out + "]";
    assert out == "[" + "" + RenderItems(ViewItems(items), Compact, 0, inType) + "" + "]";
    CompactList(ViewItems(items), inType);
  }

  method DumpObjectVector(members: seq<Entry<Json>>, inType: bool) returns (out: string)
    ensures out == Render(Table(Plain, ViewMembers(members)), Compact, 0, inType)
    decreases members, 0
  {
    hide Render, RenderMembers, View, ViewMembers, ViewShown, Shown, Strip, Repeat, Drop2;
    NothingYet(members, Compact, Plain, 0, inType);
    out := "{";
    var skip := true;
    for i := 0 to |members|
      invariant skip == (i == 0)
      invariant out == "{" + RenderMembers(ViewMembers(members[..i]), Compact, Plain, 0, inType)
    {
      MemberStep("{", members, i, Compact, 0, inType);
      if !skip { out := out + ","; }
      ghost var before := out;
      out := out + ("\"" + members[i].key + "\":");
      var sv := DumpVector(members[i].val, inType);
      out := out + sv;
      CompactMember(before, members[i].key, sv);
      skip := false;
    }
    assert members[..|members|] == members;
    out := out + "}";
    CompactTable(Plain, ViewMembers(members), inType);
  }

  lemma CompactMember(out: string, key: string, sv: string)
    ensures out + ("\"" + key + "\":") + sv == out + ("\"" + key + "\"" + ":" + sv)
  {
  }

  /** The FIOObject and FlatObject cases of `dump_vector`. */
  method DumpOrderedVector(vals: seq<Entry<Json>>, kind: Kind, inType: bool) returns (out: string)
    requires kind.Fio? || kind.Flat?
    ensures out == Render(Table(kind, ViewShown(vals)), Compact, 0, inType)
    decreases vals, 0
  {
    hide Render, RenderMembers, View, ViewMembers, ViewShown, Shown, Strip, Repeat, Drop2;
    NothingYet(vals, Compact, kind, 0, inType);
    out := "{";
    if inType { out := out + (if kind.Flat? then "flat" else "fio"); }
    ghost var open := out;
    var skip := true;
    for i := 0 to |vals|
      invariant skip == (ViewShown(vals[..i]) == [])
      invariant out == open + RenderMembers(ViewShown(vals[..i]), Compact, kind, 0, inType)
    {
      ShownStep(open, vals, i, Compact, kind, 0, inType);
      var shown, key := VisibleKey(vals[i].key);
      if !shown { continue; }
      if !skip { out := out + ","; }
      ghost var before := out;
      out := out + ("\"" + key + "\":");
      var sv := DumpVector(vals[i].val, inType);
      out := out + sv;
      CompactMember(before, key, sv);
      skip := false;
    }
    assert vals[..|vals|] == vals;
    assert open == "{" + Marker(kind, inType);
    out := out + "}";
    CompactTable(kind, ViewShown(vals), inType);
  }

  // ---------------------------------------------------------------- the indented printer

  /** `dump`; with `inType` set, `dump_in_type`. */
  method Dump(v: Json, depth: int, tab: string, inType: bool) returns (s: string)
    ensures s == Render(View(v), Pretty(tab), depth, inType)
    decreases v, 1
  {
    var pad := "";
    var n := 0;
    while n < depth
      invariant 0 <= n <= (if depth < 0 then 0 else depth)
      invariant pad == Repeat(tab, n)
    {
      pad := pad + tab;
      n := n + 1;
    }
    assert pad == Repeat(tab, depth);
    match v
    case Leaf(sc) => s := DumpScalar(sc);
    case Arr(items) => s := DumpArray(items, depth, tab, pad, inType);
    case Obj(members) => s := DumpObject(members, depth, tab, pad, inType);
    case Ordered(flat, maps) =>
      if flat { s := DumpFlat(maps.vals, depth, tab, inType); }
      else { s := DumpFio(maps.vals, depth, tab, pad, inType); }
  }

  method DumpArray(items: seq<Json>, depth: int, tab: string, pad: string, inType: bool) returns (s: string)
    requires pad == Repeat(tab, depth)
    ensures s == Render(List(ViewItems(items)), Pretty(tab), depth, inType)
    decreases items, 0
  {
    hide Render, RenderItems, View, ViewItems, Repeat, Drop2;
    NothingYet(items, Pretty(tab), Items, depth, inType);
    ghost var l := Pretty(tab);
    s := "[\n" + pad;
    ghost var open := s;
    var skip := true;
    for i := 0 to |items|
      invariant skip == (i == 0)
      invariant s == open + RenderItems(ViewItems(items[..i]), l, depth, inType)
    {
      ItemStep(open, items, i, l, depth, inType);
      if !skip { s := s + (", \n" + pad); }
      assert "," + (" \n" + pad) == ", \n" + pad;
      var e := Dump(items[i], depth + 1, tab, inType);
      s := s + e;
      skip := false;
    }
    assert items[..|items|] == items;
    s := s + ("\n" + Drop2(pad) + "]");
    PrettyList(ViewItems(items), tab, depth, inType, pad);
  }

  /** Printing a member: separator, padding, key and value in the order the code appends them. */
  lemma PrettyMember(s: string, pad: string, key: string, e: string)
    ensures (s + ",\n") + (pad + "\"" + key + "\" : " + e) == s + ("," + ("\n" + pad)) + ("\"" + key + "\"" + " : " + e)
    ensures s + (pad + "\"" + key + "\" : " + e) == (s + pad) + ("\"" + key + "\"" + " : " + e)
  {
    var m := "\"" + key + "\"" + " : " + e;
    assert pad + "\"" + key + "\" : " + e == pad + m;
    assert (s + ",\n") + (pad + m) == s + ("," + ("\n" + pad)) + m;
  }

  /** One pass of the printing loop on the text alone; the padding before the first member is already in `before`. */
  lemma PrettyPass(s: string, skip: bool, before: string, after: string, pad: string, key: string, e: string)
    requires s + (if skip then pad else "") == before
    requires after == before + (if skip then "" else "," + ("\n" + pad)) + ("\"" + key + "\"" + " : " + e)
    ensures (if skip then s else s + ",\n") + (pad + "\"" + key + "\" : " + e) == after
  {
    PrettyMember(s, pad, key, e);
  }

  lemma PrettyText(m: Entry<Doc>, kind: Kind, tab: string, depth: int, typed: bool)
    requires kind.Plain? || kind.Fio?
    ensures RenderMember(m, Pretty(tab), kind, depth, typed)
         == "\"" + m.key + "\"" + " : " + Render(m.val, Pretty(tab), depth + 1, typed)
    ensures Separator(true, Pretty(tab), kind, depth) == ""
    ensures Separator(false, Pretty(tab), kind, depth) == "," + ("\n" + Repeat(tab, depth))
  {
    hide Render, Repeat;
  }

  method DumpObject(members: seq<Entry<Json>>, depth: int, tab: string, pad: string, inType: bool) returns (s: string)
    requires pad == Repeat(tab, depth)
    ensures s == Render(Table(Plain, ViewMembers(members)), Pretty(tab), depth, inType)
    decreases members, 0
  {
    hide Render, RenderMembers, RenderMember, Separator, Inner, View, ViewMembers, ViewShown, Shown, Strip, Repeat, Drop2;
    NothingYet(members, Pretty(tab), Plain, depth, inType);
    ghost var l := Pretty(tab);
    s := "{\n";
    ghost var open := s + pad;
    var skip := true;
    for i := 0 to |members|
      invariant skip == (i == 0)
      invariant s + (if skip then pad else "") == open + RenderMembers(ViewMembers(members[..i]), l, Plain, depth, inType)
    {
      MemberStep(open, members, i, l, depth, inType);
      var e := Dump(members[i].val, depth + 1, tab, inType);
      PrettyText(Entry(members[i].key, View(members[i].val)), Plain, tab, depth, inType);
      PrettyPass(s, skip, open + RenderMembers(ViewMembers(members[..i]), l, Plain, depth, inType),
        open + RenderMembers(ViewMembers(members[..i + 1]), l, Plain, depth, inType), pad, members[i].key, e);
      if !skip { s := s + ",\n"; }
      s := s + (pad + "\"" + members[i].key + "\" : " + e);
      skip := false;
    }
    assert members[..|members|] == members;
    assert s + "" == s;
    s := s + ("\n" + Drop2(pad) + "}");
    if skip { s := "{}"; }
    SameEmptiness(members);
    PrettyTable(Plain, ViewMembers(members), tab, depth, inType, pad);
  }

  /** The FIOObject case of `dump`. */
  method DumpFio(vals: seq<Entry<Json>>, depth: int, tab: string, pad: string, inType: bool) returns (s: string)
    requires pad == Repeat(tab, depth)
    ensures s == Render(Table(Fio, ViewShown(vals)), Pretty(tab), depth, inType)
    decreases vals, 0
  {
    hide Render, RenderMembers, RenderMember, Separator, Inner, View, ViewMembers, ViewShown, Shown, Strip, Repeat, Drop2;
    NothingYet(vals, Pretty(tab), Fio, depth, inType);
    ghost var l := Pretty(tab);
    s := "{";
    if inType { s := s + "fio"; }
    s := s + "\n";
    ghost var open := s + pad;
    assert open == "{" + Marker(Fio, inType) + "\n" + pad;
    var skip := true;
    for i := 0 to |vals|
      invariant skip == (ViewShown(vals[..i]) == [])
      invariant s + (if skip then pad else "") == open + RenderMembers(ViewShown(vals[..i]), l, Fio, depth, inType)
    {
      ShownStep(open, vals, i, l, Fio, depth, inType);
      var shown, key := VisibleKey(vals[i].key);
      if !shown { continue; }
      var e := Dump(vals[i].val, depth + 1, tab, inType);
      PrettyText(Entry(key, View(vals[i].val)), Fio, tab, depth, inType);
      PrettyPass(s, skip, open + RenderMembers(ViewShown(vals[..i]), l, Fio, depth, inType),
        open + RenderMembers(ViewShown(vals[..i + 1]), l, Fio, depth, inType), pad, key, e);
      if !skip { s := s + ",\n"; }
      s := s + (pad + "\"" + key + "\" : " + e);
      skip := false;
    }
    assert vals[..|vals|] == vals;
    assert s + "" == s;
    s := s + ("\n" + Drop2(pad) + "}");
    if skip { s := "{}"; }
    assert s != "{}" ==> s == open + RenderMembers(ViewShown(vals), l, Fio, depth, inType) + ("\n" + Drop2(pad) + "}");
    PrettyTable(Fio, ViewShown(vals), tab, depth, inType, pad);
  }

  lemma FlatMember(s: string, key: string, e: string)
    ensures (s + ", ") + ("\"" + key + "\" : " + e) == s + ("," + " ") + ("\"" + key + "\"" + " : " + e)
    ensures s + ("\"" + key + "\" : " + e) == s + ("\"" + key + "\"" + " : " + e)
  {
    assert "\"" + key + "\" : " + e == "\"" + key + "\"" + " : " + e;
    assert ", " == "," + " ";
  }

  /** The FlatObject case of `dump`: one line, and its members keep the depth. */
  method DumpFlat(vals: seq<Entry<Json>>, depth: int, tab: string, inType: bool) returns (s: string)
    ensures s == Render(Table(Flat, ViewShown(vals)), Pretty(tab), depth, inType)
    decreases vals, 0
  {
    hide Render, RenderMembers, View, ViewMembers, ViewShown, Shown, Strip, Repeat, Drop2;
    NothingYet(vals, Pretty(tab), Flat, depth, inType);
    ghost var l := Pretty(tab);
    s := "{";
    if inType { s := s + "flat"; }
    s := s + " ";
    ghost var open := s;
    assert open == "{" + Marker(Flat, inType) + " ";
    var skip := true;
    for i := 0 to |vals|
      invariant skip == (ViewShown(vals[..i]) == [])
      invariant s == open + RenderMembers(ViewShown(vals[..i]), l, Flat, depth, inType)
    {
      ShownStep(open, vals, i, l, Flat, depth, inType);
      var shown, key := VisibleKey(vals[i].key);
      if !shown { continue; }
      var e := Dump(vals[i].val, depth, tab, inType);
      FlatMember(s, key, e);
      if !skip { s := s + ", "; }
      s := s + ("\"" + key + "\" : " + e);
      skip := false;
    }
    assert vals[..|vals|] == vals;
    s := s + " }";
    if skip { s := "{}"; }
    FlatTable(ViewShown(vals), tab, depth, inType);
  }
}
