/**
 Typed JSON values, what they stand for, and their two printers: the compact `dump_vector` and
 the indented `dump`.
 */
module JsonValues {
  import opened SortedMaps
  import opened Escapes
  import opened OrderedObjects

  type byte = b: int | 0 <= b < 256

  datatype Scalar =
    | Null
    | Bool(b: bool)
    | Int(n: int)
    | Str(s: string)
    | Hash(hash: seq<byte>)
    | Buffer(bytes: seq<byte>)

  /** A value as the library stores it; an ordered object carries its two maps. */
  datatype Json =
    | Leaf(s: Scalar)
    | Arr(items: seq<Json>)
    | Obj(members: seq<Entry<Json>>)
    | Ordered(flat: bool, maps: Maps<Json>)

  datatype Kind = Items | Plain | Fio | Flat

  /** What a value stands for: an ordered object is its list of visible entries. */
  datatype Doc =
    | Atom(s: Scalar)
    | List(items: seq<Doc>)
    | Table(kind: Kind, members: seq<Entry<Doc>>)

  // ---------------------------------------------------------------- meaning of a stored value

  /** The printers show a stored key if it has a numeric tag and something after the dash. */
  predicate Shown(rkey: string) {
    Tagged(rkey) && DashAt(rkey) + 1 < |rkey|
  }

  function View(v: Json): Doc
    decreases v, 1
  {
    match v
    case Leaf(s) => Atom(s)
    case Arr(items) => List(ViewItems(items))
    case Obj(members) => Table(Plain, ViewMembers(members))
    case Ordered(flat, maps) => Table(if flat then Flat else Fio, ViewShown(maps.vals))
  }

  function ViewItems(items: seq<Json>): (r: seq<Doc>)
    decreases items, 0
  {
    if items == [] then [] else [View(items[0])] + ViewItems(items[1..])
  }

  function ViewMembers(ms: seq<Entry<Json>>): (r: seq<Entry<Doc>>)
    decreases ms, 0
  {
    if ms == [] then [] else [Entry(ms[0].key, View(ms[0].val))] + ViewMembers(ms[1..])
  }

  function ViewShown(vals: seq<Entry<Json>>): (r: seq<Entry<Doc>>)
    decreases vals, 0
  {
    if vals == [] then []
    else
      (if Shown(vals[0].key) then [Entry(Strip(vals[0].key), View(vals[0].val))] else []) + ViewShown(vals[1..])
  }

  // ---------------------------------------------------------------- scalars as text

  const HASH_TAG := "$&JT&$"
  const BUFF_TAG := "$&BT&$"
  const HASH_LENGTH := 32
  const LONG_MAX := 0x7FFF_FFFF_FFFF_FFFF

  function HexDigit(d: nat): (c: char)
    requires d < 16
  {
    if d < 10 then (d + '0' as int) as char else (d - 10 + 'a' as int) as char
  }

  function Hex(bs: seq<byte>): (r: string)
  {
    if bs == [] then "" else [HexDigit(bs[0] / 16), HexDigit(bs[0] % 16)] + Hex(bs[1..])
  }

  function Decimal(n: nat): (r: string)
    ensures IsNumber(r)
  {
    if n < 10 then [Digit(n)] else Decimal(n / 10) + [Digit(n % 10)]
  }

  /** `std::to_string(long)` */
  function Number(n: int): string {
    if n < 0 then "-" + Decimal(-n) else Decimal(n)
  }

  function Quote(s: string): string { "\"" + s + "\"" }

  function RenderScalar(s: Scalar): string {
    match s
    case Null => "null"
    case Bool(b) => if b then "true" else "false"
    case Int(n) => Number(n)
    case Str(s) => Quote(Escape(s))
    case Hash(h) => Quote(HASH_TAG + Hex(h))
    case Buffer(bs) => Quote(BUFF_TAG + Hex(bs))
  }

  // ---------------------------------------------------------------- layouts

  /** The white space the two printers put around the same tokens. */
  datatype Layout = Compact | Pretty(tab: string)

  function Repeat(tab: string, n: int): string
    decreases n
  {
    if n <= 0 then "" else Repeat(tab, n - 1) + tab
  }

  function Drop2(s: string): string {
    if |s| <= 2 then "" else s[2..]
  }

  function Open(l: Layout, kind: Kind, depth: int): string {
    if l.Compact? then "" else if kind.Flat? then " " else "\n" + Repeat(l.tab, depth)
  }

  function Gap(l: Layout, kind: Kind, depth: int): string {
    if l.Compact? then "" else if kind.Flat? then " " else (if kind.Items? then " \n" else "\n") + Repeat(l.tab, depth)
  }

  function Close(l: Layout, kind: Kind, depth: int): string {
    if l.Compact? then "" else if kind.Flat? then " " else "\n" + Drop2(Repeat(l.tab, depth))
  }

  function Colon(l: Layout): string {
    if l.Compact? then ":" else " : "
  }

  function Inner(l: Layout, kind: Kind, depth: int): int {
    if l.Compact? || kind.Flat? then depth else depth + 1
  }

  function Marker(kind: Kind, typed: bool): string {
    if typed && kind.Fio? then "fio" else if typed && kind.Flat? then "flat" else ""
  }

  // ---------------------------------------------------------------- documents as text

  function Render(d: Doc, l: Layout, depth: int, typed: bool): string
    decreases d, 1
  {
    match d
    case Atom(s) => RenderScalar(s)
    case List(items) =>
      "[" + Open(l, Items, depth) + RenderItems(items, l, depth, typed) + Close(l, Items, depth) + "]"
    case Table(kind, members) =>
      if members == [] && l.Pretty? then "{}"
      else "{" + Marker(kind, typed) + Open(l, kind, depth) + RenderMembers(members, l, kind, depth, typed) + Close(l, kind, depth) + "}"
  }

  function RenderItems(items: seq<Doc>, l: Layout, depth: int, typed: bool): string
    decreases items, 0
  {
    if items == [] then ""
    else
      Render(items[0], l, Inner(l, Items, depth), typed)
      + (if |items| == 1 then "" else "," + Gap(l, Items, depth) + RenderItems(items[1..], l, depth, typed))
  }

  function RenderMembers(ms: seq<Entry<Doc>>, l: Layout, kind: Kind, depth: int, typed: bool): string
    decreases ms, 0
  {
    if ms == [] then ""
    else
      RenderMember(ms[0], l, kind, depth, typed)
      + (if |ms| == 1 then "" else "," + Gap(l, kind, depth) + RenderMembers(ms[1..], l, kind, depth, typed))
  }

  function RenderMember(m: Entry<Doc>, l: Layout, kind: Kind, depth: int, typed: bool): string
    decreases m, 2
  {
    Quote(m.key) + Colon(l) + Render(m.val, l, Inner(l, kind, depth), typed)
  }

  // ---------------------------------------------------------------- growing at the end, as the printing loops do

  lemma {:induction false} ViewItemsSnoc(items: seq<Json>, v: Json)
    ensures ViewItems(items + [v]) == ViewItems(items) + [View(v)]
  {
    if items == [] {
      assert [v][1..] == [];
    } else {
      ViewItemsSnoc(items[1..], v);
      assert (items + [v])[1..] == items[1..] + [v];
    }
  }

  lemma {:induction false} ViewMembersSnoc(ms: seq<Entry<Json>>, m: Entry<Json>)
    ensures ViewMembers(ms + [m]) == ViewMembers(ms) + [Entry(m.key, View(m.val))]
  {
    if ms == [] {
      assert [m][1..] == [];
    } else {
      ViewMembersSnoc(ms[1..], m);
      assert (ms + [m])[1..] == ms[1..] + [m];
    }
  }

  lemma {:induction false} ViewShownSnoc(ms: seq<Entry<Json>>, m: Entry<Json>)
    ensures ViewShown(ms + [m]) == ViewShown(ms) + (if Shown(m.key) then [Entry(Strip(m.key), View(m.val))] else [])
  {
    if ms == [] {
      assert [m][1..] == [];
    } else {
      ViewShownSnoc(ms[1..], m);
      assert (ms + [m])[1..] == ms[1..] + [m];
      hide ViewShown;
      ViewShownCons(ms);
      ViewShownCons(ms + [m]);
    }
  }

  lemma ViewShownCons(ms: seq<Entry<Json>>)
    requires ms != []
    ensures ViewShown(ms) == (if Shown(ms[0].key) then [Entry(Strip(ms[0].key), View(ms[0].val))] else []) + ViewShown(ms[1..])
  {
  }

  function Separator(first: bool, l: Layout, kind: Kind, depth: int): string {
    if first then "" else "," + Gap(l, kind, depth)
  }

  lemma {:induction false} RenderItemsSnoc(items: seq<Doc>, d: Doc, l: Layout, depth: int, typed: bool)
    ensures RenderItems(items + [d], l, depth, typed)
         == RenderItems(items, l, depth, typed) + Separator(items == [], l, Items, depth) + Render(d, l, Inner(l, Items, depth), typed)
  {
    hide Render, Gap, Inner;
    if items != [] {
      RenderItemsSnoc(items[1..], d, l, depth, typed);
      assert (items + [d])[1..] == items[1..] + [d];
    }
  }

  lemma {:induction false} RenderMembersSnoc(ms: seq<Entry<Doc>>, m: Entry<Doc>, l: Layout, kind: Kind, depth: int, typed: bool)
    ensures RenderMembers(ms + [m], l, kind, depth, typed)
         == RenderMembers(ms, l, kind, depth, typed) + Separator(ms == [], l, kind, depth) + RenderMember(m, l, kind, depth, typed)
  {
    hide RenderMember, Gap;
    if ms != [] {
      RenderMembersSnoc(ms[1..], m, l, kind, depth, typed);
      assert (ms + [m])[1..] == ms[1..] + [m];
      var head, tail := RenderMember(ms[0], l, kind, depth, typed), RenderMember(m, l, kind, depth, typed);
      assert RenderMembers(ms + [m], l, kind, depth, typed)
          == head + ("," + Gap(l, kind, depth) + RenderMembers(ms[1..] + [m], l, kind, depth, typed));
    }
  }
}
