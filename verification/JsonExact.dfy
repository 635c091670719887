/** Exactly which texts the parser reads without an error, and as what: a grammar, character by character. */
module JsonExact {
  import opened Texts
  import opened Escapes
  import opened OrderedObjects
  import opened JsonValues
  import opened JsonGrammar
  import opened JsonScalars
  import opened JsonRoundTrip

  // ---------------------------------------------------------------- the grammar

  /** One piece of a string: a character, a backslash and a character, or a backslash, a `u` and four digits. */
  datatype Unit = Char(c: char) | Short(c: char) | Hexed(digits: string)

  datatype Node =
    | WordNode(s: Scalar)
    | NumberNode(negative: bool, digits: string, junk: string)
    | StringNode(units: seq<Unit>)
    | ArrayNode(blank: string, items: seq<Element>)
    | ObjectNode(kind: Kind, blank: string, members: seq<Member>)

  datatype Element = Element(before: string, node: Node, after: string)

  datatype Member = Member(before: string, key: Node, toColon: string, fromColon: string, node: Node, after: string)

  function UnitText(u: Unit): string {
    match u
    case Char(c) => [c]
    case Short(c) => ['\\', c]
    case Hexed(digits) => "\\u" + digits
  }

  function UnitValue(u: Unit): string {
    match u
    case Char(c) => [c]
    case Short(c) =>
      if c == '\"' then "\"" else if c == '\\' then "\\" else if c == '/' then "/"
      else if c == 'b' then [8 as char] else if c == 'f' then [12 as char]
      else if c == 'n' then "\n" else if c == 'r' then "\r" else if c == 't' then "\t"
      else "\\"
    case Hexed(digits) => "\\u" + digits
  }

  predicate GoodUnit(u: Unit) {
    match u
    case Char(c) => c != '\"' && c != '\\'
    case Short(c) => c != 'u'
    case Hexed(digits) =>
      |digits| == 4 && forall i :: 0 <= i < 4 ==> '0' <= digits[i] <= '9' || 'a' <= digits[i] <= 'f' || 'A' <= digits[i] <= 'F'
  }

  function UnitsText(us: seq<Unit>): string {
    if us == [] then "" else UnitText(us[0]) + UnitsText(us[1..])
  }

  function UnitsValue(us: seq<Unit>): string {
    if us == [] then "" else UnitValue(us[0]) + UnitsValue(us[1..])
  }

  predicate GoodUnits(us: seq<Unit>) { forall i :: 0 <= i < |us| ==> GoodUnit(us[i]) }

  predicate AllDigits(s: string) { forall i :: 0 <= i < |s| ==> '0' <= s[i] <= '9' }

  /** The number that decimal digits stand for. */
  function Numeral(s: string): nat
    requires AllDigits(s)
  {
    if s == "" then 0 else 10 * Numeral(s[..|s| - 1]) + (s[|s| - 1] - '0') as int
  }

  function Signed(negative: bool, digits: string): int
    requires AllDigits(digits)
  {
    var n: int := Numeral(digits);
    if negative then -n else n
  }

  /** Digits, a sign before them if any, and dashes and digits after them that do not count. */
  predicate GoodNumber(negative: bool, digits: string, junk: string) {
    && digits != "" && AllDigits(digits)
    && (forall i :: 0 <= i < |junk| ==> junk[i] == '-' || '0' <= junk[i] <= '9') && (junk == "" || junk[0] == '-')
    && -0x8000_0000_0000_0000 <= Signed(negative, digits) < 0x8000_0000_0000_0000
  }

  predicate GoodNode(n: Node)
    decreases n, 0
  {
    match n
    case WordNode(s) => s.Null? || s.Bool?
    case NumberNode(negative, digits, junk) => GoodNumber(negative, digits, junk)
    case StringNode(units) => GoodUnits(units) && Classify(UnitsValue(units)).Value?
    case ArrayNode(blank, items) => AllSpace(blank) && GoodElements(items)
    case ObjectNode(kind, blank, members) => !kind.Items? && AllSpace(blank) && GoodMembers(members)
  }

  predicate GoodElements(es: seq<Element>)
    decreases es, 0
  {
    es == [] || (AllSpace(es[0].before) && GoodNode(es[0].node) && AllSpace(es[0].after) && GoodElements(es[1..]))
  }

  /** Anything can be a key; a number needs white space before its colon. */
  predicate GoodMembers(ms: seq<Member>)
    decreases ms, 0
  {
    ms == [] ||
    (&& AllSpace(ms[0].before) && GoodNode(ms[0].key) && AllSpace(ms[0].toColon) && (ms[0].key.NumberNode? ==> ms[0].toColon != "")
     && AllSpace(ms[0].fromColon) && GoodNode(ms[0].node) && AllSpace(ms[0].after) && GoodMembers(ms[1..]))
  }

  function NodeText(n: Node): string
    decreases n, 1
  {
    match n
    case WordNode(s) => if s == Bool(true) then "true" else if s == Bool(false) then "false" else "null"
    case NumberNode(negative, digits, junk) => (if negative then "-" else "") + digits + junk
    case StringNode(units) => "\"" + (UnitsText(units) + "\"")
    case ArrayNode(blank, items) => "[" + (blank + (ElementsText(items) + "]"))
    case ObjectNode(kind, blank, members) =>
      "{" + ((if kind.Fio? then "fio" else if kind.Flat? then "flat" else "") + (blank + (MembersText(members) + "}")))
  }

  function ElementText(e: Element): string
    decreases e, 2
  {
    e.before + (NodeText(e.node) + e.after)
  }

  function ElementsText(es: seq<Element>): string
    decreases es, 0
  {
    if es == [] then ""
    else ElementText(es[0]) + if |es| == 1 then "" else "," + ElementsText(es[1..])
  }

  function MemberText(m: Member): string
    decreases m, 2
  {
    m.before + (NodeText(m.key) + (m.toColon + (":" + (m.fromColon + (NodeText(m.node) + m.after)))))
  }

  function MembersText(ms: seq<Member>): string
    decreases ms, 0
  {
    if ms == [] then ""
    else MemberText(ms[0]) + if |ms| == 1 then "" else "," + MembersText(ms[1..])
  }

  // ---------------------------------------------------------------- what it stands for

  /** What a key is called: strings escaped, numbers in decimal, hashes and buffers in hexadecimal, nothing else named. */
  function KeyName(v: Json): string {
    if !v.Leaf? then ""
    else
      match v.s
      case Str(s) => Escape(s)
      case Int(n) => Number(n)
      case Hash(h) => Hex(h)
      case Buffer(bs) => Hex(bs)
      case _ => ""
  }

  function NodeValue(n: Node): Json
    requires GoodNode(n)
    decreases n, 1
  {
    match n
    case WordNode(s) => Leaf(s)
    case NumberNode(negative, digits, _) => Leaf(Int(Signed(negative, digits)))
    case StringNode(units) => Leaf(Classify(UnitsValue(units)).s)
    case ArrayNode(_, items) => Arr(ElementValues(items))
    case ObjectNode(kind, _, members) =>
      Filled(if kind.Plain? then Obj([]) else Ordered(kind.Flat?, Maps(map[], [])), members)
  }

  function ElementValues(es: seq<Element>): seq<Json>
    requires GoodElements(es)
    decreases es, 0
  {
    if es == [] then [] else [NodeValue(es[0].node)] + ElementValues(es[1..])
  }

  /** Members are put one by one, later ones over earlier ones of the same name. */
  function Filled(obj: Json, ms: seq<Member>): (r: Json)
    requires GoodMembers(ms) && (obj.Obj? || obj.Ordered?)
    decreases ms, 0
  {
    if ms == [] then obj else Filled(SetMember(obj, KeyName(NodeValue(ms[0].key)), NodeValue(ms[0].node)), ms[1..])
  }

  /** What may come after a node: if it is a number, white space, a comma or a closing bracket or brace. */
  predicate EndsWell(n: Node, t: string, end: nat) {
    n.NumberNode? ==>
      end < |t| && (t[end] as int == 32 || 9 <= t[end] as int <= 13 || t[end] == ',' || t[end] == ']' || t[end] == '}')
  }

  /** White space and a node stand in the text from `o` up to `end`. */
  ghost predicate Stands(t: string, o: nat, ws: string, n: Node, end: nat) {
    && AllSpace(ws) && GoodNode(n) && At(t, o, ws + NodeText(n)) && end == o + |ws| + |NodeText(n)| && EndsWell(n, t, end)
  }

  // ---------------------------------------------------------------- texts put together

  lemma AtJoin(t: string, o: nat, a: string, b: string)
    requires At(t, o, a) && At(t, o + |a|, b)
    ensures At(t, o, a + b)
  {
    assert t[o..o + |a + b|] == t[o..o + |a|] + t[o + |a|..o + |a| + |b|];
  }

  lemma AtSlice(t: string, a: nat, b: nat)
    requires a <= b <= |t|
    ensures At(t, a, t[a..b])
  {
  }

  lemma AtOne(t: string, o: nat, c: char)
    requires o < |t| && t[o] == c
    ensures At(t, o, [c])
  {
  }

  /** The white space that is skipped. */
  lemma Skipped(t: string, o: nat) returns (ws: string)
    requires o <= |t|
    ensures AllSpace(ws) && At(t, o, ws) && SkipSpace(t, o) == o + |ws|
  {
    ws := t[o..SkipSpace(t, o)];
    AtSlice(t, o, SkipSpace(t, o));
    forall i | 0 <= i < |ws| ensures ws[i] as int == 32 || 9 <= ws[i] as int <= 13 { assert ws[i] == t[o + i]; }
  }

  /** White space in front of white space. */
  lemma {:induction false} SkipFront(t: string, o: nat, ws: string)
    requires At(t, o, ws) && AllSpace(ws)
    ensures o + |ws| <= |t| && SkipSpace(t, o) == SkipSpace(t, o + |ws|)
    decreases |ws|
  {
    if ws != "" {
      AtChar(t, o, ws, 0);
      assert ws == [ws[0]] + ws[1..];
      AtConcat(t, o, [ws[0]], ws[1..]);
      SkipFront(t, o + 1, ws[1..]);
    }
  }

  // ---------------------------------------------------------------- strings

  lemma UnitReads(t: string, o: nat, u: Unit, acc: string)
    requires GoodUnit(u) && At(t, o, UnitText(u))
    ensures o + |UnitText(u)| <= |t| && ScanString(t, o, acc) == ScanString(t, o + |UnitText(u)|, acc + UnitValue(u))
  {
    AtChar(t, o, UnitText(u), 0);
    match u
    case Char(_) =>
    case Short(_) => AtChar(t, o, UnitText(u), 1);
    case Hexed(digits) =>
      AtChar(t, o, UnitText(u), 1);
      HexedReads(t, o, digits);
  }

  lemma HexedReads(t: string, o: nat, digits: string)
    requires GoodUnit(Hexed(digits)) && At(t, o, "\\u" + digits)
    ensures EscapeAt(t, o) == Closed("\\u" + digits, o + 6)
  {
    var s := "\\u" + digits;
    AtBounds(t, o, s);
    forall i | o + 2 <= i < o + 6 ensures t[i] == digits[i - o - 2] { AtChar(t, o, s, i - o); }
    AtChar(t, o, s, 1);
    FourHex(t, o + 2);
  }

  lemma FourHex(t: string, o: nat)
    requires o + 4 <= |t| && forall i :: o <= i < o + 4 ==> IsHexDigit(t[i])
    ensures FirstNonHex(t, o, 4) == 4
  {
    assert FirstNonHex(t, o + 4, 0) == 0;
    assert FirstNonHex(t, o + 3, 1) == 1;
    assert FirstNonHex(t, o + 2, 2) == 2;
    assert FirstNonHex(t, o + 1, 3) == 3;
  }

  lemma {:induction false} UnitsRead(t: string, o: nat, us: seq<Unit>, acc: string)
    requires GoodUnits(us) && At(t, o, UnitsText(us) + "\"")
    ensures o <= |t| && ScanString(t, o, acc) == Closed(acc + UnitsValue(us), o + |UnitsText(us)| + 1)
    decreases |us|
  {
    hide ScanString, UnitText, UnitValue, GoodUnit, At;
    AtBounds(t, o, UnitsText(us) + "\"");
    if us == [] {
      assert "" + "\"" == "\"" && acc + "" == acc;
      ScanEnd(t, o, acc);
    } else {
      var a, rest := UnitText(us[0]), UnitsText(us[1..]) + "\"";
      assert UnitsText(us) + "\"" == a + rest;
      AtConcat(t, o, a, rest);
      UnitReads(t, o, us[0], acc);
      UnitsRead(t, o + |a|, us[1..], acc + UnitValue(us[0]));
      assert acc + UnitValue(us[0]) + UnitsValue(us[1..]) == acc + (UnitValue(us[0]) + UnitsValue(us[1..]));
    }
  }

  /** The unit at the offset of a string that is closed. */
  lemma UnitOf(t: string, o: nat, acc: string) returns (u: Unit)
    requires o < |t| && ScanString(t, o, acc).Closed? && t[o] != '\"'
    ensures GoodUnit(u) && At(t, o, UnitText(u)) && UnitText(u) != ""
  {
    EscapeHere(t, o, acc);
    if t[o] != '\\' {
      u := Char(t[o]);
    } else if t[o + 1] != 'u' {
      u := Short(t[o + 1]);
      assert t[o..o + 2] == ['\\', t[o + 1]];
    } else {
      u := Hexed(t[o + 2..o + 6]);
      assert t[o..o + 6] == "\\u" + t[o + 2..o + 6];
    }
  }

  lemma EscapeHere(t: string, o: nat, acc: string)
    requires o < |t| && ScanString(t, o, acc).Closed? && t[o] != '\"'
    ensures t[o] == '\\' ==> o + 1 < |t|
    ensures t[o] == '\\' && t[o + 1] == 'u' ==> o + 6 <= |t| && forall i :: o + 2 <= i < o + 6 ==> IsHexDigit(t[i])
  {
    if t[o] == '\\' && o + 1 < |t| && t[o + 1] == 'u' { HexBefore(t, o + 2, FirstNonHex(t, o + 2, 4), 4); }
  }

  lemma {:induction false} HexBefore(t: string, o: nat, k: nat, n: nat)
    requires FirstNonHex(t, o, n) == k
    ensures k > 0 ==> o + k <= |t|
    ensures o <= |t| ==> o + k <= |t| && forall i :: o <= i < o + k ==> IsHexDigit(t[i])
    decreases n
  {
    if k > 0 { HexBefore(t, o + 1, k - 1, n - 1); }
  }

  lemma {:induction false} UnitsOf(t: string, o: nat, acc: string) returns (us: seq<Unit>)
    requires o <= |t| && ScanString(t, o, acc).Closed?
    ensures GoodUnits(us) && At(t, o, UnitsText(us) + "\"")
    decreases |t| - o
  {
    hide GoodUnit, UnitText, UnitValue;
    assert o < |t|;
    if t[o] == '\"' {
      us := [];
      assert "" + "\"" == "\"";
      AtOne(t, o, '\"');
    } else {
      var u := UnitOf(t, o, acc);
      UnitReads(t, o, u, acc);
      var rest := UnitsOf(t, o + |UnitText(u)|, acc + UnitValue(u));
      us := [u] + rest;
      assert us[1..] == rest;
      AtJoin(t, o, UnitText(u), UnitsText(rest) + "\"");
      assert UnitText(u) + (UnitsText(rest) + "\"") == UnitsText(us) + "\"";
    }
  }

  // ---------------------------------------------------------------- numbers

  lemma NumeralReads(digits: string, junk: string)
    requires AllDigits(digits) && (junk == "" || !IsDigit(junk[0]))
    ensures DigitsValue(digits + junk, 0) == Numeral(digits)
  {
    hide DigitsValue, AllDigits;
    NothingNumeral();
    NumeralMore(digits, junk, "");
    assert "" + digits == digits;
  }

  lemma NothingNumeral()
    ensures AllDigits("") && Numeral("") == 0
  {
  }

  lemma NumeralSnoc(s: string, c: char)
    requires AllDigits(s) && '0' <= c <= '9'
    ensures AllDigits(s + [c]) && Numeral(s + [c]) == 10 * Numeral(s) + (c - '0') as int
  {
    assert (s + [c])[..|s|] == s;
  }

  lemma {:induction false} NumeralMore(digits: string, junk: string, done: string)
    requires AllDigits(digits) && AllDigits(done) && (junk == "" || !IsDigit(junk[0]))
    ensures AllDigits(done + digits) && DigitsValue(digits + junk, Numeral(done)) == Numeral(done + digits)
    decreases |digits|
  {
    hide Numeral;
    if digits == "" {
      assert digits + junk == junk && done + digits == done;
    } else {
      NumeralSnoc(done, digits[0]);
      NumeralMore(digits[1..], junk, done + [digits[0]]);
      assert (digits + junk)[1..] == digits[1..] + junk;
      assert done + [digits[0]] + digits[1..] == done + digits;
    }
  }

  lemma NumberReads(negative: bool, digits: string, junk: string)
    requires GoodNumber(negative, digits, junk)
    ensures StringToLong((if negative then "-" else "") + digits + junk) == Long(Signed(negative, digits))
  {
    hide DigitsValue, Numeral;
    var sign := if negative then "-" else "";
    var s := sign + digits + junk;
    NumeralReads(digits, junk);
    assert s == sign + (digits + junk) && s[|sign|] == digits[0];
    if negative {
      assert s[0] == '-' && s[1..] == digits + junk;
    } else {
      assert s == digits + junk;
    }
  }

  lemma NumberChars(negative: bool, digits: string, junk: string)
    requires GoodNumber(negative, digits, junk)
    ensures var s := (if negative then "-" else "") + digits + junk;
            && s != "" && (IsDigit(s[0]) || s[0] == '-')
            && forall i :: 0 <= i < |s| ==> NumberChar(s[i]) && s[i] != '.'
  {
    hide Numeral;
  }

  /** The digits at the front of a text. */
  function Front(s: string): (n: nat)
    ensures n <= |s| && (forall i :: 0 <= i < n ==> IsDigit(s[i])) && (n < |s| ==> !IsDigit(s[n]))
  {
    if s == "" || !IsDigit(s[0]) then 0 else 1 + Front(s[1..])
  }

  /** A text of number characters is digits, and junk that begins with a dash. */
  lemma SplitDigits(body: string) returns (digits: string, junk: string)
    requires forall i :: 0 <= i < |body| ==> NumberChar(body[i]) && body[i] != '.'
    ensures body == digits + junk && AllDigits(digits) && (forall i :: 0 <= i < |junk| ==> junk[i] == '-' || '0' <= junk[i] <= '9')
    ensures junk == "" || junk[0] == '-'
    ensures body != "" && IsDigit(body[0]) ==> digits != ""
  {
    var k := Front(body);
    digits, junk := body[..k], body[k..];
  }

  lemma NumberOf(s: string, n: int) returns (negative: bool, digits: string, junk: string)
    requires StringToLong(s) == Long(n) && forall i :: 0 <= i < |s| ==> NumberChar(s[i]) && s[i] != '.'
    ensures GoodNumber(negative, digits, junk) && s == (if negative then "-" else "") + digits + junk
    ensures n == Signed(negative, digits)
  {
    hide Numeral, DigitsValue, AllDigits;
    negative := s != "" && s[0] == '-';
    var body := if negative then s[1..] else s;
    digits, junk := SplitDigits(body);
    NumeralReads(digits, junk);
    assert s == (if negative then "-" else "") + body;
    assert (if negative then "-" else "") + (digits + junk) == (if negative then "-" else "") + digits + junk;
  }

  // ---------------------------------------------------------------- what the grammar has, the parser reads

  /** No node begins with white space or with what ends a container or a member. */
  lemma NodeFirst(n: Node)
    requires GoodNode(n)
    ensures NodeText(n) != "" && !IsSpace(NodeText(n)[0]) && NodeText(n)[0] != ']' && NodeText(n)[0] != '}'
  {
    hide GoodNumber, ElementsText, MembersText, UnitsText;
    if n.NumberNode? { NumberChars(n.negative, n.digits, n.junk); }
  }

  lemma WordReads(t: string, o: nat, s: Scalar, st: Status)
    requires (s.Null? || s.Bool?) && At(t, o, NodeText(WordNode(s)))
    ensures o <= |t| && ParseNext(t, o, st) == Done(Leaf(s), o + |NodeText(WordNode(s))|, st)
  {
    hide ParseNext;
    assert NodeText(WordNode(s)) == RenderScalar(s);
    ParseWord(t, o, s, st);
  }

  lemma NumberNodeReads(t: string, o: nat, n: Node, st: Status)
    requires n.NumberNode? && GoodNode(n) && At(t, o, NodeText(n)) && EndsWell(n, t, o + |NodeText(n)|)
    ensures o <= |t| && ParseNext(t, o, st) == Done(NodeValue(n), o + |NodeText(n)|, st)
  {
    hide StringToLong, GoodNumber, Signed;
    var s := NodeText(n);
    NumberReads(n.negative, n.digits, n.junk);
    NumberChars(n.negative, n.digits, n.junk);
    AtChar(t, o, s, 0);
    ScanOver(t, o, s);
    assert t[o..o + |s|] == s;
  }

  lemma StringNodeReads(t: string, o: nat, units: seq<Unit>, st: Status)
    requires GoodNode(StringNode(units)) && At(t, o, NodeText(StringNode(units)))
    ensures o <= |t| && ParseNext(t, o, st) == Done(NodeValue(StringNode(units)), o + |NodeText(StringNode(units))|, st)
  {
    hide ScanString, Classify, UnitsText, UnitsValue, GoodUnits;
    var body := UnitsText(units) + "\"";
    AtHead(t, o, '\"', body);
    UnitsRead(t, o + 1, units, "");
    assert "" + UnitsValue(units) == UnitsValue(units);
  }

  lemma Punctuation()
    ensures !IsSpace(',') && !IsSpace(':') && !IsSpace(']') && !IsSpace('}')
  {
  }

  /** White space, a node, white space and what comes next. */
  lemma {:induction false} SpacedReads(t: string, o: nat, before: string, n: Node, after: string, rest: string, st: Status)
    requires AllSpace(before) && GoodNode(n) && AllSpace(after) && rest != ""
    requires !IsSpace(rest[0]) && (n.NumberNode? ==> after != "" || rest[0] == ',' || rest[0] == ']' || rest[0] == '}')
    requires At(t, o, before + (NodeText(n) + (after + rest)))
    ensures var end := o + |before| + |NodeText(n)|;
            && o <= |t| && end <= |t| && ParseNext(t, o, st) == Done(NodeValue(n), end, st)
            && end + |after| < |t| && SkipSpace(t, end) == end + |after| && t[end + |after|] == rest[0] && At(t, end + |after|, rest)
    ensures SkipSpace(t, o) < |t| && t[SkipSpace(t, o)] == NodeText(n)[0]
    decreases n, 2
  {
    hide ParseNext, NodeText, NodeValue, GoodNode, At, SkipSpace, AllSpace;
    var r := NodeText(n);
    AtConcat(t, o, before, r + (after + rest));
    AtConcat(t, o + |before|, r, after + rest);
    var end := o + |before| + |r|;
    AtConcat(t, end, after, rest);
    AtChar(t, end + |after|, rest, 0);
    AfterEnds(t, end, n, after, rest);
    NodeFirst(n);
    AtChar(t, o + |before|, r, 0);
    SkipOver(t, o, before);
    SkipOver(t, end, after);
    NextSkips(t, o, o + |before|, st);
    NodeReads(t, o + |before|, n, st);
  }

  lemma AfterEnds(t: string, end: nat, n: Node, after: string, rest: string)
    requires AllSpace(after) && rest != "" && At(t, end, after) && At(t, end + |after|, rest)
    requires !IsSpace(rest[0]) && (n.NumberNode? ==> after != "" || rest[0] == ',' || rest[0] == ']' || rest[0] == '}')
    ensures EndsWell(n, t, end)
  {
    AtChar(t, end + |after|, rest, 0);
    if after != "" { AtChar(t, end, after, 0); }
  }

  /** What is written as a node, the parser reads as its value. */
  lemma {:induction false} NodeReads(t: string, o: nat, n: Node, st: Status)
    requires GoodNode(n) && At(t, o, NodeText(n)) && EndsWell(n, t, o + |NodeText(n)|)
    ensures o <= |t| && ParseNext(t, o, st) == Done(NodeValue(n), o + |NodeText(n)|, st)
    decreases n, 1
  {
    hide ParseNext, At, Filled, ElementValues, ElementsText, MembersText, UnitsText, UnitsValue, Classify, Signed, EndsWell;
    match n
    case WordNode(s) => WordReads(t, o, s, st);
    case NumberNode(_, _, _) => NumberNodeReads(t, o, n, st);
    case StringNode(units) => StringNodeReads(t, o, units, st);
    case ArrayNode(blank, items) => ArrayReads(t, o, blank, items, st);
    case ObjectNode(kind, blank, members) => ObjectReads(t, o, kind, blank, members, st);
  }

  lemma ElementsParts(es: seq<Element>)
    requires es != [] && GoodElements(es)
    ensures var e := es[0];
            && AllSpace(e.before) && GoodNode(e.node) && AllSpace(e.after) && GoodElements(es[1..])
            && ElementsText(es) == e.before + (NodeText(e.node) + e.after) + (if |es| == 1 then "" else "," + ElementsText(es[1..]))
            && ElementValues(es) == [NodeValue(e.node)] + ElementValues(es[1..])
            && (|es| == 1 ==> ElementValues(es[1..]) == [])
  {
    hide NodeText, NodeValue, GoodNode, AllSpace;
  }

  lemma RegroupTwo(a: string, b: string, c: string, more: string, rest: string)
    ensures a + (b + c) + more + rest == a + (b + (c + (more + rest)))
  {
  }

  lemma TextAfter(some: bool, more: string, rest: string)
    ensures (if some then "" else "," + more) + rest == if some then rest else "," + (more + rest)
  {
    assert "" + rest == rest;
  }

  lemma ElementsCons(es: seq<Element>, rest: string)
    requires es != [] && GoodElements(es)
    ensures var e := es[0];
            && AllSpace(e.before) && GoodNode(e.node) && AllSpace(e.after) && GoodElements(es[1..])
            && ElementsText(es) + rest
               == e.before + (NodeText(e.node) + (e.after + if |es| == 1 then rest else "," + (ElementsText(es[1..]) + rest)))
            && ElementValues(es) == [NodeValue(e.node)] + ElementValues(es[1..])
            && (|es| == 1 ==> ElementValues(es[1..]) == [])
  {
    hide *;
    var e, more := es[0], if |es| == 1 then "" else "," + ElementsText(es[1..]);
    ElementsParts(es);
    RegroupTwo(e.before, NodeText(e.node), e.after, more, rest);
    TextAfter(|es| == 1, ElementsText(es[1..]), rest);
  }

  /** One element: the last one, or one before a comma. */
  lemma {:induction false} ElementReads(t: string, o: nat, e: Element, rest: string, st: Status, acc: seq<Json>)
    requires AllSpace(e.before) && GoodNode(e.node) && AllSpace(e.after) && rest != "" && !IsSpace(rest[0])
    requires e.node.NumberNode? ==> e.after != "" || rest[0] == ',' || rest[0] == ']'
    requires At(t, o, e.before + (NodeText(e.node) + (e.after + rest)))
    ensures var end := o + |e.before| + |NodeText(e.node)| + |e.after|;
            && o <= |t| && end < |t| && At(t, end, rest)
            && ParseItems(t, o, st, acc)
               == if rest[0] == ']' then Done(Arr(acc + [NodeValue(e.node)]), end + 1, st)
                  else if rest[0] == ',' then ParseItems(t, end + 1, st, acc + [NodeValue(e.node)])
                  else Done(Arr([]), end, ArrayError)
    ensures SkipSpace(t, o) < |t| && t[SkipSpace(t, o)] != ']'
    decreases e, 3
  {
    hide *;
    SpacedReads(t, o, e.before, e.node, e.after, rest, st);
    NodeFirst(e.node);
    var o1 := o + |e.before| + |NodeText(e.node)|;
    ItemsStep(t, o, st, acc, NodeValue(e.node), o1, o1 + |e.after|);
  }

  lemma ElementsLength(es: seq<Element>)
    requires es != [] && GoodElements(es)
    ensures |ElementsText(es)| == |es[0].before| + |NodeText(es[0].node)| + |es[0].after| + if |es| == 1 then 0 else 1 + |ElementsText(es[1..])|
  {
    hide *;
    ElementsParts(es);
  }

  lemma {:induction false} ElementsRead(t: string, o: nat, es: seq<Element>, st: Status, acc: seq<Json>)
    requires es != [] && GoodElements(es) && At(t, o, ElementsText(es) + "]")
    ensures o <= |t| && ParseItems(t, o, st, acc) == Done(Arr(acc + ElementValues(es)), o + |ElementsText(es)| + 1, st)
    ensures SkipSpace(t, o) < |t| && t[SkipSpace(t, o)] != ']'
    decreases es, 0
  {
    hide *;
    var e, more := es[0], ElementsText(es[1..]) + "]";
    ElementsCons(es, "]");
    ElementsLength(es);
    var v, end := NodeValue(e.node), o + |e.before| + |NodeText(e.node)| + |e.after|;
    Punctuation();
    ElementReads(t, o, e, if |es| == 1 then "]" else "," + more, st, acc);
    ValuesGrow(acc, v, ElementValues(es[1..]));
    if |es| > 1 {
      AtHead(t, end, ',', more);
      ElementsRead(t, end + 1, es[1..], st, acc + [v]);
    }
  }

  lemma ValuesGrow(acc: seq<Json>, v: Json, rest: seq<Json>)
    ensures acc + [v] + rest == acc + ([v] + rest) && (rest == [] ==> acc + ([v] + rest) == acc + [v])
  {
  }

  lemma SkipTwice(t: string, o: nat)
    requires o <= |t|
    ensures SkipSpace(t, SkipSpace(t, o)) == SkipSpace(t, o)
  {
  }

  lemma ItemsSkip(t: string, o: nat, st: Status, acc: seq<Json>)
    requires o <= |t|
    ensures SkipSpace(t, SkipSpace(t, o)) == SkipSpace(t, o)
    ensures ParseItems(t, o, st, acc) == ParseItems(t, SkipSpace(t, o), st, acc)
  {
    hide ParseNext;
    SkipTwice(t, o);
    NextSkips(t, o, SkipSpace(t, o), st);
  }

  lemma ArrayTexts(blank: string, items: seq<Element>)
    requires GoodNode(ArrayNode(blank, items))
    ensures NodeText(ArrayNode(blank, items)) == "[" + (blank + (ElementsText(items) + "]"))
    ensures NodeValue(ArrayNode(blank, items)) == Arr(ElementValues(items)) && AllSpace(blank) && GoodElements(items)
    ensures items == [] ==> ElementsText(items) + "]" == "]" && ElementValues(items) == []
  {
    hide ElementsText, ElementValues, GoodElements;
    if items == [] { NoElements(); assert "" + "]" == "]"; }
  }

  lemma NoElements()
    ensures ElementsText([]) == "" && GoodElements([]) && ElementValues([]) == []
  {
  }

  lemma {:induction false} ArrayReads(t: string, o: nat, blank: string, items: seq<Element>, st: Status)
    requires GoodNode(ArrayNode(blank, items)) && At(t, o, NodeText(ArrayNode(blank, items)))
    ensures o <= |t| && ParseNext(t, o, st) == Done(NodeValue(ArrayNode(blank, items)), o + |NodeText(ArrayNode(blank, items))|, st)
    decreases items, 1
  {
    hide *;
    ArrayTexts(blank, items);
    AtHead(t, o, '[', blank + (ElementsText(items) + "]"));
    AtConcat(t, o + 1, blank, ElementsText(items) + "]");
    AtBounds(t, o + 1 + |blank|, ElementsText(items) + "]");
    SkipFront(t, o + 1, blank);
    var o1 := o + 1 + |blank|;
    if items == [] {
      EmptySpace();
      ElementFollows("", ']', "");
      assert "" + "]" == "]";
      CloseAt(t, o1, "", ']');
      ArrayStart(t, o, st, o1);
    } else {
      ElementsRead(t, o1, items, st, []);
      assert [] + ElementValues(items) == ElementValues(items);
      ArrayStart(t, o, st, SkipSpace(t, o1));
      ItemsSkip(t, o1, st, []);
    }
  }

  lemma MembersParts(ms: seq<Member>)
    requires ms != [] && GoodMembers(ms)
    ensures var m := ms[0];
            && AllSpace(m.before) && GoodNode(m.key) && AllSpace(m.toColon) && (m.key.NumberNode? ==> m.toColon != "")
            && AllSpace(m.fromColon) && GoodNode(m.node) && AllSpace(m.after) && GoodMembers(ms[1..])
            && MembersText(ms)
               == m.before + (NodeText(m.key) + (m.toColon + (":" + (m.fromColon + (NodeText(m.node) + m.after)))))
                  + (if |ms| == 1 then "" else "," + MembersText(ms[1..]))
  {
    hide NodeText, GoodNode, AllSpace;
  }

  lemma RegroupThree(a: string, b: string, c: string, rest: string)
    ensures a + (b + c) + rest == a + (b + (c + rest))
  {
  }

  lemma RegroupFive(a: string, k: string, b: string, colon: string, value: string, more: string, rest: string)
    ensures a + (k + (b + (colon + value))) + more + rest == a + (k + (b + (colon + (value + (more + rest)))))
  {
    RegroupTwo(a, k, b + (colon + value), more, rest);
    RegroupThree(b, colon, value, more + rest);
  }

  lemma MembersHead(ms: seq<Member>, rest: string)
    requires ms != [] && GoodMembers(ms)
    ensures var m := ms[0];
            var next := if |ms| == 1 then rest else "," + (MembersText(ms[1..]) + rest);
            && AllSpace(m.before) && GoodNode(m.key) && AllSpace(m.toColon) && (m.key.NumberNode? ==> m.toColon != "")
            && AllSpace(m.fromColon) && GoodNode(m.node) && AllSpace(m.after) && GoodMembers(ms[1..])
            && MembersText(ms) + rest
               == m.before + (NodeText(m.key) + (m.toColon + (":" + (m.fromColon + (NodeText(m.node) + (m.after + next))))))
  {
    hide *;
    var m, more := ms[0], if |ms| == 1 then "" else "," + MembersText(ms[1..]);
    MembersParts(ms);
    var value := m.fromColon + (NodeText(m.node) + m.after);
    TextAfter(|ms| == 1, MembersText(ms[1..]), rest);
    RegroupFive(m.before, NodeText(m.key), m.toColon, ":", value, more, rest);
    RegroupThree(m.fromColon, NodeText(m.node), m.after, more + rest);
  }

  lemma NameIsKey(v: Json)
    ensures ToString(v) == KeyName(v)
  {
  }

  lemma FilledCons(obj: Json, ms: seq<Member>)
    requires ms != [] && GoodMembers(ms) && (obj.Obj? || obj.Ordered?)
    ensures var obj' := SetMember(obj, KeyName(NodeValue(ms[0].key)), NodeValue(ms[0].node));
            && (obj'.Obj? || obj'.Ordered?) && Filled(obj, ms) == Filled(obj', ms[1..])
            && (|ms| == 1 ==> Filled(obj, ms) == obj')
  {
    hide NodeValue, KeyName, SetMember, GoodNode;
  }

  /** One member up to what follows it, which is a comma or the closing brace. */
  lemma {:induction false} MemberReads(t: string, o: nat, m: Member, next: string, st: Status, obj: Json)
    requires AllSpace(m.before) && GoodNode(m.key) && AllSpace(m.toColon) && (m.key.NumberNode? ==> m.toColon != "")
    requires AllSpace(m.fromColon) && GoodNode(m.node) && AllSpace(m.after)
    requires next != "" && !IsSpace(next[0]) && (m.node.NumberNode? ==> m.after != "" || next[0] == ',' || next[0] == '}')
    requires obj.Obj? || obj.Ordered?
    requires At(t, o, m.before + (NodeText(m.key) + (m.toColon + (":" + (m.fromColon + (NodeText(m.node) + (m.after + next)))))))
    ensures var o2 := o + |m.before| + |NodeText(m.key)| + |m.toColon| + 1 + |m.fromColon| + |NodeText(m.node)|;
            && o <= |t| && o2 + |m.after| < |t| && SkipSpace(t, o2) == o2 + |m.after| && t[o2 + |m.after|] == next[0]
            && At(t, o2 + |m.after|, next)
            && ParseMember(t, o, st, obj) == AfterMember(t, o2, st, SetMember(obj, KeyName(NodeValue(m.key)), NodeValue(m.node)))
    ensures SkipSpace(t, o) < |t| && t[SkipSpace(t, o)] != '}'
    decreases m, 3
  {
    hide *;
    var value := m.fromColon + (NodeText(m.node) + (m.after + next));
    Punctuation();
    SpacedReads(t, o, m.before, m.key, m.toColon, ":" + value, st);
    NodeFirst(m.key);
    var o1 := o + |m.before| + |NodeText(m.key)|;
    var colon := o1 + |m.toColon|;
    AtHead(t, colon, ':', value);
    SpacedReads(t, colon + 1, m.fromColon, m.node, m.after, next, st);
    var begin, o2 := SkipSpace(t, colon + 1), colon + 1 + |m.fromColon| + |NodeText(m.node)|;
    NextSkips(t, colon + 1, begin, st);
    NameIsKey(NodeValue(m.key));
    MemberStep(t, o, st, obj, NodeValue(m.key), o1, colon, begin, NodeValue(m.node), o2);
  }

  /** The same of the loop over members. */
  lemma {:induction false} MemberDone(t: string, o: nat, m: Member, next: string, st: Status, obj: Json) returns (end: nat, obj': Json)
    requires AllSpace(m.before) && GoodNode(m.key) && AllSpace(m.toColon) && (m.key.NumberNode? ==> m.toColon != "")
    requires AllSpace(m.fromColon) && GoodNode(m.node) && AllSpace(m.after)
    requires next != "" && !IsSpace(next[0]) && (m.node.NumberNode? ==> m.after != "" || next[0] == ',' || next[0] == '}')
    requires obj.Obj? || obj.Ordered?
    requires At(t, o, m.before + (NodeText(m.key) + (m.toColon + (":" + (m.fromColon + (NodeText(m.node) + (m.after + next)))))))
    ensures end == o + |m.before| + |NodeText(m.key)| + |m.toColon| + 1 + |m.fromColon| + |NodeText(m.node)| + |m.after|
    ensures obj' == SetMember(obj, KeyName(NodeValue(m.key)), NodeValue(m.node)) && (obj'.Obj? || obj'.Ordered?)
    ensures o <= |t| && end < |t| && At(t, end, next)
    ensures ParseMembers(t, o, st, obj)
         == if next[0] == ',' then ParseMembers(t, end + 1, st, obj')
            else if next[0] == '}' then Done(obj', end + 1, st) else Done(obj', end, ObjectError)
    ensures SkipSpace(t, o) < |t| && t[SkipSpace(t, o)] != '}'
    decreases m, 4
  {
    hide *;
    MemberReads(t, o, m, next, st, obj);
    end := o + |m.before| + |NodeText(m.key)| + |m.toColon| + 1 + |m.fromColon| + |NodeText(m.node)| + |m.after|;
    obj' := SetMember(obj, KeyName(NodeValue(m.key)), NodeValue(m.node));
    MembersStep(t, o, st, obj, obj', end - |m.after|, end);
  }

  lemma MembersLength(ms: seq<Member>)
    requires ms != [] && GoodMembers(ms)
    ensures var m := ms[0];
            |MembersText(ms)| == |m.before| + |NodeText(m.key)| + |m.toColon| + 1 + |m.fromColon| + |NodeText(m.node)| + |m.after|
                                 + if |ms| == 1 then 0 else 1 + |MembersText(ms[1..])|
  {
    hide *;
    MembersParts(ms);
  }

  /** The first of some members: the last one, or one before a comma and the others. */
  lemma {:induction false} FirstMember(t: string, o: nat, ms: seq<Member>, rest: string, st: Status, obj: Json) returns (end: nat, obj': Json)
    requires ms != [] && GoodMembers(ms) && At(t, o, MembersText(ms) + rest) && (obj.Obj? || obj.Ordered?)
    requires rest != "" && !IsSpace(rest[0])
    requires |ms| == 1 && ms[0].node.NumberNode? ==> ms[0].after != "" || rest[0] == ',' || rest[0] == '}'
    ensures GoodMembers(ms[1..]) && (obj'.Obj? || obj'.Ordered?) && Filled(obj, ms) == Filled(obj', ms[1..])
    ensures |ms| == 1 ==> Filled(obj, ms) == obj'
    ensures end + (if |ms| == 1 then 0 else 1 + |MembersText(ms[1..])|) == o + |MembersText(ms)|
    ensures o <= |t| && end < |t|
    ensures |ms| == 1 ==> At(t, end, rest)
    ensures |ms| > 1 ==> At(t, end + 1, MembersText(ms[1..]) + rest)
    ensures ParseMembers(t, o, st, obj)
         == if |ms| > 1 || rest[0] == ',' then ParseMembers(t, end + 1, st, obj')
            else if rest[0] == '}' then Done(obj', end + 1, st) else Done(obj', end, ObjectError)
    ensures SkipSpace(t, o) < |t| && t[SkipSpace(t, o)] != '}'
    decreases ms, 0
  {
    hide *;
    var more := MembersText(ms[1..]) + rest;
    MembersHead(ms, rest);
    FilledCons(obj, ms);
    MembersLength(ms);
    Punctuation();
    end, obj' := MemberDone(t, o, ms[0], if |ms| == 1 then rest else "," + more, st, obj);
    if |ms| > 1 { AtHead(t, end, ',', more); }
  }

  lemma {:induction false} MembersRead(t: string, o: nat, ms: seq<Member>, st: Status, obj: Json)
    requires ms != [] && GoodMembers(ms) && At(t, o, MembersText(ms) + "}") && (obj.Obj? || obj.Ordered?)
    ensures o <= |t| && ParseMembers(t, o, st, obj) == Done(Filled(obj, ms), o + |MembersText(ms)| + 1, st)
    ensures SkipSpace(t, o) < |t| && t[SkipSpace(t, o)] != '}'
    decreases ms, 1
  {
    hide *;
    Punctuation();
    var end, obj' := FirstMember(t, o, ms, "}", st, obj);
    if |ms| > 1 { MembersRead(t, end + 1, ms[1..], st, obj'); }
  }

  lemma MembersSkip(t: string, o: nat, st: Status, obj: Json)
    requires o <= |t| && (obj.Obj? || obj.Ordered?)
    ensures SkipSpace(t, SkipSpace(t, o)) == SkipSpace(t, o)
    ensures ParseMembers(t, o, st, obj) == ParseMembers(t, SkipSpace(t, o), st, obj)
  {
    hide ParseNext, AfterMember, SetMember, ToString;
    SkipTwice(t, o);
    NextSkips(t, o, SkipSpace(t, o), st);
  }

  function MarkerOf(kind: Kind): string {
    if kind.Fio? then "fio" else if kind.Flat? then "flat" else ""
  }

  function NewObject(kind: Kind): (r: Json)
    ensures r.Obj? || r.Ordered?
  {
    if kind.Plain? then Obj([]) else Ordered(kind.Flat?, Maps(map[], []))
  }

  lemma ObjectTexts(kind: Kind, blank: string, members: seq<Member>)
    requires GoodNode(ObjectNode(kind, blank, members))
    ensures NodeText(ObjectNode(kind, blank, members)) == "{" + (MarkerOf(kind) + (blank + (MembersText(members) + "}")))
    ensures GoodMembers(members) && NodeValue(ObjectNode(kind, blank, members)) == Filled(NewObject(kind), members)
    ensures !kind.Items? && AllSpace(blank) && NewObject(kind) == New(kind)
    ensures members == [] ==> MembersText(members) + "}" == "}" && Filled(NewObject(kind), members) == NewObject(kind)
  {
    hide MembersText, GoodMembers, Filled;
    if members == [] { NoMembers(NewObject(kind)); assert "" + "}" == "}"; }
  }

  lemma NoMembers(obj: Json)
    requires obj.Obj? || obj.Ordered?
    ensures MembersText([]) == "" && GoodMembers([]) && Filled(obj, []) == obj
  {
  }

  /** The marker is the kind's and no other. */
  lemma MarkerReads(t: string, o: nat, kind: Kind, blank: string, members: seq<Member>)
    requires !kind.Items? && AllSpace(blank) && GoodMembers(members)
    requires At(t, o, MarkerOf(kind) + (blank + (MembersText(members) + "}")))
    ensures ObjectKind(t, o) == kind && MarkerLength(kind) == |MarkerOf(kind)|
    ensures At(t, o + |MarkerOf(kind)|, blank + (MembersText(members) + "}"))
  {
    hide AllSpace, GoodMembers, MembersText;
    var rest := blank + (MembersText(members) + "}");
    AtConcat(t, o, MarkerOf(kind), rest);
    MarkerChars(t, o);
    if kind.Plain? {
      NoMarker(blank, members);
      AtFront(t, o, rest);
    } else {
      AtFront(t, o, MarkerOf(kind));
    }
  }

  lemma MarkerChars(t: string, o: nat)
    ensures At(t, o, "fio") ==> o + 1 < |t| && t[o] == 'f' && t[o + 1] == 'i'
    ensures At(t, o, "flat") ==> o + 1 < |t| && t[o] == 'f' && t[o + 1] == 'l'
  {
    if At(t, o, "fio") { AtFront(t, o, "fio"); }
    if At(t, o, "flat") { AtFront(t, o, "flat"); }
  }

  lemma AtFront(t: string, o: nat, s: string)
    requires At(t, o, s)
    ensures |s| > 0 ==> o < |t| && t[o] == s[0]
    ensures |s| > 1 ==> o + 1 < |t| && t[o + 1] == s[1]
  {
    if |s| > 0 { AtChar(t, o, s, 0); }
    if |s| > 1 { AtChar(t, o, s, 1); }
  }

  lemma NoMarker(blank: string, members: seq<Member>)
    requires AllSpace(blank) && GoodMembers(members)
    ensures var rest := blank + (MembersText(members) + "}");
            rest != "" && (rest[0] == 'f' ==> |rest| > 1 && rest[1] == 'a')
  {
    var rest := blank + (MembersText(members) + "}");
    if blank == "" && members != [] {
      var m := members[0];
      MembersHead(members, "}");
      NodeFirst(m.key);
      if m.before == "" { KeyFirst(m.key); }
    }
  }

  lemma KeyFirst(n: Node)
    requires GoodNode(n)
    ensures NodeText(n) != "" && (NodeText(n)[0] == 'f' ==> |NodeText(n)| > 1 && NodeText(n)[1] == 'a')
  {
    hide GoodNumber, ElementsText, MembersText, UnitsText;
    if n.NumberNode? { NumberChars(n.negative, n.digits, n.junk); }
  }

  /** From the brace to where the members begin, or to the closing brace. */
  lemma ObjectOpens(t: string, o: nat, kind: Kind, blank: string, members: seq<Member>, st: Status) returns (o1: nat)
    requires GoodNode(ObjectNode(kind, blank, members)) && At(t, o, NodeText(ObjectNode(kind, blank, members)))
    ensures o1 == o + 1 + |MarkerOf(kind)| + |blank| <= |t| && At(t, o1, MembersText(members) + "}")
    ensures SkipSpace(t, o1) < |t| ==>
              ParseNext(t, o, st)
              == if t[SkipSpace(t, o1)] == '}' then Done(NewObject(kind), SkipSpace(t, o1) + 1, st)
                 else ParseMembers(t, o1, st, NewObject(kind))
  {
    hide *;
    ObjectTexts(kind, blank, members);
    var rest := MembersText(members) + "}";
    AtHead(t, o, '{', MarkerOf(kind) + (blank + rest));
    MarkerReads(t, o + 1, kind, blank, members);
    var o0 := o + 1 + |MarkerOf(kind)|;
    AtConcat(t, o0, blank, rest);
    SkipFront(t, o0, blank);
    o1 := o0 + |blank|;
    if SkipSpace(t, o1) < |t| { ObjectStart(t, o, st, kind, SkipSpace(t, o1)); }
    MembersSkip(t, o1, st, NewObject(kind));
  }

  lemma ObjectLength(kind: Kind, blank: string, members: seq<Member>)
    requires GoodNode(ObjectNode(kind, blank, members))
    ensures |NodeText(ObjectNode(kind, blank, members))| == 1 + |MarkerOf(kind)| + |blank| + |MembersText(members)| + 1
  {
    hide *;
    ObjectTexts(kind, blank, members);
  }

  lemma {:induction false} ObjectReads(t: string, o: nat, kind: Kind, blank: string, members: seq<Member>, st: Status)
    requires GoodNode(ObjectNode(kind, blank, members)) && At(t, o, NodeText(ObjectNode(kind, blank, members)))
    ensures o <= |t| && ParseNext(t, o, st)
         == Done(NodeValue(ObjectNode(kind, blank, members)), o + |NodeText(ObjectNode(kind, blank, members))|, st)
    decreases members, 2
  {
    hide *;
    ObjectTexts(kind, blank, members);
    ObjectLength(kind, blank, members);
    var o1 := ObjectOpens(t, o, kind, blank, members, st);
    if members == [] {
      EmptySpace();
      Punctuation();
      NoMembers(NewObject(kind));
      CloseAt(t, o1, "", '}');
    } else {
      MembersRead(t, o1, members, st, NewObject(kind));
    }
  }

  // ---------------------------------------------------------------- an error is not forgotten

  ghost predicate Fine(r: Outcome<Json>) { r.Done? && r.status.Success? }

  lemma {:induction false} NextSticks(t: string, o: nat, st: Status)
    requires o <= |t| && !st.Success?
    ensures !Fine(ParseNext(t, o, st))
    decreases |t| - o, 3
  {
    hide ParseArray, ParseObject, ScanString, Classify, StringToLong;
    var b := SkipSpace(t, o);
    if b < |t| && t[b] == '[' {
      ArraySticks(t, b, st);
    } else if b < |t| && t[b] == '{' {
      ObjectSticks(t, b, st);
    }
  }

  lemma {:induction false} ArraySticks(t: string, b: nat, st: Status)
    requires b < |t| && !st.Success?
    ensures !Fine(ParseArray(t, b, st))
    decreases |t| - b, 2
  {
    hide ParseItems;
    var first := SkipSpace(t, b + 1);
    if first < |t| { ItemsStick(t, first, st, []); }
  }

  lemma {:induction false} ObjectSticks(t: string, b: nat, st: Status)
    requires b < |t| && !st.Success?
    ensures !Fine(ParseObject(t, b, st))
    decreases |t| - b, 2
  {
    hide ParseMembers, ObjectKind;
    var kind := ObjectKind(t, b + 1);
    ObjectBegins(t, b, kind);
    var first := SkipSpace(t, b + 1 + MarkerLength(kind));
    if first < |t| { MembersStick(t, first, st, New(kind)); }
  }

  lemma ObjectBegins(t: string, b: nat, kind: Kind)
    requires b < |t| && kind == ObjectKind(t, b + 1)
    ensures b + 1 + MarkerLength(kind) <= |t| && (New(kind).Obj? || New(kind).Ordered?) && !kind.Items?
  {
  }

  /** What items come to after a first one that was read with an error. */
  lemma ItemsCases(t: string, o: nat, st: Status, acc: seq<Json>)
    requires o <= |t| && !Fine(ParseNext(t, o, st))
    ensures var (r, all) := (ParseNext(t, o, st), ParseItems(t, o, st, acc));
            if r.Done? && SkipSpace(t, r.offset) < |t| && t[SkipSpace(t, r.offset)] == ',' then
              !r.status.Success? && o < SkipSpace(t, r.offset) + 1 && all == ParseItems(t, SkipSpace(t, r.offset) + 1, r.status, acc + [r.val])
            else !Fine(all)
  {
    hide ParseNext;
  }

  lemma {:induction false} ItemsStick(t: string, o: nat, st: Status, acc: seq<Json>)
    requires o <= |t| && !st.Success?
    ensures !Fine(ParseItems(t, o, st, acc))
    decreases |t| - o, 4
  {
    hide *;
    NextSticks(t, o, st);
    ItemsCases(t, o, st, acc);
    var r := ParseNext(t, o, st);
    if r.Done? && SkipSpace(t, r.offset) < |t| && t[SkipSpace(t, r.offset)] == ',' {
      ItemsStick(t, SkipSpace(t, r.offset) + 1, r.status, acc + [r.val]);
    }
  }

  lemma {:induction false} MembersStick(t: string, o: nat, st: Status, obj: Json)
    requires o <= |t| && !st.Success? && (obj.Obj? || obj.Ordered?)
    ensures !Fine(ParseMembers(t, o, st, obj))
    decreases |t| - o, 5
  {
    hide ParseMember;
    MemberSticks(t, o, st, obj);
    var r := ParseMember(t, o, st, obj);
    if r.More? { MembersStick(t, r.offset, r.status, r.obj); }
  }

  ghost predicate StepFine(r: Step) { if r.More? then r.status.Success? else Fine(r.result) }

  /** A member is only read without an error if its value is, with the status its key left. */
  lemma MemberCases(t: string, o: nat, st: Status, obj: Json)
    requires o <= |t| && (obj.Obj? || obj.Ordered?)
    ensures var key := ParseNext(t, o, st);
            if key.Done? && SkipSpace(t, key.offset) < |t| && t[SkipSpace(t, key.offset)] == ':'
               && SkipSpace(t, SkipSpace(t, key.offset) + 1) < |t| then
              StepFine(ParseMember(t, o, st, obj)) ==> Fine(ParseNext(t, SkipSpace(t, SkipSpace(t, key.offset) + 1), key.status))
            else !StepFine(ParseMember(t, o, st, obj))
  {
    hide ParseNext, SetMember, ToString;
  }

  lemma {:induction false} MemberSticks(t: string, o: nat, st: Status, obj: Json)
    requires o <= |t| && !st.Success? && (obj.Obj? || obj.Ordered?)
    ensures !StepFine(ParseMember(t, o, st, obj))
    decreases |t| - o, 4
  {
    hide *;
    NextSticks(t, o, st);
    MemberCases(t, o, st, obj);
    var key := ParseNext(t, o, st);
    if key.Done? && SkipSpace(t, key.offset) < |t| && t[SkipSpace(t, key.offset)] == ':'
       && SkipSpace(t, SkipSpace(t, key.offset) + 1) < |t| {
      NotFine(key);
      NextSticks(t, SkipSpace(t, SkipSpace(t, key.offset) + 1), key.status);
    }
  }

  lemma NotFine(r: Outcome<Json>)
    requires r.Done?
    ensures Fine(r) <==> r.status.Success?
  {
  }

  /** So what was read without an error was begun without one. */
  lemma FineStarts(t: string, o: nat, st: Status)
    requires o <= |t|
    ensures Fine(ParseNext(t, o, st)) ==> st.Success?
  {
    if !st.Success? { NextSticks(t, o, st); }
  }

  // ---------------------------------------------------------------- what the parser reads, the grammar has

  /** White space and a node, where the parser succeeds. */
  lemma {:induction false} NextOf(t: string, o: nat) returns (ws: string, n: Node)
    requires o <= |t| && Fine(ParseNext(t, o, Success))
    ensures Stands(t, o, ws, n, ParseNext(t, o, Success).offset)
    ensures ParseNext(t, o, Success).val == NodeValue(n)
    decreases |t| - o, 2
  {
    hide ParseNext, At, SkipSpace, NodeText, NodeValue, GoodNode, AllSpace, EndsWell;
    ws := Skipped(t, o);
    var b := o + |ws|;
    SkipTwice(t, o);
    NextSkips(t, o, b, Success);
    n := NodeOf(t, b);
    AtJoin(t, o, ws, NodeText(n));
  }

  lemma {:induction false} NodeOf(t: string, b: nat) returns (n: Node)
    requires b <= |t| && SkipSpace(t, b) == b && Fine(ParseNext(t, b, Success))
    ensures var r := ParseNext(t, b, Success);
            && GoodNode(n) && At(t, b, NodeText(n)) && r.offset == b + |NodeText(n)| && r.val == NodeValue(n) && EndsWell(n, t, r.offset)
    decreases |t| - b, 1
  {
    hide ParseArray, ParseObject, ParseString, ParseNumber, ParseBool, ParseNull, At, NodeText, NodeValue, GoodNode;
    if t[b] == '[' {
      n := ArrayOf(t, b);
    } else if t[b] == '{' {
      n := ObjectOf(t, b);
    } else if t[b] == '\"' {
      n := StringOf(t, b);
    } else if t[b] == 't' || t[b] == 'f' || t[b] == 'n' {
      n := WordOf(t, b);
    } else {
      n := NumberNodeOf(t, b);
    }
  }

  lemma WordOf(t: string, b: nat) returns (n: Node)
    requires b < |t| && (t[b] == 't' || t[b] == 'f' || t[b] == 'n')
    requires Fine(if t[b] == 'n' then ParseNull(t, b, Success) else ParseBool(t, b, Success))
    ensures var r := if t[b] == 'n' then ParseNull(t, b, Success) else ParseBool(t, b, Success);
            && GoodNode(n) && At(t, b, NodeText(n)) && r.offset == b + |NodeText(n)| && r.val == NodeValue(n) && n.WordNode?
  {
    hide At;
    n := WordNode(if t[b] == 'n' then Null else Bool(At(t, b, "true")));
  }

  lemma StringOf(t: string, b: nat) returns (n: Node)
    requires b < |t| && t[b] == '\"' && Fine(ParseString(t, b, Success))
    ensures var r := ParseString(t, b, Success);
            && GoodNode(n) && At(t, b, NodeText(n)) && r.offset == b + |NodeText(n)| && r.val == NodeValue(n) && n.StringNode?
  {
    hide ScanString, Classify, UnitsText, UnitsValue, GoodUnits, At;
    var us := UnitsOf(t, b + 1, "");
    UnitsRead(t, b + 1, us, "");
    assert "" + UnitsValue(us) == UnitsValue(us);
    AtOne(t, b, '\"');
    AtJoin(t, b, "\"", UnitsText(us) + "\"");
    n := StringNode(us);
  }

  lemma NumberNodeOf(t: string, b: nat) returns (n: Node)
    requires b < |t| && Fine(ParseNumber(t, b, Success))
    ensures var r := ParseNumber(t, b, Success);
            && GoodNode(n) && At(t, b, NodeText(n)) && r.offset == b + |NodeText(n)| && r.val == NodeValue(n) && EndsWell(n, t, r.offset)
  {
    hide StringToLong, GoodNumber, Signed;
    var e := ScanNumber(t, b);
    var s := t[b..e];
    AtSlice(t, b, e);
    var negative, digits, junk := NumberOf(s, StringToLong(s).n);
    n := NumberNode(negative, digits, junk);
  }

  lemma ItemsStart(t: string, o: nat, st: Status, acc: seq<Json>)
    requires o <= |t|
    ensures Fine(ParseItems(t, o, st, acc)) ==> st.Success?
  {
    if !st.Success? { ItemsStick(t, o, st, acc); }
  }

  lemma ItemsBegins(t: string, o: nat, acc: seq<Json>)
    requires o <= |t| && Fine(ParseItems(t, o, Success, acc))
    ensures var r := ParseNext(t, o, Success);
            && Fine(r) && r.offset <= |t| && SkipSpace(t, r.offset) < |t|
            && var end := SkipSpace(t, r.offset);
               && (t[end] == ',' || t[end] == ']')
               && ParseItems(t, o, Success, acc)
                  == if t[end] == ',' then ParseItems(t, end + 1, Success, acc + [r.val]) else Done(Arr(acc + [r.val]), end + 1, Success)
  {
    hide ParseNext;
    var r := ParseNext(t, o, Success);
    if r.Done? {
      var end := SkipSpace(t, r.offset);
      if end < |t| && t[end] == ',' { ItemsStart(t, end + 1, r.status, acc + [r.val]); }
    }
  }

  lemma ElementsMade(t: string, o: nat, e: Element, es: seq<Element>)
    requires AllSpace(e.before) && GoodNode(e.node) && AllSpace(e.after) && GoodElements(es)
    requires At(t, o, e.before + NodeText(e.node))
    requires At(t, o + |e.before| + |NodeText(e.node)|, e.after)
    requires var end := o + |e.before| + |NodeText(e.node)| + |e.after|;
             if es == [] then At(t, end, "]") else At(t, end, "," + (ElementsText(es) + "]"))
    ensures GoodElements([e] + es) && At(t, o, ElementsText([e] + es) + "]")
    ensures |ElementsText([e] + es)| == |e.before| + |NodeText(e.node)| + |e.after| + if es == [] then 0 else 1 + |ElementsText(es)|
    ensures ElementValues([e] + es) == [NodeValue(e.node)] + ElementValues(es)
  {
    hide *;
    var all, next := [e] + es, if es == [] then "]" else "," + (ElementsText(es) + "]");
    GoodCons(e, es);
    ElementsCons(all, "]");
    var o1 := o + |e.before| + |NodeText(e.node)|;
    AtJoin(t, o1, e.after, next);
    AtJoin(t, o, e.before + NodeText(e.node), e.after + next);
    RegroupThree("", e.before, NodeText(e.node), e.after + next);
    assert e.before + NodeText(e.node) + (e.after + next) == e.before + (NodeText(e.node) + (e.after + next));
    assert all[1..] == es;
  }

  lemma GoodCons(e: Element, es: seq<Element>)
    requires AllSpace(e.before) && GoodNode(e.node) && AllSpace(e.after) && GoodElements(es)
    ensures GoodElements([e] + es)
  {
    assert ([e] + es)[1..] == es;
  }

  lemma {:induction false} ElementsOf(t: string, o: nat, acc: seq<Json>) returns (es: seq<Element>)
    requires o <= |t| && Fine(ParseItems(t, o, Success, acc))
    ensures es != [] && GoodElements(es) && At(t, o, ElementsText(es) + "]")
    ensures ParseItems(t, o, Success, acc) == Done(Arr(acc + ElementValues(es)), o + |ElementsText(es)| + 1, Success)
    decreases |t| - o, 3
  {
    hide *;
    ItemsBegins(t, o, acc);
    FineDone(ParseItems(t, o, Success, acc), ParseNext(t, o, Success));
    var ws, n := NextOf(t, o);
    var o1 := ParseNext(t, o, Success).offset;
    StandsParts(t, o, ws, n, o1);
    var v := NodeValue(n);
    var after := Skipped(t, o1);
    var e, end := Element(ws, n, after), o1 + |after|;
    AtOne(t, end, t[end]);
    if t[end] == ',' {
      var rest := ElementsOf(t, end + 1, acc + [v]);
      AtJoin(t, end, ",", ElementsText(rest) + "]");
      ElementsMade(t, o, e, rest);
      es := [e] + rest;
      assert acc + [v] + ElementValues(rest) == acc + ([v] + ElementValues(rest));
    } else {
      NoElements();
      ElementsMade(t, o, e, []);
      es := [e] + [];
      assert [v] + [] == [v];
    }
  }

  lemma FineDone(r: Outcome<Json>, r': Outcome<Json>)
    requires Fine(r) && Fine(r')
    ensures r.Done? && r.status.Success? && r'.Done? && r'.status.Success?
  {
  }

  lemma StandsParts(t: string, o: nat, ws: string, n: Node, end: nat)
    requires Stands(t, o, ws, n, end)
    ensures AllSpace(ws) && GoodNode(n) && At(t, o, ws + NodeText(n)) && end == o + |ws| + |NodeText(n)| <= |t| && EndsWell(n, t, end)
  {
  }

  lemma ArrayBegins(t: string, b: nat)
    requires b < |t| && Fine(ParseArray(t, b, Success))
    ensures var first := SkipSpace(t, b + 1);
            && first < |t|
            && ParseArray(t, b, Success) == if t[first] == ']' then Done(Arr([]), first + 1, Success) else ParseItems(t, first, Success, [])
  {
    hide ParseItems;
  }

  lemma {:induction false} ArrayOf(t: string, b: nat) returns (n: Node)
    requires b < |t| && t[b] == '[' && Fine(ParseArray(t, b, Success))
    ensures var r := ParseArray(t, b, Success);
            && GoodNode(n) && At(t, b, NodeText(n)) && r.offset == b + |NodeText(n)| && r.val == NodeValue(n) && n.ArrayNode?
    decreases |t| - b, 0
  {
    hide *;
    ArrayBegins(t, b);
    var blank := Skipped(t, b + 1);
    var first := b + 1 + |blank|;
    var items: seq<Element> := [];
    NoElements();
    AtOne(t, first, t[first]);
    if t[first] == ']' {
      assert "" + "]" == "]";
    } else {
      items := ElementsOf(t, first, []);
      assert [] + ElementValues(items) == ElementValues(items);
    }
    AtOne(t, b, '[');
    AtJoin(t, first - |blank|, blank, ElementsText(items) + "]");
    AtJoin(t, b, "[", blank + (ElementsText(items) + "]"));
    n := ArrayNode(blank, items);
    ArrayIsGood(blank, items);
    ArrayTexts(blank, items);
  }

  lemma ArrayIsGood(blank: string, items: seq<Element>)
    requires AllSpace(blank) && GoodElements(items)
    ensures GoodNode(ArrayNode(blank, items))
  {
  }

  /** The offsets inside a member that the parser accepts. */
  datatype Stops = Stops(colon: nat, begin: nat, end: nat)

  ghost predicate MemberAt(t: string, o: nat, obj: Json, at: Stops)
    requires o <= |t| && (obj.Obj? || obj.Ordered?)
  {
    var key := ParseNext(t, o, Success);
    && Fine(key) && key.offset <= |t| && at.colon == SkipSpace(t, key.offset) < |t| && t[at.colon] == ':'
    && at.begin == SkipSpace(t, at.colon + 1) < |t|
    && var value := ParseNext(t, at.begin, Success);
       && Fine(value) && value.offset <= |t| && at.end == SkipSpace(t, value.offset) < |t|
       && (t[at.end] == ',' || t[at.end] == '}')
       && var obj' := SetMember(obj, ToString(key.val), value.val);
          ParseMembers(t, o, Success, obj)
          == if t[at.end] == ',' then ParseMembers(t, at.end + 1, Success, obj') else Done(obj', at.end + 1, Success)
  }

  lemma KeyBegins(t: string, o: nat, obj: Json) returns (colon: nat, begin: nat)
    requires o <= |t| && (obj.Obj? || obj.Ordered?) && Fine(ParseMembers(t, o, Success, obj))
    ensures var key := ParseNext(t, o, Success);
            && Fine(key) && key.offset <= |t| && colon == SkipSpace(t, key.offset) < |t| && t[colon] == ':'
            && begin == SkipSpace(t, colon + 1) < |t|
            && Fine(ParseNext(t, begin, Success))
            && ParseMember(t, o, Success, obj)
               == AfterMember(t, ParseNext(t, begin, Success).offset, Success, SetMember(obj, ToString(key.val), ParseNext(t, begin, Success).val))
  {
    hide ParseNext, AfterMember, SetMember, ToString;
    var key := ParseNext(t, o, Success);
    MembersFine(t, o, obj);
    KeyFine(t, o, obj);
    colon := SkipSpace(t, key.offset);
    begin := SkipSpace(t, colon + 1);
  }

  lemma MembersFine(t: string, o: nat, obj: Json)
    requires o <= |t| && (obj.Obj? || obj.Ordered?) && Fine(ParseMembers(t, o, Success, obj))
    ensures StepFine(ParseMember(t, o, Success, obj))
  {
    hide ParseMember;
    var r := ParseMember(t, o, Success, obj);
    if r.More? && !r.status.Success? { MembersStick(t, r.offset, r.status, r.obj); }
  }

  /** Neither the key nor the value was read with an error. */
  lemma KeyFine(t: string, o: nat, obj: Json)
    requires o <= |t| && (obj.Obj? || obj.Ordered?) && StepFine(ParseMember(t, o, Success, obj))
    ensures var key := ParseNext(t, o, Success);
            && Fine(key) && key.offset <= |t| && SkipSpace(t, key.offset) < |t| && t[SkipSpace(t, key.offset)] == ':'
            && SkipSpace(t, SkipSpace(t, key.offset) + 1) < |t|
            && Fine(ParseNext(t, SkipSpace(t, SkipSpace(t, key.offset) + 1), Success))
  {
    hide *;
    MemberCases(t, o, Success, obj);
    var key := ParseNext(t, o, Success);
    NotFine(key);
    FineStarts(t, SkipSpace(t, SkipSpace(t, key.offset) + 1), key.status);
  }

  lemma MemberBegins(t: string, o: nat, obj: Json) returns (at: Stops)
    requires o <= |t| && (obj.Obj? || obj.Ordered?) && Fine(ParseMembers(t, o, Success, obj))
    ensures MemberAt(t, o, obj, at)
  {
    hide ParseNext, ParseMember, SetMember, ToString;
    var colon, begin := KeyBegins(t, o, obj);
    MembersFine(t, o, obj);
    at := Stops(colon, begin, SkipSpace(t, ParseNext(t, begin, Success).offset));
  }

  lemma MembersMade(t: string, o: nat, m: Member, ms: seq<Member>)
    requires AllSpace(m.before) && GoodNode(m.key) && AllSpace(m.toColon) && (m.key.NumberNode? ==> m.toColon != "")
    requires AllSpace(m.fromColon) && GoodNode(m.node) && AllSpace(m.after) && GoodMembers(ms)
    requires var o1 := o + |m.before| + |NodeText(m.key)|;
             var colon := o1 + |m.toColon|;
             var o2 := colon + 1 + |m.fromColon| + |NodeText(m.node)|;
             && At(t, o, m.before + NodeText(m.key)) && At(t, o1, m.toColon) && At(t, colon, ":")
             && At(t, colon + 1, m.fromColon + NodeText(m.node)) && At(t, o2, m.after)
             && if ms == [] then At(t, o2 + |m.after|, "}") else At(t, o2 + |m.after|, "," + (MembersText(ms) + "}"))
    ensures GoodMembers([m] + ms) && At(t, o, MembersText([m] + ms) + "}")
    ensures |MembersText([m] + ms)| == |m.before| + |NodeText(m.key)| + |m.toColon| + 1 + |m.fromColon| + |NodeText(m.node)| + |m.after|
                                       + if ms == [] then 0 else 1 + |MembersText(ms)|
  {
    hide *;
    var all, next := [m] + ms, if ms == [] then "}" else "," + (MembersText(ms) + "}");
    GoodMember(m, ms);
    assert all[1..] == ms;
    MembersHead(all, "}");
    MembersLength(all);
    var o1 := o + |m.before| + |NodeText(m.key)|;
    var colon := o1 + |m.toColon|;
    var o2 := colon + 1 + |m.fromColon| + |NodeText(m.node)|;
    AtJoin(t, o2, m.after, next);
    Reach(t, colon + 1, m.fromColon, NodeText(m.node), m.after + next);
    var value := m.fromColon + (NodeText(m.node) + (m.after + next));
    AtJoin(t, colon, ":", value);
    AtJoin(t, o1, m.toColon, ":" + value);
    Reach(t, o, m.before, NodeText(m.key), m.toColon + (":" + value));
  }

  lemma Reach(t: string, o: nat, a: string, b: string, rest: string)
    requires At(t, o, a + b) && At(t, o + |a| + |b|, rest)
    ensures At(t, o, a + (b + rest))
  {
    hide At;
    AtJoin(t, o, a + b, rest);
    assert a + b + rest == a + (b + rest);
  }

  lemma GoodMember(m: Member, ms: seq<Member>)
    requires AllSpace(m.before) && GoodNode(m.key) && AllSpace(m.toColon) && (m.key.NumberNode? ==> m.toColon != "")
    requires AllSpace(m.fromColon) && GoodNode(m.node) && AllSpace(m.after) && GoodMembers(ms)
    ensures GoodMembers([m] + ms)
  {
    assert ([m] + ms)[1..] == ms;
  }

  lemma MemberParts(t: string, o: nat, obj: Json, at: Stops)
    requires o <= |t| && (obj.Obj? || obj.Ordered?) && MemberAt(t, o, obj, at)
    ensures var key := ParseNext(t, o, Success);
            && Fine(key) && key.Done? && o <= key.offset <= at.colon < at.begin < |t| && at.colon == SkipSpace(t, key.offset) && t[at.colon] == ':'
            && at.begin == SkipSpace(t, at.colon + 1)
            && ParseNext(t, at.begin, Success) == ParseNext(t, at.colon + 1, Success)
            && var value := ParseNext(t, at.colon + 1, Success);
               && Fine(value) && value.Done? && value.offset <= at.end < |t| && at.end == SkipSpace(t, value.offset)
               && (t[at.end] == ',' || t[at.end] == '}')
               && var obj' := SetMember(obj, KeyName(key.val), value.val);
                  && (obj'.Obj? || obj'.Ordered?)
                  && ParseMembers(t, o, Success, obj)
                     == if t[at.end] == ',' then ParseMembers(t, at.end + 1, Success, obj') else Done(obj', at.end + 1, Success)
  {
    hide ParseNext, ParseMembers, SetMember, ToString, KeyName;
    NextSkips(t, at.colon + 1, at.begin, Success);
    NameIsKey(ParseNext(t, o, Success).val);
  }

  lemma ColonEnds(n: Node, t: string, o1: nat, toColon: string)
    requires EndsWell(n, t, o1) && o1 + |toColon| < |t| && t[o1 + |toColon|] == ':'
    ensures n.NumberNode? ==> toColon != ""
  {
  }

  lemma {:induction false} MembersOf(t: string, o: nat, obj: Json) returns (ms: seq<Member>)
    requires o <= |t| && (obj.Obj? || obj.Ordered?) && Fine(ParseMembers(t, o, Success, obj))
    ensures ms != [] && GoodMembers(ms) && At(t, o, MembersText(ms) + "}")
    ensures ParseMembers(t, o, Success, obj) == Done(Filled(obj, ms), o + |MembersText(ms)| + 1, Success)
    decreases |t| - o, 3
  {
    hide *;
    var at := MemberBegins(t, o, obj);
    MemberParts(t, o, obj, at);
    var ws, k := NextOf(t, o);
    var o1 := ParseNext(t, o, Success).offset;
    StandsParts(t, o, ws, k, o1);
    var toColon := Skipped(t, o1);
    ColonEnds(k, t, o1, toColon);
    AtOne(t, at.colon, ':');
    var ws', n := NextOf(t, at.colon + 1);
    var o2 := ParseNext(t, at.colon + 1, Success).offset;
    StandsParts(t, at.colon + 1, ws', n, o2);
    var after := Skipped(t, o2);
    var m := Member(ws, k, toColon, ws', n, after);
    var obj' := SetMember(obj, KeyName(NodeValue(k)), NodeValue(n));
    AtOne(t, at.end, t[at.end]);
    var rest: seq<Member> := [];
    if t[at.end] == ',' {
      rest := MembersOf(t, at.end + 1, obj');
      AtJoin(t, at.end, ",", MembersText(rest) + "}");
    } else {
      NoMembers(obj');
    }
    MembersMade(t, o, m, rest);
    ms := [m] + rest;
    assert ms[1..] == rest;
    FilledCons(obj, ms);
  }

  lemma ObjectFirst(t: string, b: nat, kind: Kind)
    requires b < |t| && Fine(ParseObject(t, b, Success)) && kind == ObjectKind(t, b + 1)
    ensures !kind.Items? && New(kind) == NewObject(kind) && b + 1 + |MarkerOf(kind)| <= |t| && At(t, b + 1, MarkerOf(kind))
    ensures var first := SkipSpace(t, b + 1 + |MarkerOf(kind)|);
            && first < |t|
            && ParseObject(t, b, Success)
               == if t[first] == '}' then Done(NewObject(kind), first + 1, Success) else ParseMembers(t, first, Success, NewObject(kind))
  {
    hide ParseMembers;
    ObjectBegins(t, b, kind);
    assert MarkerLength(kind) == |MarkerOf(kind)|;
  }

  lemma ObjectIsGood(kind: Kind, blank: string, members: seq<Member>)
    requires !kind.Items? && AllSpace(blank) && GoodMembers(members)
    ensures GoodNode(ObjectNode(kind, blank, members))
  {
  }

  lemma {:induction false} ObjectOf(t: string, b: nat) returns (n: Node)
    requires b < |t| && t[b] == '{' && Fine(ParseObject(t, b, Success))
    ensures var r := ParseObject(t, b, Success);
            && GoodNode(n) && At(t, b, NodeText(n)) && r.offset == b + |NodeText(n)| && r.val == NodeValue(n) && n.ObjectNode?
    decreases |t| - b, 0
  {
    hide *;
    var kind := ObjectKind(t, b + 1);
    ObjectFirst(t, b, kind);
    var o0 := b + 1 + |MarkerOf(kind)|;
    var blank := Skipped(t, o0);
    var first := o0 + |blank|;
    var members: seq<Member> := [];
    NoMembers(NewObject(kind));
    AtOne(t, first, t[first]);
    if t[first] == '}' {
      assert "" + "}" == "}";
    } else {
      members := MembersOf(t, first, NewObject(kind));
    }
    AtOne(t, b, '{');
    AtJoin(t, o0, blank, MembersText(members) + "}");
    AtJoin(t, b + 1, MarkerOf(kind), blank + (MembersText(members) + "}"));
    AtJoin(t, b, "{", MarkerOf(kind) + (blank + (MembersText(members) + "}")));
    n := ObjectNode(kind, blank, members);
    ObjectIsGood(kind, blank, members);
    ObjectTexts(kind, blank, members);
  }

  // ---------------------------------------------------------------- the main result

  /**
   What the parser accepts. At any place in any text it succeeds, with a value and up to an offset,
   exactly if white space and a node of the grammar with that value stand there, up to that offset.
   */
  lemma ReadExactly(t: string, o: nat, v: Json, end: nat)
    requires o <= |t|
    ensures ParseNext(t, o, Success) == Done(v, end, Success)
       <==> exists ws: string, n: Node :: Stands(t, o, ws, n, end) && v == NodeValue(n)
  {
    hide ParseNext, NodeValue, NodeText, GoodNode, At, EndsWell;
    if ParseNext(t, o, Success) == Done(v, end, Success) {
      var ws, n := NextOf(t, o);
    }
    if ws: string, n: Node :| Stands(t, o, ws, n, end) && v == NodeValue(n) {
      StandsReads(t, o, ws, n, end);
    }
  }

  lemma StandsReads(t: string, o: nat, ws: string, n: Node, end: nat)
    requires o <= |t| && Stands(t, o, ws, n, end)
    ensures ParseNext(t, o, Success) == Done(NodeValue(n), end, Success)
  {
    hide ParseNext, NodeText, NodeValue, GoodNode, At, SkipSpace, AllSpace, EndsWell;
    AtConcat(t, o, ws, NodeText(n));
    NodeFirst(n);
    AtChar(t, o + |ws|, NodeText(n), 0);
    SkipOver(t, o, ws);
    NextSkips(t, o, o + |ws|, Success);
    NodeReads(t, o + |ws|, n, Success);
  }

  // ---------------------------------------------------------------- how numbers are printed

  lemma {:induction false} DecimalIs(n: nat)
    ensures AllDigits(Decimal(n)) && Numeral(Decimal(n)) == n && Decimal(n) != "" && (n > 0 ==> Decimal(n)[0] != '0') && (n == 0 ==> Decimal(n) == "0")
  {
    hide Numeral, AllDigits;
    if n < 10 {
      NothingNumeral();
      NumeralSnoc("", Digit(n));
      assert "" + [Digit(n)] == [Digit(n)];
    } else {
      DecimalIs(n / 10);
      NumeralSnoc(Decimal(n / 10), Digit(n % 10));
    }
  }

  /** A number is printed in decimal, without leading zeros, and with a minus sign exactly if it is negative. */
  lemma NumberIs(n: int) returns (digits: string)
    ensures Number(n) == (if n < 0 then "-" else "") + digits && AllDigits(digits)
    ensures Numeral(digits) == (if n < 0 then -n else n) && digits != "" && (digits[0] == '0' ==> digits == "0" && n == 0)
  {
    hide Numeral, AllDigits, Decimal;
    digits := if n < 0 then Decimal(-n) else Decimal(n);
    DecimalIs(if n < 0 then -n else n);
    assert "" + digits == digits;
  }
}
