/** What the string scanner makes of escapes, against section 7 of RFC 8259. */
module JsonUnescaping {
  import opened Texts
  import opened JsonGrammar
  import PercentCoding

  // ---------------------------------------------------------------- the standard's reading of a string

  /** A backslash, a `u` and four hexadecimal digits. */
  predicate UnitAt(c: string) {
    |c| >= 6 && c[0] == '\\' && c[1] == 'u' && forall i :: 2 <= i < 6 ==> IsHexDigit(c[i])
  }

  function Unit(c: string): (n: nat)
    requires UnitAt(c)
    ensures n < 0x1_0000
  {
    0x1000 * HexValue(c[2]) + 0x100 * HexValue(c[3]) + 0x10 * HexValue(c[4]) + HexValue(c[5])
  }

  predicate High(n: nat) { 0xD800 <= n < 0xDC00 }

  predicate Low(n: nat) { 0xDC00 <= n < 0xE000 }

  predicate PairAt(c: string) {
    UnitAt(c) && High(Unit(c)) && UnitAt(c[6..]) && Low(Unit(c[6..]))
  }

  /** The escapes of two characters. */
  predicate ShortEscape(c: char) {
    c in {'\"', '\\', '/', 'b', 'f', 'n', 'r', 't'}
  }

  function Prepend(s: string, rest: Option<string>): Option<string> {
    match rest
    case None => None
    case Some(r) => Some(s + r)
  }

  /** The bytes a string's text between its quotation marks stands for, if it is one. */
  function Meaning(c: string): Option<string>
    decreases |c|
  {
    if c == "" then Some("")
    else if c[0] == '\"' || c[0] < ' ' then None
    else if c[0] != '\\' then Prepend(c[..1], Meaning(c[1..]))
    else if |c| < 2 then None
    else if ShortEscape(c[1]) then Prepend([Unescaped(c[1])], Meaning(c[2..]))
    else if PairAt(c) then
      Prepend(PercentCoding.ToUtf8(0x1_0000 + 0x400 * (Unit(c) - 0xD800) + (Unit(c[6..]) - 0xDC00)), Meaning(c[12..]))
    else if UnitAt(c) && !High(Unit(c)) && !Low(Unit(c)) then Prepend(PercentCoding.ToUtf8(Unit(c)), Meaning(c[6..]))
    else None
  }

  /** Every escape has two characters, and control characters are escaped. */
  predicate Simple(c: string)
    decreases |c|
  {
    c == "" ||
    if c[0] == '\\' then |c| >= 2 && ShortEscape(c[1]) && Simple(c[2..]) else c[0] >= ' ' && Simple(c[1..])
  }

  // ---------------------------------------------------------------- the scanner's

  /** What is known of the text `c` up to a closing quotation mark, and of what the scanner added for it. */
  ghost predicate Read(t: string, o: nat, acc: string, c: string, added: string) {
    && o + |c| < |t| && t[o..o + |c|] == c && ScanString(t, o, acc) == Closed(acc + added, o + |c| + 1)
    && (Simple(c) ==> Meaning(c) == Some(added))
    && (!Simple(c) && Meaning(c).Some? ==> |Meaning(c).value| < |added|)
  }

  /** One token in front. */
  lemma ReadMore(t: string, o: nat, acc: string, n: nat, piece: string, c: string, added: string)
    requires o + n <= |t| && n > 0 && Read(t, o + n, acc + piece, c, added)
    requires ScanString(t, o, acc) == ScanString(t, o + n, acc + piece)
    requires var all := t[o..o + n] + c;
             && (Simple(all) ==> Simple(c) && Meaning(all) == Prepend(piece, Meaning(c)))
             && (!Simple(all) && Meaning(all).Some? ==>
                   Meaning(c).Some? && (if Simple(c) then |Meaning(all).value| < |piece| + |Meaning(c).value|
                                        else |Meaning(all).value| <= |piece| + |Meaning(c).value|))
    ensures Read(t, o, acc, t[o..o + n] + c, piece + added)
  {
    hide ScanString, Simple, Meaning;
    assert acc + piece + added == acc + (piece + added);
    assert t[o..o + (n + |c|)] == t[o..o + n] + t[o + n..o + n + |c|];
  }

  lemma {:induction false} ScanReads(t: string, o: nat, acc: string) returns (c: string, added: string)
    requires o <= |t| && ScanString(t, o, acc).Closed?
    ensures Read(t, o, acc, c, added)
    decreases |t| - o, 1
  {
    hide Simple, Meaning, Read, ScanString;
    ScanCases(t, o, acc);
    if t[o] == '\"' {
      c, added := "", "";
      ReadNothing(t, o, acc);
    } else if t[o] != '\\' {
      c, added := ScanReads(t, o + 1, acc + [t[o]]);
      CharMeans(t[o], c);
      ReadMore(t, o, acc, 1, [t[o]], c, added);
      c, added := t[o..o + 1] + c, [t[o]] + added;
    } else if t[o + 1] != 'u' {
      c, added := ScanReads(t, o + 2, acc + [Unescaped(t[o + 1])]);
      ShortMeans(t[o + 1], c);
      ReadMore(t, o, acc, 2, [Unescaped(t[o + 1])], c, added);
      c, added := t[o..o + 2] + c, [Unescaped(t[o + 1])] + added;
    } else {
      c, added := ScanUnit(t, o, acc);
    }
  }

  lemma ScanCases(t: string, o: nat, acc: string)
    requires o <= |t| && ScanString(t, o, acc).Closed?
    ensures o < |t| && t[o..o + 1] == [t[o]]
    ensures t[o] != '\"' && t[o] != '\\' ==> ScanString(t, o, acc) == ScanString(t, o + 1, acc + [t[o]])
    ensures t[o] == '\\' ==> o + 1 < |t|
    ensures t[o] == '\\' && t[o + 1] != 'u' ==>
              && o + 2 <= |t| && t[o..o + 2] == ['\\', t[o + 1]]
              && ScanString(t, o, acc) == ScanString(t, o + 2, acc + [Unescaped(t[o + 1])])
  {
  }

  lemma ReadNothing(t: string, o: nat, acc: string)
    requires o < |t| && t[o] == '\"'
    ensures Read(t, o, acc, "", "")
  {
    assert acc + "" == acc && t[o..o + 0] == "";
  }

  lemma CharMeans(x: char, c: string)
    requires x != '\"' && x != '\\'
    ensures Simple([x] + c) <==> x >= ' ' && Simple(c)
    ensures Meaning([x] + c) == if x >= ' ' then Prepend([x], Meaning(c)) else None
  {
    assert ([x] + c)[1..] == c && ([x] + c)[..1] == [x];
  }

  lemma ShortMeans(x: char, c: string)
    requires x != 'u'
    ensures Simple(['\\', x] + c) <==> ShortEscape(x) && Simple(c)
    ensures Meaning(['\\', x] + c) == if ShortEscape(x) then Prepend([Unescaped(x)], Meaning(c)) else None
  {
    assert (['\\', x] + c)[2..] == c;
  }

  // ---------------------------------------------------------------- \u escapes

  lemma UnitPrefix(u: string, c: string)
    requires |u| == 6
    ensures UnitAt(u + c) <==> UnitAt(u)
    ensures UnitAt(u) ==> Unit(u + c) == Unit(u) && (u + c)[6..] == c && !Simple(u + c)
  {
  }

  /** The scanner copies the six characters. */
  lemma UnitScans(t: string, o: nat, acc: string)
    requires o + 6 <= |t| && UnitAt(t[o..o + 6])
    ensures ScanString(t, o, acc) == ScanString(t, o + 6, acc + t[o..o + 6])
  {
    var u := t[o..o + 6];
    assert forall i :: 0 <= i < 6 ==> u[i] == t[o + i];
    assert FirstNonHex(t, o + 5, 1) == 1 && FirstNonHex(t, o + 4, 2) == 2 && FirstNonHex(t, o + 3, 3) == 3;
    assert EscapeAt(t, o) == Closed(u, o + 6);
  }

  lemma ScannedUnit(t: string, o: nat, acc: string)
    requires o < |t| && ScanString(t, o, acc).Closed? && t[o] == '\\' && o + 1 < |t| && t[o + 1] == 'u'
    ensures o + 6 <= |t| && UnitAt(t[o..o + 6])
  {
    assert EscapeAt(t, o).Closed?;
    FourHex(t, o + 2);
    var u := t[o..o + 6];
    assert u[0] == t[o] && u[1] == t[o + 1] && u[2] == t[o + 2] && u[3] == t[o + 3] && u[4] == t[o + 4] && u[5] == t[o + 5];
  }

  lemma FourHex(t: string, o: nat)
    requires o <= |t| && FirstNonHex(t, o, 4) == 4
    ensures o + 4 <= |t| && IsHexDigit(t[o]) && IsHexDigit(t[o + 1]) && IsHexDigit(t[o + 2]) && IsHexDigit(t[o + 3])
  {
    assert FirstNonHex(t, o + 1, 3) == 3 && FirstNonHex(t, o + 2, 2) == 2 && FirstNonHex(t, o + 3, 1) == 1;
  }

  lemma UnitMeans(u: string, c: string)
    requires |u| == 6 && UnitAt(u) && !PairAt(u + c)
    ensures Meaning(u + c).Some? ==> Meaning(c).Some? && |Meaning(u + c).value| < 6 + |Meaning(c).value|
  {
    UnitPrefix(u, c);
  }

  lemma PairMeans(u: string, v: string, c: string)
    requires |u| == |v| == 6 && PairAt(u + v)
    ensures Meaning(u + v + c).Some? ==> Meaning(c).Some? && |Meaning(u + v + c).value| < 12 + |Meaning(c).value|
    ensures !Simple(u + v + c)
  {
    UnitPrefix(u, v);
    UnitPrefix(u, v + c);
    UnitPrefix(v, c);
    assert u + v + c == u + (v + c) && (u + v + c)[12..] == c;
    assert PairAt(u + (v + c));
  }

  lemma {:induction false} ScanUnit(t: string, o: nat, acc: string) returns (c: string, added: string)
    requires o < |t| && ScanString(t, o, acc).Closed? && t[o] == '\\' && o + 1 < |t| && t[o + 1] == 'u'
    ensures Read(t, o, acc, c, added)
    decreases |t| - o, 0
  {
    hide Meaning, Simple, ScanString, UnitAt, PairAt;
    ScannedUnit(t, o, acc);
    UnitScans(t, o, acc);
    var u := t[o..o + 6];
    c, added := ScanReads(t, o + 6, acc + u);
    UnitPrefix(u, c);
    if PairAt(u + c) {
      PairParts(u, c);
      var v := c[..6];
      assert v == t[o + 6..o + 12];
      UnitScans(t, o + 6, acc + u);
      assert acc + u + v == acc + (u + v) && t[o..o + 12] == u + v;
      c, added := ScanReads(t, o + 12, acc + (u + v));
      PairMeans(u, v, c);
      ReadMore(t, o, acc, 12, u + v, c, added);
      c, added := u + v + c, u + v + added;
    } else {
      UnitMeans(u, c);
      ReadMore(t, o, acc, 6, u, c, added);
      c, added := u + c, u + added;
    }
  }

  lemma PairParts(u: string, c: string)
    requires |u| == 6 && PairAt(u + c)
    ensures |c| >= 6 && UnitAt(c[..6]) && PairAt(u + c[..6])
  {
    UnitPrefix(u, c);
    assert (u + c)[6..] == c && c[..6] + c[6..] == c;
    UnitPrefix(c[..6], c[6..]);
    UnitPrefix(u, c[..6]);
  }

  // ---------------------------------------------------------------- the exact condition

  /**
   What the scanner reads is what the standard says the text stands for exactly when every escape
   in it has two characters and no control character is left unescaped.
   */
  lemma ScanIsMeaningExactly(t: string, o: nat)
    requires o <= |t| && ScanString(t, o, "").Closed?
    ensures var r := ScanString(t, o, "");
            o < r.offset && (Meaning(t[o..r.offset - 1]) == Some(r.s) <==> Simple(t[o..r.offset - 1]))
  {
    hide ScanString, Simple, Meaning;
    var c, added := ScanReads(t, o, "");
    assert "" + added == added;
  }

  /** A `\u` escape is kept as its six characters. */
  lemma UnitKept()
    ensures ScanString("\\u0041\"", 0, "") == Closed("\\u0041", 7)
    ensures Meaning("\\u0041") == Some("A")
  {
    hide Meaning, ScanString, EscapeAt;
    var u, t := "\\u0041", "\\u0041\"";
    assert t[0..6] == u && "" + u == u && u + "" == u && t[6] == '\"';
    UnitScans(t, 0, "");
    ReadNothing(t, 6, u);
    LetterMeans();
  }

  lemma LetterMeans()
    ensures Meaning("\\u0041") == Some("A")
  {
    var u := "\\u0041";
    assert UnitAt(u) && Unit(u) == 65;
    assert u[6..] == "" && Meaning("") == Some("");
    assert PercentCoding.ToUtf8(65) == "A" && "A" + "" == "A";
    assert Meaning(u) == Prepend(PercentCoding.ToUtf8(65), Meaning(""));
  }
}
