/** Each scalar's text parses back to that scalar, wherever it stands in a text. */
module JsonScalars {
  import opened Texts
  import opened Escapes
  import opened OrderedObjects
  import opened JsonValues
  import opened JsonGrammar

  /** Spaces, tabs, line feeds, vertical tabs, form feeds and carriage returns: the codes 32 and 9 to 13. */
  predicate AllSpace(s: string) {
    forall i :: 0 <= i < |s| ==> s[i] as int == 32 || 9 <= s[i] as int <= 13
  }

  /** White space followed by something else is skipped exactly. */
  lemma {:induction false} SkipOver(t: string, o: nat, ws: string)
    requires At(t, o, ws) && AllSpace(ws)
    requires o + |ws| < |t| && !IsSpace(t[o + |ws|])
    ensures SkipSpace(t, o) == o + |ws|
    decreases |ws|
  {
    if ws != "" {
      AtChar(t, o, ws, 0);
      assert ws == [ws[0]] + ws[1..];
      AtConcat(t, o, [ws[0]], ws[1..]);
      SkipOver(t, o + 1, ws[1..]);
    }
  }

  // ---------------------------------------------------------------- strings

  lemma ScanOne(t: string, o: nat, c: char, acc: string)
    requires At(t, o, EscapeChar(c))
    ensures ScanString(t, o, acc) == ScanString(t, o + |EscapeChar(c)|, acc + [c])
  {
    AtChar(t, o, EscapeChar(c), 0);
    if Special(c) {
      AtChar(t, o, EscapeChar(c), 1);
      assert EscapeAt(t, o) == Closed([c], o + 2);
    }
  }

  lemma ScanEnd(t: string, o: nat, acc: string)
    requires At(t, o, "\"")
    ensures o < |t| && ScanString(t, o, acc) == Closed(acc, o + 1)
  {
    AtChar(t, o, "\"", 0);
  }

  /** Scanning an escaped string gives the string. */
  lemma {:induction false} ScanEscaped(t: string, o: nat, s: string, acc: string)
    requires At(t, o, Escape(s) + "\"")
    ensures o <= |t| && ScanString(t, o, acc) == Closed(acc + s, o + |Escape(s)| + 1)
    decreases |s|
  {
    hide ScanString, EscapeChar, At;
    AtBounds(t, o, Escape(s) + "\"");
    if s == "" {
      assert "" + "\"" == "\"";
      ScanEnd(t, o, acc);
      assert acc + s == acc;
    } else {
      assert Escape(s) + "\"" == EscapeChar(s[0]) + (Escape(s[1..]) + "\"");
      AtConcat(t, o, EscapeChar(s[0]), Escape(s[1..]) + "\"");
      ScanOne(t, o, s[0], acc);
      ScanEscaped(t, o + |EscapeChar(s[0])|, s[1..], acc + [s[0]]);
      assert acc + [s[0]] + s[1..] == acc + s;
    }
  }

  /** A string that the parser does not take for a typed literal. */
  predicate PlainString(s: string) {
    !StartsWith(s, BUFF_TAG) && !(StartsWith(s, HASH_TAG) && |s| % 2 == 0)
  }

  lemma TagsDiffer(s: string)
    ensures !(StartsWith(s, HASH_TAG) && StartsWith(s, BUFF_TAG))
  {
    assert HASH_TAG[2] != BUFF_TAG[2];
    assert |s| >= 6 ==> s[2] == s[..6][2];
  }

  lemma PlainIsExact(s: string)
    ensures Classify(s) == Value(Str(s)) <==> PlainString(s)
  {
    TagsDiffer(s);
  }

  lemma HexPair(b: byte)
    ensures HexValue(HexDigit(b / 16)) * 16 + HexValue(HexDigit(b % 16)) == b
    ensures HexDigit(b / 16) != 0 as char && HexDigit(b % 16) != 0 as char
    ensures !Special(HexDigit(b / 16)) && !Special(HexDigit(b % 16))
  {
  }

  lemma {:induction false} HexInverts(bs: seq<byte>)
    ensures |Hex(bs)| == 2 * |bs|
    ensures HexBytes(Hex(bs)) == bs
    ensures Clean(Hex(bs))
  {
    if bs != [] {
      HexInverts(bs[1..]);
      HexPair(bs[0]);
      var h := [HexDigit(bs[0] / 16), HexDigit(bs[0] % 16)];
      assert Hex(bs) == h + Hex(bs[1..]);
      assert Hex(bs)[2..] == Hex(bs[1..]);
      assert forall i :: 2 <= i < |Hex(bs)| ==> Hex(bs)[i] == Hex(bs[1..])[i - 2];
    }
  }

  lemma TaggedClean(tag: string, bs: seq<byte>)
    requires tag == HASH_TAG || tag == BUFF_TAG
    ensures Escape(tag + Hex(bs)) == tag + Hex(bs)
  {
    HexInverts(bs);
    assert Clean(tag);
    hide Hex, HexBytes;
    EscapeFixpoint(tag + Hex(bs));
  }

  lemma TaggedLiteral(tag: string, bs: seq<byte>)
    requires tag == HASH_TAG || tag == BUFF_TAG
    ensures Classify(tag + Hex(bs)) == (if tag == BUFF_TAG then Value(Buffer(bs))
                                        else if |bs| < HASH_LENGTH then Undefined else Value(Hash(bs[..HASH_LENGTH])))
    ensures Escape(tag + Hex(bs)) == tag + Hex(bs)
  {
    HexInverts(bs);
    TaggedClean(tag, bs);
    hide Hex, HexBytes, Escape, Clean;
    var s := tag + Hex(bs);
    assert s[..6] == tag && s[6..] == Hex(bs);
    TagsDiffer(s);
  }

  lemma ParseQuoted(t: string, o: nat, s: string, st: Status)
    requires At(t, o, Quote(Escape(s)))
    ensures o < |t| && t[o] == '\"'
    ensures ParseString(t, o, st) == match Classify(s)
                                     case Undefined => Stuck
                                     case Value(v) => Done(Leaf(v), o + |Quote(Escape(s))|, st)
  {
    ScanQuoted(t, o, s);
    hide Classify, ScanString, Escape;
  }

  lemma ScanQuoted(t: string, o: nat, s: string)
    requires At(t, o, Quote(Escape(s)))
    ensures o < |t| && t[o] == '\"'
    ensures ScanString(t, o + 1, "") == Closed(s, o + |Quote(Escape(s))|)
  {
    hide Escape, ScanString;
    var e := Escape(s);
    assert Quote(e) == "\"" + (e + "\"");
    AtConcat(t, o, "\"", e + "\"");
    AtChar(t, o, "\"", 0);
    ScanEscaped(t, o + 1, s, "");
    assert "" + s == s;
  }

  // ---------------------------------------------------------------- numbers

  lemma {:induction false} DigitsSnoc(s: string, c: char, acc: nat)
    requires forall i :: 0 <= i < |s| ==> IsDigit(s[i])
    requires IsDigit(c)
    ensures DigitsValue(s + [c], acc) == DigitsValue(s, acc) * 10 + (c as int - '0' as int)
  {
    if s == "" {
      assert [c][1..] == "";
      assert s + [c] == [c];
    } else {
      assert (s + [c])[1..] == s[1..] + [c];
      DigitsSnoc(s[1..], c, acc * 10 + (s[0] as int - '0' as int));
    }
  }

  lemma {:induction false} DecimalInverts(n: nat)
    ensures DigitsValue(Decimal(n), 0) == n
  {
    if n < 10 {
      assert [Digit(n)][1..] == "";
    } else {
      DecimalInverts(n / 10);
      DigitsSnoc(Decimal(n / 10), Digit(n % 10), 0);
    }
  }

  lemma NumberInverts(n: int)
    requires -LONG_MAX - 1 <= n <= LONG_MAX
    ensures StringToLong(Number(n)) == Long(n)
    ensures Number(n) != "" && (IsDigit(Number(n)[0]) || Number(n)[0] == '-')
    ensures forall i :: 0 <= i < |Number(n)| ==> NumberChar(Number(n)[i]) && Number(n)[i] != '.'
  {
    if n < 0 {
      DecimalInverts(-n);
      assert Number(n)[1..] == Decimal(-n);
    } else {
      DecimalInverts(n);
    }
  }

  lemma {:induction false} ScanOver(t: string, o: nat, s: string)
    requires At(t, o, s) && forall i :: 0 <= i < |s| ==> NumberChar(s[i])
    requires o + |s| < |t| && !NumberChar(t[o + |s|])
    ensures ScanNumber(t, o) == o + |s|
    decreases |s|
  {
    if s != "" {
      AtChar(t, o, s, 0);
      assert s == [s[0]] + s[1..];
      AtConcat(t, o, [s[0]], s[1..]);
      ScanOver(t, o + 1, s[1..]);
    }
  }

  lemma ParseInteger(t: string, o: nat, n: int, st: Status)
    requires At(t, o, Number(n)) && -LONG_MAX - 1 <= n <= LONG_MAX
    requires o + |Number(n)| < |t| && Terminator(t[o + |Number(n)|])
    ensures o < |t| && (IsDigit(t[o]) || t[o] == '-')
    ensures ParseNumber(t, o, st) == Done(Leaf(Int(n)), o + |Number(n)|, st)
  {
    hide StringToLong, Number;
    NumberInverts(n);
    AtChar(t, o, Number(n), 0);
    ScanOver(t, o, Number(n));
    assert t[o..o + |Number(n)|] == Number(n);
  }

  // ---------------------------------------------------------------- every scalar

  ghost predicate GoodScalar(s: Scalar) {
    match s
    case Int(n) => -LONG_MAX - 1 <= n <= LONG_MAX
    case Str(s) => PlainString(s)
    case Hash(h) => |h| == HASH_LENGTH
    case _ => true
  }

  lemma ParseWord(t: string, o: nat, s: Scalar, st: Status)
    requires s.Null? || s.Bool?
    requires At(t, o, RenderScalar(s))
    ensures o < |t| && !IsSpace(t[o])
    ensures ParseNext(t, o, st) == Done(Leaf(s), o + |RenderScalar(s)|, st)
  {
    AtChar(t, o, RenderScalar(s), 0);
    if s == Bool(false) && At(t, o, "true") {
      AtChar(t, o, "true", 0);
    }
  }

  lemma ParseTagged(t: string, o: nat, tag: string, bs: seq<byte>, st: Status)
    requires tag == BUFF_TAG || (tag == HASH_TAG && |bs| == HASH_LENGTH)
    requires At(t, o, Quote(tag + Hex(bs)))
    ensures o < |t| && t[o] == '\"'
    ensures ParseString(t, o, st)
         == Done(Leaf(if tag == BUFF_TAG then Buffer(bs) else Hash(bs)), o + |Quote(tag + Hex(bs))|, st)
  {
    TaggedLiteral(tag, bs);
    assert |bs| == HASH_LENGTH ==> bs[..HASH_LENGTH] == bs;
    hide Classify, ParseString, Escape, Hex, At;
    ParseQuoted(t, o, tag + Hex(bs), st);
  }

  /** A scalar's text, followed by a terminator if it is a number, parses to the scalar and stops at its end. */
  lemma ParseScalar(t: string, o: nat, s: Scalar, st: Status)
    requires GoodScalar(s) && At(t, o, RenderScalar(s))
    requires s.Int? ==> o + |RenderScalar(s)| < |t| && Terminator(t[o + |RenderScalar(s)|])
    ensures o < |t| && !IsSpace(t[o])
    ensures ParseNext(t, o, st) == Done(Leaf(s), o + |RenderScalar(s)|, st)
  {
    hide ParseString, ParseNumber, Classify, At;
    match s
    case Null => ParseWord(t, o, s, st);
    case Bool(_) => ParseWord(t, o, s, st);
    case Int(n) => ParseInteger(t, o, n, st);
    case Str(str) =>
      ParseQuoted(t, o, str, st);
      PlainIsExact(str);
    case Hash(h) => ParseTagged(t, o, HASH_TAG, h, st);
    case Buffer(bs) => ParseTagged(t, o, BUFF_TAG, bs, st);
  }

  /** A string comes back as itself exactly when it does not look like a typed literal. */
  lemma StringRoundTrip(t: string, o: nat, s: string, st: Status)
    requires At(t, o, RenderScalar(Str(s)))
    ensures ParseNext(t, o, st) == Done(Leaf(Str(s)), o + |RenderScalar(Str(s))|, st) <==> PlainString(s)
  {
    hide ParseString, Classify, At;
    ParseQuoted(t, o, s, st);
    PlainIsExact(s);
  }

  lemma TagText()
    ensures RenderScalar(Str("$&BT&$")) == RenderScalar(Buffer([])) && |RenderScalar(Buffer([]))| == 8
  {
    assert Clean("$&BT&$");
    hide Escape, Clean, Special;
    EscapeFixpoint("$&BT&$");
    assert BUFF_TAG + Hex([]) == "$&BT&$";
  }

  /** The string that is just the buffer tag is printed as an empty buffer is, and read back as one. */
  lemma TagBecomesBuffer(t: string, o: nat, st: Status)
    requires At(t, o, RenderScalar(Str("$&BT&$")))
    ensures ParseNext(t, o, st) == Done(Leaf(Buffer([])), o + 8, st)
  {
    hide ParseNext, RenderScalar;
    TagText();
    ParseScalar(t, o, Buffer([]), st);
  }
}
