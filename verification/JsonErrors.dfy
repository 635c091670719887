/** What the parser returns, where it stops and which error it reports when a text breaks off from the grammar. */
module JsonErrors {
  import opened Texts
  import opened JsonValues
  import opened JsonGrammar
  import opened JsonScalars
  import opened JsonRoundTrip
  import opened JsonExact

  /** What may come where something else is expected: anything but white space, and with space before it after a number. */
  predicate Breaks(n: Node, after: string, rest: string) {
    rest != "" && !IsSpace(rest[0]) && (n.NumberNode? ==> after != "")
  }

  // ---------------------------------------------------------------- values

  /** No value begins like this: nothing is read. */
  lemma WrongStart(t: string, o: nat, ws: string, c: char, st: Status)
    requires AllSpace(ws) && At(t, o, ws + [c]) && !IsSpace(c)
    requires c !in {'[', '{', '\"', 't', 'f', 'n', '-'} && !('0' <= c <= '9')
    ensures o <= |t| && ParseNext(t, o, st) == Done(Leaf(Null), o + |ws|, StartingError)
  {
    hide At;
    AtConcat(t, o, ws, [c]);
    AtChar(t, o + |ws|, [c], 0);
    SkipOver(t, o, ws);
  }

  /** A word that is not one of the three: nothing is read. */
  lemma WrongWord(t: string, o: nat, st: Status)
    requires o < |t| && !At(t, o, "true") && !At(t, o, "false") && !At(t, o, "null")
    ensures t[o] == 't' || t[o] == 'f' ==> ParseNext(t, o, st) == Done(Leaf(Null), o, BoolError)
    ensures t[o] == 'n' ==> ParseNext(t, o, st) == Done(Leaf(Null), o, NullError)
  {
    hide At;
  }

  /** A number that runs into something else is passed over, with the character behind it. */
  lemma NumberRunsOn(t: string, o: nat, s: string, st: Status)
    requires s != "" && (s[0] == '-' || '0' <= s[0] <= '9') && forall i :: 0 <= i < |s| ==> s[i] == '-' || s[i] == '.' || '0' <= s[i] <= '9'
    requires At(t, o, s) && o + |s| < |t|
    requires var c := t[o + |s|]; !IsSpace(c) && c !in {',', ']', '}', 'e', 'E', '-', '.'} && !('0' <= c <= '9')
    ensures ParseNext(t, o, st) == Done(Leaf(Null), o + |s| + 1, NumberError)
  {
    hide StringToLong, At;
    AtChar(t, o, s, 0);
    ScanOver(t, o, s);
  }

  /** A string with a `\u` that four hexadecimal digits do not follow: an empty string, up to the `u`. */
  lemma UnicodeBroken(t: string, o: nat, us: seq<Unit>, digits: string, c: char, st: Status)
    requires GoodUnits(us) && |digits| < 4 && forall i :: 0 <= i < |digits| ==> IsHexDigit(digits[i])
    requires !IsHexDigit(c) && At(t, o, "\"" + (UnitsText(us) + ("\\u" + digits + [c])))
    ensures o <= |t| && ParseNext(t, o, st) == Done(Leaf(Str("")), o + 1 + |UnitsText(us)| + 1, StringError)
  {
    hide UnitsText, UnitsValue, GoodUnits, Classify, At;
    var broken := "\\u" + digits + [c];
    AtHead(t, o, '\"', UnitsText(us) + broken);
    AtConcat(t, o + 1, UnitsText(us), broken);
    UnitsPass(t, o + 1, us, "", broken);
    BrokenHere(t, o + 1 + |UnitsText(us)|, digits, c, "" + UnitsValue(us));
  }

  lemma BrokenHere(t: string, o: nat, digits: string, c: char, acc: string)
    requires |digits| < 4 && (forall i :: 0 <= i < |digits| ==> IsHexDigit(digits[i])) && !IsHexDigit(c)
    requires At(t, o, "\\u" + digits + [c])
    ensures o <= |t| && ScanString(t, o, acc) == BadUnicode(o + 1)
  {
    var s := "\\u" + digits + [c];
    AtBounds(t, o, s);
    AtChar(t, o, s, 0);
    AtChar(t, o, s, 1);
    AtChar(t, o, s, 2 + |digits|);
    forall i | 0 <= i < |digits| ensures t[o + 2 + i] == digits[i] { AtChar(t, o, s, 2 + i); }
    HexStops(t, o + 2, 4, |digits|);
  }

  lemma {:induction false} HexStops(t: string, o: nat, n: nat, k: nat)
    requires k < n && o + k < |t| && (forall i :: o <= i < o + k ==> IsHexDigit(t[i])) && !IsHexDigit(t[o + k])
    ensures FirstNonHex(t, o, n) == k
    decreases k
  {
    if k > 0 { HexStops(t, o + 1, n - 1, k - 1); }
  }

  lemma {:induction false} UnitsPass(t: string, o: nat, us: seq<Unit>, acc: string, rest: string)
    requires GoodUnits(us) && At(t, o, UnitsText(us) + rest)
    ensures o + |UnitsText(us)| <= |t| && ScanString(t, o, acc) == ScanString(t, o + |UnitsText(us)|, acc + UnitsValue(us))
    decreases |us|
  {
    hide ScanString, UnitText, UnitValue, GoodUnit, At;
    AtBounds(t, o, UnitsText(us) + rest);
    if us == [] {
      assert acc + "" == acc;
    } else {
      var a, more := UnitText(us[0]), UnitsText(us[1..]) + rest;
      assert UnitsText(us) + rest == a + more;
      AtConcat(t, o, a, more);
      UnitReads(t, o, us[0], acc);
      UnitsPass(t, o + |a|, us[1..], acc + UnitValue(us[0]), rest);
      assert acc + UnitValue(us[0]) + UnitsValue(us[1..]) == acc + (UnitValue(us[0]) + UnitsValue(us[1..]));
    }
  }

  /** A text that ends inside a string, or inside an escape of one: the parser reads on past its end. */
  lemma StringRunsOut(t: string, o: nat, us: seq<Unit>, digits: string, tail: string, st: Status)
    requires GoodUnits(us) && |digits| < 4 && (forall i :: 0 <= i < |digits| ==> IsHexDigit(digits[i]))
    requires tail == "" || tail == "\\" || tail == "\\u" + digits
    requires At(t, o, "\"" + (UnitsText(us) + tail)) && |t| == o + |"\"" + (UnitsText(us) + tail)|
    ensures ParseNext(t, o, st) == Stuck
  {
    hide UnitsText, UnitsValue, GoodUnits, Classify, At;
    AtHead(t, o, '\"', UnitsText(us) + tail);
    AtConcat(t, o + 1, UnitsText(us), tail);
    UnitsPass(t, o + 1, us, "", tail);
    RunsOutHere(t, o + 1 + |UnitsText(us)|, digits, tail, "" + UnitsValue(us));
  }

  lemma RunsOutHere(t: string, o: nat, digits: string, tail: string, acc: string)
    requires |digits| < 4 && (forall i :: 0 <= i < |digits| ==> IsHexDigit(digits[i]))
    requires tail == "" || tail == "\\" || tail == "\\u" + digits
    requires At(t, o, tail) && |t| == o + |tail|
    ensures ScanString(t, o, acc) == Unterminated
  {
    if tail != "" { AtChar(t, o, tail, 0); }
    if |tail| > 1 {
      AtChar(t, o, tail, 1);
      forall i | 0 <= i < |digits| ensures t[o + 2 + i] == digits[i] { AtChar(t, o, tail, 2 + i); }
      HexRunsOut(t, o + 2, 4);
    }
  }

  lemma {:induction false} HexRunsOut(t: string, o: nat, n: nat)
    requires o <= |t| && |t| - o < n && forall i :: o <= i < |t| ==> IsHexDigit(t[i])
    ensures FirstNonHex(t, o, n) == |t| - o
    decreases n
  {
    if o < |t| { HexRunsOut(t, o + 1, n - 1); }
  }

  // ---------------------------------------------------------------- arrays

  lemma {:induction false} ElementsBreak(t: string, o: nat, es: seq<Element>, rest: string, st: Status, acc: seq<Json>)
    requires es != [] && GoodElements(es) && At(t, o, ElementsText(es) + rest)
    requires Breaks(es[|es| - 1].node, es[|es| - 1].after, rest) && rest[0] != ',' && rest[0] != ']'
    ensures o <= |t| && ParseItems(t, o, st, acc) == Done(Arr([]), o + |ElementsText(es)|, ArrayError)
    ensures SkipSpace(t, o) < |t| && t[SkipSpace(t, o)] != ']'
    decreases |es|
  {
    hide *;
    var e, more := es[0], ElementsText(es[1..]) + rest;
    ElementsCons(es, rest);
    ElementsLength(es);
    Punctuation();
    BreakParts(es[|es| - 1].node, es[|es| - 1].after, rest);
    var end := o + |e.before| + |NodeText(e.node)| + |e.after|;
    ElementReads(t, o, e, if |es| == 1 then rest else "," + more, st, acc);
    if |es| > 1 {
      AtHead(t, end, ',', more);
      ElementsBreak(t, end + 1, es[1..], rest, st, acc + [NodeValue(e.node)]);
    }
  }

  lemma BreakParts(n: Node, after: string, rest: string)
    requires Breaks(n, after, rest)
    ensures rest != "" && !IsSpace(rest[0]) && (n.NumberNode? ==> after != "")
  {
  }

  /** An array that goes on with neither a comma nor a bracket: an empty array, up to there. */
  lemma ArrayBreaks(t: string, o: nat, blank: string, es: seq<Element>, rest: string, st: Status)
    requires AllSpace(blank) && es != [] && GoodElements(es) && At(t, o, "[" + (blank + (ElementsText(es) + rest)))
    requires Breaks(es[|es| - 1].node, es[|es| - 1].after, rest) && rest[0] != ',' && rest[0] != ']'
    ensures o <= |t| && ParseNext(t, o, st) == Done(Arr([]), o + 1 + |blank| + |ElementsText(es)|, ArrayError)
  {
    hide *;
    AtHead(t, o, '[', blank + (ElementsText(es) + rest));
    AtConcat(t, o + 1, blank, ElementsText(es) + rest);
    SkipFront(t, o + 1, blank);
    var o1 := o + 1 + |blank|;
    ElementsBreak(t, o1, es, rest, st, []);
    ArrayStart(t, o, st, SkipSpace(t, o1));
    ItemsSkip(t, o1, st, []);
  }

  // ---------------------------------------------------------------- objects

  lemma {:induction false} MembersBreak(t: string, o: nat, ms: seq<Member>, rest: string, st: Status, obj: Json)
    requires ms != [] && GoodMembers(ms) && At(t, o, MembersText(ms) + rest) && (obj.Obj? || obj.Ordered?)
    requires Breaks(ms[|ms| - 1].node, ms[|ms| - 1].after, rest) && rest[0] != ',' && rest[0] != '}'
    ensures o <= |t| && ParseMembers(t, o, st, obj) == Done(Filled(obj, ms), o + |MembersText(ms)|, ObjectError)
    ensures SkipSpace(t, o) < |t| && t[SkipSpace(t, o)] != '}'
    decreases |ms|
  {
    hide *;
    BreakParts(ms[|ms| - 1].node, ms[|ms| - 1].after, rest);
    var end, obj' := FirstMember(t, o, ms, rest, st, obj);
    if |ms| > 1 { MembersBreak(t, end + 1, ms[1..], rest, st, obj'); }
  }

  /** The marker, white space, and members: from the brace to the first member. */
  lemma BraceReads(t: string, o: nat, kind: Kind, blank: string, inner: string, st: Status)
    requires !kind.Items? && AllSpace(blank) && At(t, o, "{" + (MarkerOf(kind) + (blank + inner)))
    requires blank + inner != "" && ((blank + inner)[..1] == "f" ==> |blank + inner| > 1 && (blank + inner)[1] == 'a')
    ensures var o1 := o + 1 + |MarkerOf(kind)| + |blank|;
            && o <= o1 <= |t| && At(t, o1, inner)
            && (SkipSpace(t, o1) < |t| && t[SkipSpace(t, o1)] != '}' ==>
                  ParseNext(t, o, st) == ParseMembers(t, o1, st, NewObject(kind)))
  {
    hide *;
    var rest := blank + inner;
    AtHead(t, o, '{', MarkerOf(kind) + rest);
    AtConcat(t, o + 1, MarkerOf(kind), rest);
    MarkerFound(t, o + 1, kind, rest);
    var o0 := o + 1 + |MarkerOf(kind)|;
    AtConcat(t, o0, blank, inner);
    SkipFront(t, o0, blank);
    var o1 := o0 + |blank|;
    if SkipSpace(t, o1) < |t| { ObjectStart(t, o, st, kind, SkipSpace(t, o1)); }
    MembersSkip(t, o1, st, NewObject(kind));
  }

  lemma MarkerFound(t: string, o: nat, kind: Kind, rest: string)
    requires !kind.Items? && At(t, o, MarkerOf(kind)) && At(t, o + |MarkerOf(kind)|, rest) && rest != ""
    requires rest[..1] == "f" ==> |rest| > 1 && rest[1] == 'a'
    ensures ObjectKind(t, o) == kind && MarkerLength(kind) == |MarkerOf(kind)| && New(kind) == NewObject(kind)
  {
    MarkerChars(t, o);
    assert rest[..1] == [rest[0]];
    if kind.Plain? { AtFront(t, o, rest); } else { AtFront(t, o, MarkerOf(kind)); }
  }

  /** White space or a node, then anything, is no marker. */
  lemma FrontNoMarker(blank: string, before: string, n: Node, rest: string)
    requires AllSpace(blank) && AllSpace(before) && GoodNode(n)
    ensures var s := blank + (before + (NodeText(n) + rest)); s != "" && (s[..1] == "f" ==> |s| > 1 && s[1] == 'a')
  {
    hide NodeText, GoodNode;
    var s := blank + (before + (NodeText(n) + rest));
    NodeFirst(n);
    KeyFirst(n);
    assert s[..1] == [s[0]];
  }

  /** An object that goes on with neither a comma nor a brace: the members so far, up to there. */
  lemma ObjectBreaks(t: string, o: nat, kind: Kind, blank: string, ms: seq<Member>, rest: string, st: Status)
    requires !kind.Items? && AllSpace(blank) && ms != [] && GoodMembers(ms)
    requires At(t, o, "{" + (MarkerOf(kind) + (blank + (MembersText(ms) + rest))))
    requires Breaks(ms[|ms| - 1].node, ms[|ms| - 1].after, rest) && rest[0] != ',' && rest[0] != '}'
    ensures o <= |t| && ParseNext(t, o, st)
         == Done(Filled(NewObject(kind), ms), o + 1 + |MarkerOf(kind)| + |blank| + |MembersText(ms)|, ObjectError)
  {
    hide *;
    MembersHead(ms, rest);
    var m := ms[0];
    var next := if |ms| == 1 then rest else "," + (MembersText(ms[1..]) + rest);
    FrontNoMarker(blank, m.before, m.key, m.toColon + (":" + (m.fromColon + (NodeText(m.node) + (m.after + next)))));
    BraceReads(t, o, kind, blank, MembersText(ms) + rest, st);
    MembersBreak(t, o + 1 + |MarkerOf(kind)| + |blank|, ms, rest, st, NewObject(kind));
  }

  /** A key without a colon: the members before it, up to where the colon should be. */
  lemma ColonMissing(t: string, o: nat, before: string, key: Node, after: string, rest: string, st: Status, obj: Json)
    requires AllSpace(before) && GoodNode(key) && AllSpace(after) && Breaks(key, after, rest) && rest[0] != ':'
    requires At(t, o, before + (NodeText(key) + (after + rest))) && (obj.Obj? || obj.Ordered?)
    ensures o <= |t| && ParseMembers(t, o, st, obj) == Done(obj, o + |before| + |NodeText(key)| + |after|, ObjectError)
    ensures SkipSpace(t, o) < |t| && t[SkipSpace(t, o)] != '}'
  {
    hide *;
    BreakParts(key, after, rest);
    SpacedReads(t, o, before, key, after, rest, st);
    NodeFirst(key);
    NoColon(t, o, st, obj, NodeValue(key), o + |before| + |NodeText(key)|);
  }

  lemma NoColon(t: string, o: nat, st: Status, obj: Json, key: Json, o1: nat)
    requires o <= |t| && o1 <= |t| && (obj.Obj? || obj.Ordered?) && ParseNext(t, o, st) == Done(key, o1, st)
    requires SkipSpace(t, o1) < |t| && t[SkipSpace(t, o1)] != ':'
    ensures ParseMembers(t, o, st, obj) == Done(obj, SkipSpace(t, o1), ObjectError)
  {
    hide ParseNext, SkipSpace, SetMember, ToString;
  }

  lemma {:induction false} MembersLackColon(t: string, o: nat, ms: seq<Member>, before: string, key: Node, after: string, rest: string,
                                            st: Status, obj: Json)
    requires GoodMembers(ms) && (obj.Obj? || obj.Ordered?)
    requires AllSpace(before) && GoodNode(key) && AllSpace(after) && Breaks(key, after, rest) && rest[0] != ':'
    requires var last := before + (NodeText(key) + (after + rest));
             At(t, o, if ms == [] then last else MembersText(ms) + ("," + last))
    ensures var front := if ms == [] then 0 else |MembersText(ms)| + 1;
            o <= |t| && ParseMembers(t, o, st, obj) == Done(Filled(obj, ms), o + front + |before| + |NodeText(key)| + |after|, ObjectError)
    ensures SkipSpace(t, o) < |t| && t[SkipSpace(t, o)] != '}'
    decreases |ms|
  {
    hide *;
    var last := before + (NodeText(key) + (after + rest));
    if ms == [] {
      NoMembers(obj);
      ColonMissing(t, o, before, key, after, rest, st, obj);
    } else {
      Punctuation();
      var end, obj' := FirstMember(t, o, ms, "," + last, st, obj);
      if |ms| == 1 { AtHead(t, end, ',', last); }
      MembersLackColon(t, end + 1, ms[1..], before, key, after, rest, st, obj');
    }
  }

  /** An object with a key that no colon follows: the members before it, up to where the colon should be. */
  lemma ObjectLacksColon(t: string, o: nat, kind: Kind, blank: string, ms: seq<Member>, before: string, key: Node, after: string, rest: string,
                         st: Status)
    requires !kind.Items? && AllSpace(blank) && GoodMembers(ms)
    requires AllSpace(before) && GoodNode(key) && AllSpace(after) && Breaks(key, after, rest) && rest[0] != ':'
    requires var last := before + (NodeText(key) + (after + rest));
             At(t, o, "{" + (MarkerOf(kind) + (blank + if ms == [] then last else MembersText(ms) + ("," + last))))
    ensures var front := if ms == [] then 0 else |MembersText(ms)| + 1;
            o <= |t| && ParseNext(t, o, st)
            == Done(Filled(NewObject(kind), ms),
                    o + 1 + |MarkerOf(kind)| + |blank| + front + |before| + |NodeText(key)| + |after|, ObjectError)
  {
    hide *;
    var last := before + (NodeText(key) + (after + rest));
    var inner := if ms == [] then last else MembersText(ms) + ("," + last);
    if ms == [] {
      FrontNoMarker(blank, before, key, after + rest);
    } else {
      MembersHead(ms, "," + last);
      var m := ms[0];
      var next := if |ms| == 1 then "," + last else "," + (MembersText(ms[1..]) + ("," + last));
      FrontNoMarker(blank, m.before, m.key, m.toColon + (":" + (m.fromColon + (NodeText(m.node) + (m.after + next)))));
    }
    BraceReads(t, o, kind, blank, inner, st);
    MembersLackColon(t, o + 1 + |MarkerOf(kind)| + |blank|, ms, before, key, after, rest, st, NewObject(kind));
  }
}
