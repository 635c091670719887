/** The indented text, line by line. */
module JsonLayout {
  import opened SortedMaps
  import opened JsonValues
  import opened SplittingExact

  // ---------------------------------------------------------------- lines

  /** So many columns of `tab`. */
  function Indent(tab: string, columns: int): string
    decreases columns
  {
    if columns <= 0 then "" else tab + Indent(tab, columns - 1)
  }

  /** The line of a closing bracket stands two characters further left. */
  function Outdent(tab: string, columns: int): string {
    if |Indent(tab, columns)| < 2 then "" else Indent(tab, columns)[2..]
  }

  /** Lines with something in front of the first and behind the last. */
  function Framed(front: string, lines: seq<string>, back: string): (r: seq<string>)
    requires lines != []
    ensures |r| == |lines|
  {
    var ls := lines[0 := front + lines[0]];
    ls[|ls| - 1 := ls[|ls| - 1] + back]
  }

  /** Two texts of several lines, one behind the other. */
  function Glued(a: seq<string>, b: seq<string>): (r: seq<string>)
    requires a != [] && b != []
    ensures r != []
  {
    a[..|a| - 1] + ([a[|a| - 1] + b[0]] + b[1..])
  }

  function MarkerText(kind: Kind, typed: bool): string {
    if !typed then "" else match kind case Fio => "fio" case Flat => "flat" case _ => ""
  }

  /**
   The lines of a document's text. Each element or member of a container starts a line of its own,
   in the container's column, and the values inside are one column further right; a flat object
   stays on its line, and an empty object is a pair of braces.
   */
  function Lines(d: Doc, tab: string, column: int, typed: bool): (r: seq<string>)
    ensures r != []
    decreases d, 1
  {
    match d
    case Atom(s) => [RenderScalar(s)]
    case List(items) =>
      if items == [] then ["[", Indent(tab, column), Outdent(tab, column) + "]"]
      else ["["] + ItemLines(items, tab, column, typed) + [Outdent(tab, column) + "]"]
    case Table(kind, members) =>
      if members == [] then ["{}"]
      else if kind.Flat? then Framed("{" + MarkerText(kind, typed) + " ", FlatLines(members, tab, column, typed), " }")
      else
        ["{" + MarkerText(kind, typed)] + MemberLines(members, if kind.Items? then ", " else ",", tab, column, typed)
        + [Outdent(tab, column) + "}"]
  }

  /** Elements end with a comma and a space, but for the last. */
  function ItemLines(items: seq<Doc>, tab: string, column: int, typed: bool): (r: seq<string>)
    ensures items != [] ==> r != []
    decreases items, 0
  {
    if items == [] then []
    else
      Framed(Indent(tab, column), Lines(items[0], tab, column + 1, typed), if |items| == 1 then "" else ", ")
      + ItemLines(items[1..], tab, column, typed)
  }

  function MemberLines(ms: seq<Entry<Doc>>, comma: string, tab: string, column: int, typed: bool): (r: seq<string>)
    ensures ms != [] ==> r != []
    decreases ms, 0
  {
    if ms == [] then []
    else
      Framed(Indent(tab, column) + "\"" + ms[0].key + "\" : ", Lines(ms[0].val, tab, column + 1, typed), if |ms| == 1 then "" else comma)
      + MemberLines(ms[1..], comma, tab, column, typed)
  }

  function FlatLines(ms: seq<Entry<Doc>>, tab: string, column: int, typed: bool): (r: seq<string>)
    requires ms != []
    ensures r != []
    decreases ms, 0
  {
    var first := Framed("\"" + ms[0].key + "\" : ", Lines(ms[0].val, tab, column, typed), "");
    if |ms| == 1 then first else Glued(Framed("", first, ", "), FlatLines(ms[1..], tab, column, typed))
  }

  // ---------------------------------------------------------------- joining lines

  lemma {:induction false} JoinedBoth(a: seq<string>, b: seq<string>)
    requires a != [] && b != []
    ensures Joined(a + b, '\n') == Joined(a, '\n') + ("\n" + Joined(b, '\n'))
    decreases |a|
  {
    if |a| == 1 {
      assert (a + b)[1..] == b;
      assert a[0] + ['\n'] + Joined(b, '\n') == a[0] + ("\n" + Joined(b, '\n'));
    } else {
      assert (a + b)[0] == a[0] && (a + b)[1..] == a[1..] + b;
      JoinedBoth(a[1..], b);
      var x, y := Joined(a[1..], '\n'), "\n" + Joined(b, '\n');
      assert a[0] + ['\n'] + (x + y) == a[0] + ['\n'] + x + y;
    }
  }

  lemma {:induction false} JoinedFront(front: string, lines: seq<string>)
    requires lines != []
    ensures Joined(lines[0 := front + lines[0]], '\n') == front + Joined(lines, '\n')
  {
    var r := lines[0 := front + lines[0]];
    if |lines| > 1 {
      assert r[1..] == lines[1..];
      assert front + lines[0] + ['\n'] + Joined(lines[1..], '\n') == front + (lines[0] + ['\n'] + Joined(lines[1..], '\n'));
    }
  }

  lemma {:induction false} JoinedBack(lines: seq<string>, back: string)
    requires lines != []
    ensures Joined(lines[|lines| - 1 := lines[|lines| - 1] + back], '\n') == Joined(lines, '\n') + back
    decreases |lines|
  {
    var n := |lines| - 1;
    var r := lines[n := lines[n] + back];
    if n > 0 {
      assert r[1..] == lines[1..][n - 1 := lines[1..][n - 1] + back];
      JoinedBack(lines[1..], back);
      assert lines[0] + ['\n'] + (Joined(lines[1..], '\n') + back) == lines[0] + ['\n'] + Joined(lines[1..], '\n') + back;
    }
  }

  lemma JoinedFramed(front: string, lines: seq<string>, back: string)
    requires lines != []
    ensures Joined(Framed(front, lines, back), '\n') == front + Joined(lines, '\n') + back
  {
    hide Joined;
    JoinedFront(front, lines);
    JoinedBack(lines[0 := front + lines[0]], back);
  }

  lemma JoinedGlued(a: seq<string>, b: seq<string>)
    requires a != [] && b != []
    ensures Joined(Glued(a, b), '\n') == Joined(a, '\n') + Joined(b, '\n')
  {
    hide Joined;
    var n := |a| - 1;
    var tail := b[0 := a[n] + b[0]];
    assert [a[n] + b[0]] + b[1..] == tail;
    JoinedFront(a[n], b);
    JoinedOne(a[n]);
    if n > 0 {
      assert a == a[..n] + [a[n]];
      JoinedBoth(a[..n], [a[n]]);
      JoinedBoth(a[..n], tail);
      assert Joined(a[..n], '\n') + ("\n" + (a[n] + Joined(b, '\n'))) == Joined(a[..n], '\n') + ("\n" + a[n]) + Joined(b, '\n');
    } else {
      assert a[..0] + tail == tail && a == [a[0]];
    }
  }

  lemma JoinedOne(s: string)
    ensures Joined([s], '\n') == s
  {
  }

  lemma {:induction false} IndentMore(tab: string, n: nat)
    ensures tab + Indent(tab, n) == Indent(tab, n) + tab
  {
    if n == 0 {
      assert tab + "" == "" + tab;
    } else {
      IndentMore(tab, n - 1);
      assert tab + (Indent(tab, n - 1) + tab) == tab + Indent(tab, n - 1) + tab;
    }
  }

  lemma {:induction false} IndentIs(tab: string, n: int)
    ensures Repeat(tab, n) == Indent(tab, n) && Drop2(Repeat(tab, n)) == Outdent(tab, n)
    decreases n
  {
    if n > 0 {
      IndentIs(tab, n - 1);
      IndentMore(tab, n - 1);
    }
  }

  // ---------------------------------------------------------------- the printer's text

  /** An opening line, the lines inside, and a closing line. */
  lemma JoinedBetween(open: string, lines: seq<string>, close: string)
    requires lines != []
    ensures Joined([open] + lines + [close], '\n') == open + ("\n" + Joined(lines, '\n') + ("\n" + close))
  {
    hide Joined;
    JoinedBoth([open] + lines, [close]);
    JoinedBoth([open], lines);
    JoinedOne(open);
    JoinedOne(close);
    var body := Joined(lines, '\n');
    assert open + ("\n" + body) + ("\n" + close) == open + ("\n" + body + ("\n" + close));
  }

  lemma LayoutIs(tab: string, kind: Kind, column: int, typed: bool)
    ensures var l := Pretty(tab);
            && (!kind.Flat? ==>
                  && Open(l, kind, column) == "\n" + Indent(tab, column)
                  && "," + Gap(l, kind, column) == (if kind.Items? then ", " else ",") + ("\n" + Indent(tab, column))
                  && Close(l, kind, column) == "\n" + Outdent(tab, column) && Inner(l, kind, column) == column + 1)
            && (kind.Flat? ==>
                  && Open(l, kind, column) == " " && "," + Gap(l, kind, column) == ", " && Close(l, kind, column) == " "
                  && Inner(l, kind, column) == column)
            && Colon(l) == " : " && Marker(kind, typed) == MarkerText(kind, typed)
  {
    hide Repeat, Indent;
    IndentIs(tab, column);
    var i := Indent(tab, column);
    assert "," + (" \n" + i) == ", " + ("\n" + i) && "," + ("\n" + i) == "," + ("\n" + i);
  }

  /**
   The indented printer's text of any document, at any column and for any text of a column, is its
   lines with line feeds between them.
   */
  lemma {:induction false} IndentedLines(d: Doc, tab: string, column: int, typed: bool)
    ensures Render(d, Pretty(tab), column, typed) == Joined(Lines(d, tab, column, typed), '\n')
    decreases d, 1
  {
    hide Joined, RenderItems, RenderMembers, RenderScalar, ItemLines, MemberLines, FlatLines, Framed;
    hide Open, Gap, Close, Inner, Colon, Marker, Indent, Outdent, MarkerText;
    match d
    case Atom(s) => JoinedOne(RenderScalar(s));
    case List(items) => ListLines(items, tab, column, typed);
    case Table(kind, members) =>
      if members == [] {
        JoinedOne("{}");
      } else if kind.Flat? {
        FlatTableLines(members, tab, column, typed);
      } else {
        TableLines(kind, members, tab, column, typed);
      }
  }

  lemma {:induction false} ListLines(items: seq<Doc>, tab: string, column: int, typed: bool)
    ensures Render(List(items), Pretty(tab), column, typed) == Joined(Lines(List(items), tab, column, typed), '\n')
    decreases items, 2
  {
    hide *;
    LayoutIs(tab, Items, column, typed);
    var l, indent, out := Pretty(tab), Indent(tab, column), Outdent(tab, column);
    var body := RenderItems(items, l, column, typed);
    ListParts(items, tab, column, typed);
    if items == [] {
      JoinedBetween("[", [indent], out + "]");
      JoinedOne(indent);
      assert ["["] + [indent] + [out + "]"] == ["[", indent, out + "]"];
      assert "[" + ("\n" + indent) + "" + ("\n" + out) + "]" == "[" + ("\n" + indent + ("\n" + (out + "]")));
    } else {
      JoinedBetween("[", ItemLines(items, tab, column, typed), out + "]");
      ItemsAre(items, tab, column, typed);
      assert "[" + ("\n" + indent) + body + ("\n" + out) + "]" == "[" + ("\n" + (indent + body) + ("\n" + (out + "]")));
    }
  }

  lemma ListParts(items: seq<Doc>, tab: string, column: int, typed: bool)
    ensures var l := Pretty(tab);
            Render(List(items), l, column, typed) == "[" + Open(l, Items, column) + RenderItems(items, l, column, typed) + Close(l, Items, column) + "]"
    ensures Lines(List(items), tab, column, typed)
         == if items == [] then ["[", Indent(tab, column), Outdent(tab, column) + "]"]
            else ["["] + ItemLines(items, tab, column, typed) + [Outdent(tab, column) + "]"]
    ensures items == [] ==> RenderItems(items, Pretty(tab), column, typed) == ""
  {
    hide Open, Close, Outdent, Indent, ItemLines;
  }

  lemma ItemsParts(items: seq<Doc>, tab: string, column: int, typed: bool)
    requires items != []
    ensures var l := Pretty(tab);
            RenderItems(items, l, column, typed)
            == Render(items[0], l, Inner(l, Items, column), typed)
               + (if |items| == 1 then "" else "," + Gap(l, Items, column) + RenderItems(items[1..], l, column, typed))
    ensures ItemLines(items, tab, column, typed)
         == Framed(Indent(tab, column), Lines(items[0], tab, column + 1, typed), if |items| == 1 then "" else ", ")
            + ItemLines(items[1..], tab, column, typed)
    ensures |items| == 1 ==> ItemLines(items[1..], tab, column, typed) == []
  {
    hide Render, Lines, Framed, Gap, Inner, Indent;
  }

  lemma {:induction false} ItemsAre(items: seq<Doc>, tab: string, column: int, typed: bool)
    requires items != []
    ensures Indent(tab, column) + RenderItems(items, Pretty(tab), column, typed) == Joined(ItemLines(items, tab, column, typed), '\n')
    decreases items, 0
  {
    hide *;
    LayoutIs(tab, Items, column, typed);
    ItemsParts(items, tab, column, typed);
    IndentedLines(items[0], tab, column + 1, typed);
    var l, indent := Pretty(tab), Indent(tab, column);
    var first, r := Lines(items[0], tab, column + 1, typed), Render(items[0], Pretty(tab), column + 1, typed);
    JoinedFramed(indent, first, if |items| == 1 then "" else ", ");
    if |items| == 1 {
      assert Framed(indent, first, "") + [] == Framed(indent, first, "");
      assert indent + r + "" == indent + (r + "");
    } else {
      var rest, more := ItemLines(items[1..], tab, column, typed), RenderItems(items[1..], l, column, typed);
      JoinedBoth(Framed(indent, first, ", "), rest);
      ItemsAre(items[1..], tab, column, typed);
      Regroup(indent, r, ", ", indent, more);
    }
  }

  lemma Regroup(indent: string, r: string, comma: string, indent': string, more: string)
    ensures indent + (r + (comma + ("\n" + indent') + more)) == indent + r + comma + ("\n" + (indent' + more))
  {
    assert comma + ("\n" + indent') + more == comma + ("\n" + (indent' + more));
    assert indent + (r + (comma + ("\n" + (indent' + more)))) == indent + r + (comma + ("\n" + (indent' + more)));
  }

  lemma TableParts(kind: Kind, ms: seq<Entry<Doc>>, tab: string, column: int, typed: bool)
    requires ms != []
    ensures var l := Pretty(tab);
            Render(Table(kind, ms), l, column, typed)
            == "{" + Marker(kind, typed) + Open(l, kind, column) + RenderMembers(ms, l, kind, column, typed) + Close(l, kind, column) + "}"
    ensures Lines(Table(kind, ms), tab, column, typed)
         == if kind.Flat? then Framed("{" + MarkerText(kind, typed) + " ", FlatLines(ms, tab, column, typed), " }")
            else ["{" + MarkerText(kind, typed)] + MemberLines(ms, if kind.Items? then ", " else ",", tab, column, typed) + [Outdent(tab, column) + "}"]
  {
    hide Open, Close, Marker, MarkerText, Outdent, MemberLines, FlatLines, Framed, RenderMembers;
  }

  lemma MembersParts(ms: seq<Entry<Doc>>, kind: Kind, comma: string, tab: string, column: int, typed: bool)
    requires ms != []
    ensures var l := Pretty(tab);
            RenderMembers(ms, l, kind, column, typed)
            == "\"" + ms[0].key + "\"" + Colon(l) + Render(ms[0].val, l, Inner(l, kind, column), typed)
               + (if |ms| == 1 then "" else "," + Gap(l, kind, column) + RenderMembers(ms[1..], l, kind, column, typed))
    ensures MemberLines(ms, comma, tab, column, typed)
         == Framed(Indent(tab, column) + "\"" + ms[0].key + "\" : ", Lines(ms[0].val, tab, column + 1, typed), if |ms| == 1 then "" else comma)
            + MemberLines(ms[1..], comma, tab, column, typed)
    ensures |ms| == 1 ==> MemberLines(ms[1..], comma, tab, column, typed) == []
    ensures var first := Framed("\"" + ms[0].key + "\" : ", Lines(ms[0].val, tab, column, typed), "");
            FlatLines(ms, tab, column, typed)
            == if |ms| == 1 then first else Glued(Framed("", first, ", "), FlatLines(ms[1..], tab, column, typed))
  {
    hide Render, Lines, Framed, Gap, Inner, Indent, Colon, Glued;
  }

  lemma {:induction false} MembersAre(ms: seq<Entry<Doc>>, kind: Kind, tab: string, column: int, typed: bool)
    requires ms != [] && !kind.Flat?
    ensures Indent(tab, column) + RenderMembers(ms, Pretty(tab), kind, column, typed)
         == Joined(MemberLines(ms, if kind.Items? then ", " else ",", tab, column, typed), '\n')
    decreases ms, 0
  {
    hide *;
    var l, indent, comma := Pretty(tab), Indent(tab, column), if kind.Items? then ", " else ",";
    LayoutIs(tab, kind, column, typed);
    MembersParts(ms, kind, comma, tab, column, typed);
    IndentedLines(ms[0].val, tab, column + 1, typed);
    var first, r := Lines(ms[0].val, tab, column + 1, typed), Render(ms[0].val, l, column + 1, typed);
    var front, name := indent + "\"" + ms[0].key + "\" : ", "\"" + ms[0].key + "\"" + " : ";
    FrontIs(indent, ms[0].key);
    JoinedFramed(front, first, if |ms| == 1 then "" else comma);
    if |ms| == 1 {
      assert Framed(front, first, "") + [] == Framed(front, first, "");
      assert indent + (name + r + "") == indent + name + r + "";
    } else {
      var rest, more := MemberLines(ms[1..], comma, tab, column, typed), RenderMembers(ms[1..], l, kind, column, typed);
      JoinedBoth(Framed(front, first, comma), rest);
      MembersAre(ms[1..], kind, tab, column, typed);
      Regroup(indent + name, r, comma, indent, more);
      assert indent + (name + r + (comma + ("\n" + indent) + more)) == indent + name + (r + (comma + ("\n" + indent) + more));
    }
  }

  lemma FrontIs(indent: string, key: string)
    ensures indent + "\"" + key + "\" : " == indent + ("\"" + key + "\"" + " : ")
    ensures "\"" + key + "\" : " == "\"" + key + "\"" + " : "
  {
    assert "\" : " == "\"" + " : ";
  }

  lemma {:induction false} TableLines(kind: Kind, ms: seq<Entry<Doc>>, tab: string, column: int, typed: bool)
    requires ms != [] && !kind.Flat?
    ensures Render(Table(kind, ms), Pretty(tab), column, typed) == Joined(Lines(Table(kind, ms), tab, column, typed), '\n')
    decreases ms, 2
  {
    hide *;
    var l, indent, out := Pretty(tab), Indent(tab, column), Outdent(tab, column);
    LayoutIs(tab, kind, column, typed);
    TableParts(kind, ms, tab, column, typed);
    var open, body := "{" + MarkerText(kind, typed), RenderMembers(ms, l, kind, column, typed);
    JoinedBetween(open, MemberLines(ms, if kind.Items? then ", " else ",", tab, column, typed), out + "}");
    MembersAre(ms, kind, tab, column, typed);
    assert open + ("\n" + indent) + body + ("\n" + out) + "}" == open + ("\n" + (indent + body) + ("\n" + (out + "}")));
  }

  lemma {:induction false} FlatAre(ms: seq<Entry<Doc>>, tab: string, column: int, typed: bool)
    requires ms != []
    ensures RenderMembers(ms, Pretty(tab), Flat, column, typed) == Joined(FlatLines(ms, tab, column, typed), '\n')
    decreases ms, 0
  {
    hide *;
    LayoutIs(tab, Flat, column, typed);
    MembersParts(ms, Flat, ",", tab, column, typed);
    IndentedLines(ms[0].val, tab, column, typed);
    var name, lines, r := "\"" + ms[0].key + "\" : ", Lines(ms[0].val, tab, column, typed), Render(ms[0].val, Pretty(tab), column, typed);
    var first := Framed(name, lines, "");
    FrontIs("", ms[0].key);
    JoinedFramed(name, lines, "");
    assert name + r + "" == name + r;
    if |ms| > 1 {
      var rest, more := FlatLines(ms[1..], tab, column, typed), RenderMembers(ms[1..], Pretty(tab), Flat, column, typed);
      JoinedFramed("", first, ", ");
      JoinedGlued(Framed("", first, ", "), rest);
      FlatAre(ms[1..], tab, column, typed);
      assert "" + (name + r) + ", " + more == name + r + (", " + more);
    }
  }

  lemma {:induction false} FlatTableLines(ms: seq<Entry<Doc>>, tab: string, column: int, typed: bool)
    requires ms != []
    ensures Render(Table(Flat, ms), Pretty(tab), column, typed) == Joined(Lines(Table(Flat, ms), tab, column, typed), '\n')
    decreases ms, 2
  {
    hide *;
    LayoutIs(tab, Flat, column, typed);
    TableParts(Flat, ms, tab, column, typed);
    FlatAre(ms, tab, column, typed);
    var open, body := "{" + MarkerText(Flat, typed), RenderMembers(ms, Pretty(tab), Flat, column, typed);
    JoinedFramed(open + " ", FlatLines(ms, tab, column, typed), " }");
    assert open + " " + body + " " + "}" == open + " " + body + " }";
  }
}
