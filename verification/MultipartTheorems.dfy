/**
 Chunk independence of the multipart parser: for a well-formed body, however it is cut into
 chunks, the callbacks deliver exactly the parts, and the exact condition on part contents for it.
 */
module MultipartTheorems {
  import opened Texts
  import opened Multipart
  import opened MultipartHeaders

  // ---------------------------------------------------------------- bodies (section 5.1.1 of RFC 2046)

  datatype Part = Part(headers: seq<string>, content: string)

  function HeaderText(headers: seq<string>): string {
    if headers == [] then "\r\n" else headers[0] + "\r\n" + HeaderText(headers[1..])
  }

  /** The text after a delimiter: another part or the closing dashes. */
  function TailText(b: string, parts: seq<Part>): string
    decreases |parts|, 1
  {
    if parts == [] then "--\r\n" else "\r\n" + PartsText(b, parts)
  }

  /** The text from the headers of the first part on. */
  function PartsText(b: string, parts: seq<Part>): string
    requires parts != []
    decreases |parts|, 0
  {
    HeaderText(parts[0].headers) + BodyText(b, parts[0].content, parts[1..])
  }

  /** The rest of a part's content, its delimiter and what follows. */
  function BodyText(b: string, content: string, more: seq<Part>): string
    decreases |more|, 2
  {
    content + ("\r\n--" + b + TailText(b, more))
  }

  function MessageText(b: string, parts: seq<Part>): string
    requires parts != []
  {
    "--" + b + "\r\n" + PartsText(b, parts)
  }

  // ---------------------------------------------------------------- what the callbacks should deliver

  datatype Got = Got(file: File, content: string)

  function Expected(cfg: Config, parts: seq<Part>): seq<Got> {
    if parts == [] then []
    else [Got(FoldHeaders(cfg, File("", "", ""), parts[0].headers), parts[0].content)] + Expected(cfg, parts[1..])
  }

  /** What has been received are the parts: as many, in order, with their contents and what their header lines say. */
  ghost predicate AreParts(cfg: Config, parts: seq<Part>, got: seq<Got>) {
    && |got| == |parts|
    && forall i :: 0 <= i < |parts| ==> got[i].content == parts[i].content && Describes(cfg, parts[i].headers, got[i].file)
  }

  lemma {:induction false} ExpectedAt(cfg: Config, parts: seq<Part>, i: nat)
    requires i < |parts|
    ensures |Expected(cfg, parts)| == |parts|
    ensures Expected(cfg, parts)[i] == Got(FoldHeaders(cfg, File("", "", ""), parts[i].headers), parts[i].content)
    decreases |parts|
  {
    hide FoldHeaders;
    if i > 0 { ExpectedAt(cfg, parts[1..], i - 1); }
    else if |parts| > 1 { ExpectedAt(cfg, parts[1..], 0); }
  }

  /** There is exactly one way to have received the parts. */
  lemma ExpectedExactly(cfg: Config, parts: seq<Part>, got: seq<Got>)
    ensures AreParts(cfg, parts, got) <==> got == Expected(cfg, parts)
  {
    hide Describes, FoldHeaders, Expected;
    var all := Expected(cfg, parts);
    if parts == [] { NothingExpected(cfg); } else { ExpectedAt(cfg, parts, 0); }
    forall i | 0 <= i < |parts|
      ensures all[i].content == parts[i].content
      ensures forall file :: Describes(cfg, parts[i].headers, file) <==> file == all[i].file
    {
      ExpectedAt(cfg, parts, i);
      forall file ensures Describes(cfg, parts[i].headers, file) <==> file == all[i].file {
        DescribesExactly(cfg, parts[i].headers, file);
      }
    }
  }

  lemma NothingExpected(cfg: Config)
    ensures Expected(cfg, []) == []
  {
  }

  /** More content for the part received last. */
  function Extend(got: seq<Got>, data: string): seq<Got> {
    if got == [] then []
    else got[|got| - 1 := Got(got[|got| - 1].file, got[|got| - 1].content + data)]
  }

  /** The parts delivered by a sequence of callback calls. */
  function Receive(got: seq<Got>, events: seq<Event>): seq<Got>
    decreases |events|
  {
    if events == [] then got
    else
      match events[0]
      case Header(f) => Receive(got + [Got(f, "")], events[1..])
      case Content(data) => Receive(Extend(got, data), events[1..])
  }

  lemma {:induction false} ReceiveConcat(got: seq<Got>, a: seq<Event>, b: seq<Event>)
    ensures Receive(got, a + b) == Receive(Receive(got, a), b)
    decreases |a|
  {
    if a == [] {
      assert a + b == b;
    } else {
      assert (a + b)[0] == a[0] && (a + b)[1..] == a[1..] + b;
      match a[0]
      case Header(f) => ReceiveConcat(got + [Got(f, "")], a[1..], b);
      case Content(data) => ReceiveConcat(Extend(got, data), a[1..], b);
    }
  }

  lemma ExtendTwice(got: seq<Got>, x: string, y: string)
    ensures Extend(Extend(got, x), y) == Extend(got, x + y)
    ensures Extend(got, "") == got
  {
    if got != [] {
      var g := got[|got| - 1];
      assert g.content + x + y == g.content + (x + y);
      assert g.content + "" == g.content;
    }
  }

  // ---------------------------------------------------------------- which bodies

  /** A header line has a character and no line break. */
  ghost predicate GoodHeaders(headers: seq<string>) {
    forall i :: 0 <= i < |headers| ==> headers[i] != "" && Find(headers[i], CRLF).None?
  }

  /** The delimiter does not occur before the end of the content. */
  ghost predicate NoDelimiter(b: string, content: string) {
    forall q: nat :: q < |content| ==> !At(content + Delimiter(b), q, Delimiter(b))
  }

  ghost predicate GoodParts(b: string, parts: seq<Part>) {
    forall i :: 0 <= i < |parts| ==> GoodHeaders(parts[i].headers) && NoDelimiter(b, parts[i].content)
  }

  /**
   Whenever the parser meets CRLF and two dashes in the content it passes over as many bytes as
   the delimiter has. The content is safe if those bytes are always its own.
   */
  predicate Safe(content: string, m: nat)
    requires m > 0
    decreases |content|
  {
    match Find(content, DASHES)
    case None => true
    case Some(p) => |content| - p >= m && Safe(content[p + m..], m)
  }

  predicate SafePart(b: string, content: string) { Safe(content, |Delimiter(b)|) }

  // ---------------------------------------------------------------- where the pattern CRLF-dash-dash can be

  lemma DashesAt(s: string, q: nat)
    ensures At(s, q, DASHES) <==> q + 4 <= |s| && s[q] == '\r' && s[q + 1] == '\n' && s[q + 2] == '-' && s[q + 3] == '-'
  {
    if q + 4 <= |s| {
      assert s[q..q + 4] == [s[q], s[q + 1], s[q + 2], s[q + 3]];
    }
  }

  /** The pattern has no overlap with itself: before the delimiter it occurs only inside the content. */
  lemma DashesInside(c: string, rest: string, q: nat)
    requires At(rest, 0, DASHES) && q < |c|
    ensures At(c + rest, q, DASHES) <==> At(c, q, DASHES)
  {
    DashesAt(c + rest, q);
    DashesAt(c, q);
    DashesAt(rest, 0);
  }

  /** A prefix shows an occurrence exactly if it is long enough. */
  lemma AtPrefix(buf: string, rest: string, q: nat, pat: string)
    ensures At(buf, q, pat) <==> At(buf + rest, q, pat) && q + |pat| <= |buf|
  {
    if q + |pat| <= |buf| {
      assert buf[q..q + |pat|] == (buf + rest)[q..q + |pat|];
    }
  }

  lemma AtSuffix(s: string, k: nat, q: nat, pat: string)
    requires k <= |s|
    ensures At(s[k..], q, pat) <==> At(s, k + q, pat)
  {
    if k + q + |pat| <= |s| {
      assert s[k..][q..q + |pat|] == s[k + q..k + q + |pat|];
    }
  }

  /** A buffer whose continuation starts with `pat` either holds it all or is followed by more input. */
  lemma Begins(buf: string, unfed: string, pat: string, rest: string)
    requires buf + unfed == pat + rest
    ensures |pat| <= |buf| ==> At(buf, 0, pat) && buf[|pat|..] + unfed == rest
    ensures |pat| > |buf| ==> unfed != ""
  {
    if |pat| <= |buf| {
      assert buf[..|pat|] == (buf + unfed)[..|pat|] == (pat + rest)[..|pat|];
      assert buf[|pat|..] + unfed == (buf + unfed)[|pat|..];
      assert rest == (pat + rest)[|pat|..];
    }
  }

  // ---------------------------------------------------------------- the invariant

  /** What of the message the parser has not passed yet. */
  datatype Rest =
    | AtStart(parts: seq<Part>)
    | AtEntry(parts: seq<Part>)
    | InHeaders(headers: seq<string>, content: string, more: seq<Part>)
    | InBody(content: string, more: seq<Part>)
    | AtBoundary(more: seq<Part>)
    | AtEnd

  ghost predicate SafeParts(b: string, parts: seq<Part>) {
    forall i :: 0 <= i < |parts| ==> SafePart(b, parts[i].content)
  }

  ghost predicate GoodRest(b: string, rest: Rest) {
    match rest
    case AtStart(parts) => parts != [] && GoodParts(b, parts) && SafeParts(b, parts)
    case AtEntry(parts) => parts != [] && GoodParts(b, parts) && SafeParts(b, parts)
    case InHeaders(h, c, more) =>
      GoodHeaders(h) && NoDelimiter(b, c) && SafePart(b, c) && GoodParts(b, more) && SafeParts(b, more)
    case InBody(c, more) => NoDelimiter(b, c) && SafePart(b, c) && GoodParts(b, more) && SafeParts(b, more)
    case AtBoundary(more) => GoodParts(b, more) && SafeParts(b, more)
    case AtEnd => true
  }

  function RestText(b: string, rest: Rest): string
    requires rest.AtStart? || rest.AtEntry? ==> rest.parts != []
  {
    match rest
    case AtStart(parts) => MessageText(b, parts)
    case AtEntry(parts) => PartsText(b, parts)
    case InHeaders(h, c, more) => HeaderText(h) + BodyText(b, c, more)
    case InBody(c, more) => BodyText(b, c, more)
    case AtBoundary(more) => TailText(b, more)
    case AtEnd => ""
  }

  /** What will have been received once the rest is delivered. */
  function Owed(cfg: Config, file: File, got: seq<Got>, rest: Rest): seq<Got> {
    match rest
    case AtStart(parts) => got + Expected(cfg, parts)
    case AtEntry(parts) => got + Expected(cfg, parts)
    case InHeaders(h, c, more) => got + [Got(FoldHeaders(cfg, file, h), c)] + Expected(cfg, more)
    case InBody(c, more) => Extend(got, c) + Expected(cfg, more)
    case AtBoundary(more) => got + Expected(cfg, more)
    case AtEnd => got
  }

  predicate Stage(s: State, rest: Rest) {
    match s.phase
    case Initial => rest.AtStart?
    case NewEntry => rest.AtEntry?
    case Headers => rest.InHeaders?
    case Body => rest.InBody?
    case Boundary => rest.AtBoundary?
    case Done => rest.AtEnd? && s.valid
  }

  /** The buffer and the input still to come are the rest of the message; delivering it completes `all`. */
  ghost predicate Inv(cfg: Config, s: State, unfed: string, got: seq<Got>, rest: Rest, all: seq<Got>) {
    && GoodRest(cfg.boundary, rest)
    && s.buf + unfed == RestText(cfg.boundary, rest)
    && Stage(s, rest)
    && Owed(cfg, s.file, got, rest) == all
    && (rest.InBody? ==> got != [])
  }

  ghost predicate Accepting(cfg: Config) {
    (forall f :: cfg.onHeader(f)) && (forall d :: cfg.onContent(d))
  }

  /** What one turn must achieve. */
  ghost predicate Progress(cfg: Config, t: Turn, unfed: string, got: seq<Got>, rest: Rest, all: seq<Got>) {
    && !t.verdict.Reject?
    && Inv(cfg, t.state, unfed, Receive(got, t.events), rest, all)
    && (t.verdict.Wait? ==> unfed != "")
  }

  // ---------------------------------------------------------------- one turn, state by state

  lemma InitialTurn(cfg: Config, s: State, unfed: string, got: seq<Got>, rest: Rest, all: seq<Got>) returns (rest': Rest)
    requires Inv(cfg, s, unfed, got, rest, all) && s.buf != "" && s.phase.Initial?
    ensures Progress(cfg, Step(cfg, s), unfed, got, rest', all)
  {
    hide PartsText, Expected;
    var pattern := "--" + cfg.boundary + CRLF;
    Begins(s.buf, unfed, pattern, PartsText(cfg.boundary, rest.parts));
    if |pattern| > |s.buf| {
      rest' := rest;
    } else {
      FindIs(s.buf, pattern, 0);
      rest' := AtEntry(rest.parts);
    }
  }

  lemma EntryTurn(cfg: Config, s: State, unfed: string, got: seq<Got>, rest: Rest, all: seq<Got>) returns (rest': Rest)
    requires Inv(cfg, s, unfed, got, rest, all) && s.buf != "" && s.phase.NewEntry?
    ensures Progress(cfg, Step(cfg, s), unfed, got, rest', all)
  {
    hide BodyText, HeaderText, FoldHeaders;
    var p := rest.parts[0];
    rest' := InHeaders(p.headers, p.content, rest.parts[1..]);
    var g := Got(FoldHeaders(cfg, File("", "", ""), p.headers), p.content);
    assert got + ([g] + Expected(cfg, rest.parts[1..])) == got + [g] + Expected(cfg, rest.parts[1..]);
  }

  /** The first line break after a line without one is at its end. */
  lemma LineEnd(line: string, rest: string)
    requires Find(line, CRLF).None?
    ensures Find(line + CRLF + rest, CRLF) == Some(|line|)
  {
    var s := line + CRLF + rest;
    assert s[|line|..|line| + 2] == CRLF;
    assert s[|line|] == '\r';
    forall q: nat | q < |line| ensures !At(s, q, CRLF) {
      if At(s, q, CRLF) {
        AtChar(s, q, CRLF, 0);
        AtChar(s, q, CRLF, 1);
        assert s[q] == line[q] && (q + 1 < |line| ==> s[q + 1] == line[q + 1]);
        if q + 1 < |line| {
          assert line[q..q + 2] == [line[q], line[q + 1]];
          assert At(line, q, CRLF);
        }
      }
    }
    FindIs(s, CRLF, |line|);
  }

  /** A buffer finds what its continuation has first, if it is long enough, and nothing otherwise. */
  lemma FindInPrefix(buf: string, unfed: string, pat: string)
    ensures match Find(buf + unfed, pat)
            case None => Find(buf, pat).None?
            case Some(p) => Find(buf, pat) == if p + |pat| <= |buf| then Some(p) else None
  {
    forall q: nat ensures At(buf, q, pat) <==> At(buf + unfed, q, pat) && q + |pat| <= |buf| {
      AtPrefix(buf, unfed, q, pat);
    }
    match Find(buf + unfed, pat)
    case None =>
    case Some(p) =>
      if p + |pat| <= |buf| { FindIs(buf, pat, p); }
  }

  lemma LastHeaderTurn(cfg: Config, s: State, unfed: string, got: seq<Got>, rest: Rest, all: seq<Got>) returns (rest': Rest)
    requires Inv(cfg, s, unfed, got, rest, all) && s.buf != "" && s.phase.Headers? && rest.headers == [] && Accepting(cfg)
    ensures Progress(cfg, Step(cfg, s), unfed, got, rest', all)
  {
    hide BodyText, Expected;
    var body := BodyText(cfg.boundary, rest.content, rest.more);
    Begins(s.buf, unfed, CRLF, body);
    if |CRLF| > |s.buf| {
      assert Find(s.buf, CRLF).None?;
      rest' := rest;
    } else {
      FindIs(s.buf, CRLF, 0);
      rest' := InBody(rest.content, rest.more);
      var got' := got + [Got(s.file, "")];
      assert Receive(got, [Header(s.file)]) == got' by { assert [Header(s.file)][1..] == []; }
      assert Extend(got', rest.content) == got + [Got(s.file, rest.content)] by { assert "" + rest.content == rest.content; }
    }
  }

  lemma HeadersCons(cfg: Config, file: File, headers: seq<string>, body: string)
    requires headers != [] && GoodHeaders(headers)
    ensures HeaderText(headers) + body == headers[0] + CRLF + (HeaderText(headers[1..]) + body)
    ensures headers[0] != "" && Find(headers[0], CRLF).None? && GoodHeaders(headers[1..])
    ensures FoldHeaders(cfg, file, headers) == FoldHeaders(cfg, ApplyHeader(cfg, file, headers[0]), headers[1..])
  {
    hide Find, ApplyHeader;
  }

  lemma LineTurn(cfg: Config, s: State, unfed: string, line: string, tail: string)
    requires s.phase.Headers? && s.buf + unfed == line + CRLF + tail && line != "" && Find(line, CRLF).None?
    ensures if |line| + 2 > |s.buf| then StepHeaders(cfg, s) == Turn(Wait, s, []) && unfed != ""
            else
              var n := |line| + 2;
              && s.buf[n..] + unfed == tail
              && StepHeaders(cfg, s) == Turn(Continue, s.(buf := s.buf[n..], off := s.off + n, file := ApplyHeader(cfg, s.file, line)), [])
  {
    hide ApplyHeader;
    LineEnd(line, tail);
    FindInPrefix(s.buf, unfed, CRLF);
    Begins(s.buf, unfed, line + CRLF, tail);
    if |line| + 2 <= |s.buf| { AtConcat(s.buf, 0, line, CRLF); }
  }

  lemma HeaderLineTurn(cfg: Config, s: State, unfed: string, got: seq<Got>, rest: Rest, all: seq<Got>) returns (rest': Rest)
    requires Inv(cfg, s, unfed, got, rest, all) && s.buf != "" && s.phase.Headers? && rest.headers != []
    ensures Progress(cfg, Step(cfg, s), unfed, got, rest', all)
  {
    hide BodyText, Expected, ApplyHeader, StepHeaders, HeaderText, FoldHeaders, GoodHeaders, Find, GoodParts, SafeParts, SafePart, NoDelimiter;
    var body := BodyText(cfg.boundary, rest.content, rest.more);
    HeadersCons(cfg, s.file, rest.headers, body);
    LineTurn(cfg, s, unfed, rest.headers[0], HeaderText(rest.headers[1..]) + body);
    rest' := if |rest.headers[0]| + 2 > |s.buf| then rest else InHeaders(rest.headers[1..], rest.content, rest.more);
  }

  lemma BoundaryTurn(cfg: Config, s: State, unfed: string, got: seq<Got>, rest: Rest, all: seq<Got>) returns (rest': Rest)
    requires Inv(cfg, s, unfed, got, rest, all) && s.buf != "" && s.phase.Boundary?
    ensures Progress(cfg, Step(cfg, s), unfed, got, rest', all)
  {
    hide PartsText;
    rest' := rest;
    if rest.more == [] {
      var pattern := "--" + CRLF;
      assert pattern + "" == pattern;
      Begins(s.buf, unfed, pattern, "");
      assert s.buf[0] == (s.buf + unfed)[0] == '-';
      if At(s.buf, 0, CRLF) { AtChar(s.buf, 0, CRLF, 0); }
      if |pattern| <= |s.buf| { rest' := AtEnd; assert got + Expected(cfg, []) == got; }
    } else {
      Begins(s.buf, unfed, CRLF, PartsText(cfg.boundary, rest.more));
      if |CRLF| <= |s.buf| { rest' := AtEntry(rest.more); }
    }
  }

  // ---------------------------------------------------------------- one turn in the body

  /** `find_string` stops no later than `p` if a pattern that could start there does, and skips nothing that matches. */
  lemma {:induction false} PartialBounds(s: string, from: nat)
    requires from <= |s|
    ensures forall q :: from <= q < FindPartial(s, DASHES, from) ==> !At(s, q, DASHES) && (s[q] == '\r' ==> q + 4 <= |s|)
    ensures var r := FindPartial(s, DASHES, from);
            r < |s| ==> s[r] == '\r' && (|s| - r < 4 || At(s, r, DASHES))
    decreases |s| - from
  {
    if from < |s| && !(s[from] == DASHES[0] && (|DASHES| > |s| - from || At(s, from, DASHES))) {
      PartialBounds(s, from + 1);
    }
  }

  /** With content `c` left before `rest`, the scan never passes the end of the content or its first CRLF-dash-dash. */
  lemma ScanStays(buf: string, unfed: string, c: string, rest: string)
    requires buf + unfed == c + rest && At(rest, 0, DASHES)
    ensures var pos := FindPartial(buf, DASHES, 0);
            && pos <= |c|
            && (forall q: nat :: q < pos ==> !At(c, q, DASHES))
            && (|buf| - pos >= 4 ==> At(c + rest, pos, DASHES))
  {
    var pos := FindPartial(buf, DASHES, 0);
    PartialBounds(buf, 0);
    DashesAt(rest, 0);
    AtPrefix(buf, unfed, |c|, DASHES);
    if |c| < |buf| {
      assert buf[|c|] == (buf + unfed)[|c|] == (c + rest)[|c|] == rest[0];
      DashesAt(c + rest, |c|);
    }
    forall q: nat | q < pos ensures !At(c, q, DASHES) {
      AtPrefix(buf, unfed, q, DASHES);
      DashesInside(c, rest, q);
      if At(c, q, DASHES) {
        assert buf[q] == (buf + unfed)[q];
        DashesAt(c + rest, q);
      }
    }
    AtPrefix(buf, unfed, pos, DASHES);
  }

  lemma NoDelimiterSuffix(b: string, c: string, k: nat)
    requires NoDelimiter(b, c) && k <= |c|
    ensures NoDelimiter(b, c[k..])
  {
    var d := Delimiter(b);
    assert (c + d)[k..] == c[k..] + d;
    forall q: nat | q < |c[k..]| ensures !At(c[k..] + d, q, d) {
      AtSuffix(c + d, k, q, d);
    }
  }

  /** Passing content without CRLF-dash-dash in front keeps it safe. */
  lemma SafeSuffix(c: string, k: nat, m: nat)
    requires m > 0 && Safe(c, m) && k <= |c| && forall q: nat :: q < k ==> !At(c, q, DASHES)
    ensures Safe(c[k..], m)
  {
    hide FindFrom;
    forall q: nat ensures At(c[k..], q, DASHES) <==> At(c, k + q, DASHES) {
      AtSuffix(c, k, q, DASHES);
    }
    SafeShift(c, k, m);
  }

  lemma SafeShift(c: string, k: nat, m: nat)
    requires m > 0 && Safe(c, m) && k <= |c| && forall q: nat :: q < k ==> !At(c, q, DASHES)
    requires forall q: nat :: At(c[k..], q, DASHES) <==> At(c, k + q, DASHES)
    ensures Safe(c[k..], m)
  {
    hide At;
    match Find(c, DASHES)
    case None =>
    case Some(p) =>
      FindIs(c[k..], DASHES, p - k);
      assert c[k..][p - k + m..] == c[p + m..];
  }

  /** At a CRLF-dash-dash inside safe content the bytes passed over are content, and what is left is safe. */
  lemma SafeSkip(c: string, m: nat)
    requires m > 0 && Safe(c, m) && At(c, 0, DASHES)
    ensures m <= |c| && Safe(c[m..], m)
  {
    hide FindFrom;
    FindIs(c, DASHES, 0);
    assert c[0 + m..] == c[m..];
  }

  /** The delimiter is found at the end of the content, if the buffer reaches that far. */
  lemma DelimiterFound(b: string, buf: string, unfed: string, c: string, tail: string)
    requires buf + unfed == c + (Delimiter(b) + tail) && NoDelimiter(b, c)
    ensures Find(buf, Delimiter(b)) == if |c| + |Delimiter(b)| <= |buf| then Some(|c|) else None
  {
    var d := Delimiter(b);
    assert c + (d + tail) == (c + d) + tail;
    forall q: nat | q < |c| ensures !At(c + d + tail, q, d) {
      AtPrefix(c + d, tail, q, d);
    }
    assert (c + d + tail)[|c|..|c| + |d|] == d;
    FindIs(c + d + tail, d, |c|);
    FindInPrefix(buf, unfed, d);
  }

  lemma Cut(buf: string, unfed: string, c: string, rest: string, k: nat)
    requires buf + unfed == c + rest && k <= |buf| && k <= |c|
    ensures buf[..k] == c[..k] && buf[k..] + unfed == c[k..] + rest
  {
    assert buf[..k] == (buf + unfed)[..k] == (c + rest)[..k];
    assert buf[k..] + unfed == (buf + unfed)[k..] == (c + rest)[k..];
  }

  lemma ReceiveOne(got: seq<Got>, x: string)
    ensures Receive(got, [Content(x)]) == Extend(got, x)
  {
    assert [Content(x)][1..] == [];
    assert Receive(Extend(got, x), []) == Extend(got, x);
  }

  lemma ReceiveTwo(got: seq<Got>, x: string, y: string)
    ensures Receive(got, [Content(x), Content(y)]) == Extend(got, x + y)
  {
    assert [Content(x), Content(y)] == [Content(x)] + [Content(y)];
    ReceiveConcat(got, [Content(x)], [Content(y)]);
    ReceiveOne(got, x);
    ReceiveOne(Extend(got, x), y);
    ExtendTwice(got, x, y);
  }

  /** The calls `events` deliver the content `x` and nothing else. */
  ghost predicate Delivers(events: seq<Event>, x: string) {
    forall got :: Receive(got, events) == Extend(got, x)
  }

  lemma DeliversOne(x: string)
    ensures Delivers([Content(x)], x)
  {
    forall got ensures Receive(got, [Content(x)]) == Extend(got, x) { ReceiveOne(got, x); }
  }

  lemma DeliversTwo(x: string, y: string)
    ensures Delivers([Content(x), Content(y)], x + y)
  {
    forall got ensures Receive(got, [Content(x), Content(y)]) == Extend(got, x + y) { ReceiveTwo(got, x, y); }
  }

  /** A turn that passes `k` bytes of the content `c`, and with `done` the delimiter after it. */
  ghost predicate Passes(t: Turn, s: State, unfed: string, b: string, c: string, tail: string, k: nat, done: bool) {
    && k <= |c|
    && !t.verdict.Reject?
    && (t.verdict.Wait? ==> unfed != "")
    && t.state.file == s.file
    && Delivers(t.events, c[..k])
    && (if done then k == |c| && t.state.phase.Boundary? && t.state.buf + unfed == tail
        else t.state.phase.Body? && t.state.buf + unfed == c[k..] + (Delimiter(b) + tail))
  }

  /** What a turn in the body does when the callbacks accept everything. */
  lemma BodyOutcome(cfg: Config, s: State)
    requires Accepting(cfg)
    ensures var t := StepBody(cfg, s);
            var d := Delimiter(cfg.boundary);
            if 4 > |s.buf| then t == Turn(Wait, s, [])
            else
              var pos := FindPartial(s.buf, DASHES, 0);
              var s1 := Drop(s, pos);
              if |d| > |s1.buf| then t == Turn(Wait, s1, [Content(s.buf[..pos])])
              else
                match Find(s1.buf, d)
                case Some(q) =>
                  t == Turn(Continue, Drop(s1, q + |d|).(phase := Boundary), [Content(s.buf[..pos]), Content(s1.buf[..q])])
                case None => t == Turn(Continue, Drop(s1, |d|), [Content(s.buf[..pos]), Content(s1.buf[..|d|])])
  {
    hide FindPartial, FindFrom;
  }

  /** Safe content `c` left before the delimiter: a turn passes a safe amount of it. */
  lemma SafeBodyTurn(cfg: Config, s: State, unfed: string, c: string, tail: string) returns (k: nat, done: bool)
    requires Accepting(cfg) && s.phase.Body?
    requires var b := cfg.boundary;
             s.buf + unfed == c + (Delimiter(b) + tail) && NoDelimiter(b, c) && SafePart(b, c)
    ensures Passes(StepBody(cfg, s), s, unfed, cfg.boundary, c, tail, k, done)
    ensures SafePart(cfg.boundary, c[k..])
  {
    hide FindPartial, Find, At, Safe, NoDelimiter, StepBody, Delivers;
    var b := cfg.boundary;
    var d := Delimiter(b);
    BodyOutcome(cfg, s);
    if |DASHES| > |s.buf| {
      k, done := 0, false;
      assert c[0..] == c && c[..0] == "";
      NoEvents();
    } else {
      var pos := FindPartial(s.buf, DASHES, 0);
      DashesStart(b, tail);
      ScanStays(s.buf, unfed, c, d + tail);
      Cut(s.buf, unfed, c, d + tail, pos);
      SafeSuffix(c, pos, |d|);
      if |d| > |s.buf[pos..]| {
        k, done := pos, false;
        DeliversOne(c[..pos]);
      } else {
        NoDelimiterSuffix(b, c, pos);
        k, done := LongBodyTurn(cfg, s, unfed, c, tail, pos);
      }
    }
  }

  /** From `pos` on the buffer has what is left of a safe content, and is long enough to look for the delimiter. */
  ghost predicate BeforeDelimiter(b: string, buf: string, unfed: string, c: string, tail: string, pos: nat)
    requires pos <= |c| && pos <= |buf|
  {
    && buf[..pos] == c[..pos] && |buf[pos..]| >= |Delimiter(b)|
    && buf[pos..] + unfed == c[pos..] + (Delimiter(b) + tail)
    && NoDelimiter(b, c[pos..]) && SafePart(b, c[pos..])
  }

  /** The turn that finds the delimiter. */
  lemma DelimiterTurn(cfg: Config, s: State, unfed: string, c: string, tail: string, pos: nat)
    requires Accepting(cfg) && s.phase.Body? && |s.buf| >= 4 && pos == FindPartial(s.buf, DASHES, 0) && pos <= |c|
    requires BeforeDelimiter(cfg.boundary, s.buf, unfed, c, tail, pos)
    requires |c| - pos + |Delimiter(cfg.boundary)| <= |s.buf| - pos
    ensures Passes(StepBody(cfg, s), s, unfed, cfg.boundary, c, tail, |c|, true)
  {
    hide FindPartial, Find, At, Safe, NoDelimiter, StepBody, Delivers;
    var b := cfg.boundary;
    var d := Delimiter(b);
    BodyOutcome(cfg, s);
    var buf1, c1 := s.buf[pos..], c[pos..];
    DelimiterFound(b, buf1, unfed, c1, tail);
    Cut(buf1, unfed, c1, d + tail, |c1|);
    assert c1[|c1|..] + (d + tail) == d + tail;
    Begins(buf1[|c1|..], unfed, d, tail);
    assert c[..pos] + c1 == c[..|c|] && c1[..|c1|] == c1;
    assert buf1[|c1|..][|d|..] == buf1[|c1| + |d|..];
    DeliversTwo(c[..pos], c1);
  }

  /** The turn that passes as many bytes as the delimiter has. */
  lemma SkipTurn(cfg: Config, s: State, unfed: string, c: string, tail: string, pos: nat)
    requires Accepting(cfg) && s.phase.Body? && |s.buf| >= 4 && pos == FindPartial(s.buf, DASHES, 0) && pos <= |c|
    requires BeforeDelimiter(cfg.boundary, s.buf, unfed, c, tail, pos)
    requires |c| - pos + |Delimiter(cfg.boundary)| > |s.buf| - pos && pos + |Delimiter(cfg.boundary)| <= |c|
    ensures Passes(StepBody(cfg, s), s, unfed, cfg.boundary, c, tail, pos + |Delimiter(cfg.boundary)|, false)
  {
    hide FindPartial, Find, At, Safe, NoDelimiter, StepBody, Delivers;
    var b := cfg.boundary;
    var d := Delimiter(b);
    BodyOutcome(cfg, s);
    var buf1, c1 := s.buf[pos..], c[pos..];
    DelimiterFound(b, buf1, unfed, c1, tail);
    Cut(buf1, unfed, c1, d + tail, |d|);
    assert c[..pos] + c1[..|d|] == c[..pos + |d|] && c1[|d|..] == c[pos + |d|..];
    DeliversTwo(c[..pos], c1[..|d|]);
  }

  /** The turn when the buffer holds enough to look for the delimiter. */
  lemma LongBodyTurn(cfg: Config, s: State, unfed: string, c: string, tail: string, pos: nat) returns (k: nat, done: bool)
    requires Accepting(cfg) && s.phase.Body? && |s.buf| >= 4 && pos == FindPartial(s.buf, DASHES, 0) && pos <= |c|
    requires BeforeDelimiter(cfg.boundary, s.buf, unfed, c, tail, pos)
    requires At(c + (Delimiter(cfg.boundary) + tail), pos, DASHES)
    ensures Passes(StepBody(cfg, s), s, unfed, cfg.boundary, c, tail, k, done)
    ensures SafePart(cfg.boundary, c[k..])
  {
    hide FindPartial, Find, At, Safe, NoDelimiter, StepBody, Passes;
    var b := cfg.boundary;
    if |c| - pos + |Delimiter(b)| <= |s.buf| - pos {
      k, done := |c|, true;
      DelimiterTurn(cfg, s, unfed, c, tail, pos);
      assert c[|c|..] == "";
      SafeNothing(b);
    } else {
      k, done := pos + |Delimiter(b)|, false;
      SkipHere(b, c, pos, tail);
      SkipTurn(cfg, s, unfed, c, tail, pos);
    }
  }

  lemma SafeNothing(b: string)
    ensures SafePart(b, "")
  {
  }

  lemma NoEvents()
    ensures Delivers([], "")
  {
    forall got ensures Receive(got, []) == Extend(got, "") { ExtendTwice(got, "", ""); }
  }

  lemma DashesStart(b: string, tail: string)
    ensures At(Delimiter(b) + tail, 0, DASHES)
  {
    DashesAt(Delimiter(b) + tail, 0);
  }

  /** The fallback: CRLF-dash-dash without the delimiter is inside the content, so safe content covers what is passed. */
  lemma SkipHere(b: string, c: string, pos: nat, tail: string)
    requires pos < |c| && At(c + (Delimiter(b) + tail), pos, DASHES) && SafePart(b, c[pos..])
    ensures |Delimiter(b)| <= |c[pos..]| && SafePart(b, c[pos..][|Delimiter(b)|..])
  {
    DashesStart(b, tail);
    DashesInside(c, Delimiter(b) + tail, pos);
    AtSuffix(c, pos, 0, DASHES);
    SafeSkip(c[pos..], |Delimiter(b)|);
  }

  lemma BodyTurn(cfg: Config, s: State, unfed: string, got: seq<Got>, rest: Rest, all: seq<Got>) returns (rest': Rest)
    requires Inv(cfg, s, unfed, got, rest, all) && s.buf != "" && s.phase.Body? && Accepting(cfg)
    ensures Progress(cfg, Step(cfg, s), unfed, got, rest', all)
  {
    hide StepBody, Expected, Safe, NoDelimiter, TailText, GoodParts, SafeParts, Receive;
    var b, c := cfg.boundary, rest.content;
    var k, done := SafeBodyTurn(cfg, s, unfed, c, TailText(b, rest.more));
    rest' := if done then AtBoundary(rest.more) else InBody(c[k..], rest.more);
    NoDelimiterSuffix(b, c, k);
    ExtendTwice(got, c[..k], c[k..]);
    assert c[..k] + c[k..] == c && c[..|c|] == c;
  }

  lemma AnyTurn(cfg: Config, s: State, unfed: string, got: seq<Got>, rest: Rest, all: seq<Got>) returns (rest': Rest)
    requires Inv(cfg, s, unfed, got, rest, all) && s.buf != "" && Accepting(cfg)
    ensures Progress(cfg, Step(cfg, s), unfed, got, rest', all)
  {
    hide Step, Progress, GoodRest, Owed;
    match s.phase
    case Initial => rest' := InitialTurn(cfg, s, unfed, got, rest, all);
    case NewEntry => rest' := EntryTurn(cfg, s, unfed, got, rest, all);
    case Headers =>
      if rest.headers == [] { rest' := LastHeaderTurn(cfg, s, unfed, got, rest, all); }
      else { rest' := HeaderLineTurn(cfg, s, unfed, got, rest, all); }
    case Body => rest' := BodyTurn(cfg, s, unfed, got, rest, all);
    case Boundary => rest' := BoundaryTurn(cfg, s, unfed, got, rest, all);
    case Done => rest' := rest;
  }

  // ---------------------------------------------------------------- whole runs

  /** A run stops only for lack of input and keeps the invariant. */
  lemma {:induction false} RunKeeps(cfg: Config, s: State, unfed: string, got: seq<Got>, rest: Rest, all: seq<Got>) returns (rest': Rest)
    requires Inv(cfg, s, unfed, got, rest, all) && Accepting(cfg)
    ensures var r := Run(cfg, s);
            && r.ok && Inv(cfg, r.state, unfed, Receive(got, r.events), rest', all)
            && (r.state.buf == "" || unfed != "")
    decreases |s.buf|, if s.phase.NewEntry? then 1 else 0
  {
    hide Step, Inv, Receive, Accepting;
    if s.buf == "" {
      rest' := rest;
      ReceiveNothing(got);
    } else {
      var t := Step(cfg, s);
      rest' := AnyTurn(cfg, s, unfed, got, rest, all);
      if t.verdict.Continue? {
        rest' := RunKeeps(cfg, t.state, unfed, Receive(got, t.events), rest', all);
        ReceiveConcat(got, t.events, Run(cfg, t.state).events);
      }
    }
  }

  lemma ReceiveNothing(got: seq<Got>)
    ensures Receive(got, []) == got
  {
  }

  lemma {:induction false} FeedAllKeeps(cfg: Config, s: State, chunks: seq<string>, unfed: string, got: seq<Got>, rest: Rest, all: seq<Got>)
    returns (rest': Rest)
    requires Inv(cfg, s, Concat(chunks) + unfed, got, rest, all) && Accepting(cfg)
    ensures var r := FeedAll(cfg, s, chunks);
            r.ok && Inv(cfg, r.state, unfed, Receive(got, r.events), rest', all)
    ensures chunks != [] ==> FeedAll(cfg, s, chunks).state.buf == "" || unfed != ""
    decreases |chunks|
  {
    hide Run, Receive, Accepting, GoodRest, Owed, RestText;
    if chunks == [] {
      rest' := rest;
      ReceiveNothing(got);
      assert "" + unfed == unfed;
    } else {
      var s1 := s.(buf := s.buf + chunks[0]);
      var later := Concat(chunks[1..]) + unfed;
      assert s1.buf + later == s.buf + (Concat(chunks) + unfed);
      rest' := RunKeeps(cfg, s1, later, got, rest, all);
      var r := Feed(cfg, s, chunks[0]);
      rest' := FeedAllKeeps(cfg, r.state, chunks[1..], unfed, Receive(got, r.events), rest', all);
      ReceiveConcat(got, r.events, FeedAll(cfg, r.state, chunks[1..]).events);
      assert chunks[1..] == [] ==> later == "" + unfed == unfed;
    }
  }

  lemma StartInv(cfg: Config, parts: seq<Part>)
    requires parts != [] && GoodParts(cfg.boundary, parts) && SafeParts(cfg.boundary, parts)
    ensures Inv(cfg, Start(), MessageText(cfg.boundary, parts), [], AtStart(parts), Expected(cfg, parts))
  {
    hide PartsText, Expected;
    assert "" + MessageText(cfg.boundary, parts) == MessageText(cfg.boundary, parts);
    assert [] + Expected(cfg, parts) == Expected(cfg, parts);
  }

  /** Nothing is left to come and nothing is in the buffer: the message is over. */
  lemma OnlyEndIsEmpty(b: string, rest: Rest)
    requires GoodRest(b, rest) && RestText(b, rest) == ""
    ensures rest.AtEnd?
  {
  }

  /**
   Chunk independence. However a well-formed body with safe contents is cut into calls of `parse`,
   every call succeeds, the callbacks deliver exactly the parts in order, and the parser ends valid.
   */
  lemma ChunkIndependence(cfg: Config, parts: seq<Part>, chunks: seq<string>)
    requires Accepting(cfg) && parts != [] && GoodParts(cfg.boundary, parts) && SafeParts(cfg.boundary, parts)
    requires Concat(chunks) == MessageText(cfg.boundary, parts)
    ensures var r := FeedAll(cfg, Start(), chunks);
            && r.ok && r.state.phase.Done? && r.state.valid && r.state.buf == ""
            && AreParts(cfg, parts, Receive([], r.events))
            && r.state.off == |Concat(chunks)|
  {
    hide FeedAll, Expected, Receive, GoodRest, Accepting, AreParts;
    StartInv(cfg, parts);
    assert Concat(chunks) + "" == Concat(chunks);
    var rest := FeedAllKeeps(cfg, Start(), chunks, "", [], AtStart(parts), Expected(cfg, parts));
    var r := FeedAll(cfg, Start(), chunks);
    assert chunks != [];
    assert r.state.buf + "" == "";
    OnlyEndIsEmpty(cfg.boundary, rest);
    BytesAccounted(cfg, Start(), chunks);
    ExpectedExactly(cfg, parts, Receive([], r.events));
  }

  /** On every input whatsoever, accepted or not, bytes passed plus bytes buffered are the bytes fed. */
  lemma {:induction false} BytesAccounted(cfg: Config, s: State, chunks: seq<string>)
    ensures var r := FeedAll(cfg, s, chunks);
            r.state.off + |r.state.buf| <= s.off + |s.buf| + |Concat(chunks)|
    ensures var r := FeedAll(cfg, s, chunks);
            r.ok ==> r.state.off + |r.state.buf| == s.off + |s.buf| + |Concat(chunks)|
    decreases |chunks|
  {
    hide Feed;
    if chunks != [] {
      BytesAccounted(cfg, Feed(cfg, s, chunks[0]).state, chunks[1..]);
    }
  }
}
