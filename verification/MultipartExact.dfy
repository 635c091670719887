/**
 Safe contents are exactly those that every way of cutting the body delivers: for any other body
 there is a cut after which the parser passes part of a delimiter as content.
 */
module MultipartExact {
  import opened Texts
  import opened Multipart
  import opened MultipartTheorems

  // ---------------------------------------------------------------- where unsafe content goes wrong

  /** The first CRLF-dash-dash that the scan meets with too little content after it. */
  function UnsafeAt(c: string, m: nat): (p: nat)
    requires m > 0 && !Safe(c, m)
    ensures p + 4 <= |c| && At(c, p, DASHES) && |c| - p < m
    decreases |c|
  {
    var p := Find(c, DASHES).value;
    if |c| - p < m then p
    else
      var q := UnsafeAt(c[p + m..], m);
      AtSuffix(c, p + m, q, DASHES);
      p + m + q
  }

  /** The content before that point is safe. */
  lemma {:induction false} SafeBefore(c: string, m: nat)
    requires m >= 4 && !Safe(c, m)
    ensures Safe(c[..UnsafeAt(c, m)], m)
    decreases |c|
  {
    hide FindFrom, At;
    var p := Find(c, DASHES).value;
    var u := UnsafeAt(c, m);
    var d := c[..u];
    assert d + c[u..] == c;
    FindInPrefix(d, c[u..], DASHES);
    if |c| - p >= m {
      SafeBefore(c[p + m..], m);
      assert d[p + m..] == c[p + m..][..u - (p + m)];
    }
  }

  lemma NoDelimiterBefore(b: string, c: string, u: nat)
    requires NoDelimiter(b, c) && At(c, u, DASHES) && '\r' !in b
    ensures NoDelimiter(b, c[..u])
  {
    var d := Delimiter(b);
    AtBounds(c, u, DASHES);
    var s := c[..u] + d;
    forall q: nat | q < u ensures !At(s, q, d) {
      if q + |d| <= u {
        assert s[q..q + |d|] == (c + d)[q..q + |d|];
        assert !At(c + d, q, d);
      } else {
        NoInnerReturn(b, u - q);
        assert s[u] == d[0];
        if At(s, q, d) { AtChar(s, q, d, u - q); }
      }
    }
  }

  /** A delimiter starts with a carriage return and has no other. */
  lemma NoInnerReturn(b: string, i: nat)
    requires 0 < i < |Delimiter(b)| && '\r' !in b
    ensures Delimiter(b)[0] == '\r' && Delimiter(b)[i] != '\r'
  {
    if i < 4 {
      assert Delimiter(b)[i] == DASHES[i];
    } else {
      assert Delimiter(b)[i] == b[i - 4];
    }
  }

  // ---------------------------------------------------------------- the text before a part's content

  function Before(b: string, parts: seq<Part>, headers: seq<string>): string
    decreases |parts|
  {
    if parts == [] then HeaderText(headers)
    else HeaderText(parts[0].headers) + (parts[0].content + (Delimiter(b) + (CRLF + Before(b, parts[1..], headers))))
  }

  lemma {:induction false} SplitParts(b: string, parts: seq<Part>, p: Part, more: seq<Part>)
    ensures PartsText(b, parts + [p] + more) == Before(b, parts, p.headers) + BodyText(b, p.content, more)
    decreases |parts|
  {
    hide HeaderText;
    var all := parts + [p] + more;
    if parts == [] {
      assert all == [p] + more && all[0] == p && all[1..] == more;
    } else {
      assert all[0] == parts[0] && all[1..] == parts[1..] + [p] + more;
      SplitParts(b, parts[1..], p, more);
      var before, body := Before(b, parts[1..], p.headers), BodyText(b, p.content, more);
      var h, c, d := HeaderText(parts[0].headers), parts[0].content, Delimiter(b);
      assert PartsText(b, all) == h + (c + (d + TailText(b, all[1..])));
      assert TailText(b, all[1..]) == CRLF + (before + body);
      assert h + (c + (d + (CRLF + (before + body)))) == (h + (c + (d + (CRLF + before)))) + body;
    }
  }

  lemma {:induction false} TailLength(b: string, parts: seq<Part>)
    ensures |TailText(b, parts)| >= 4
    ensures parts != [] ==> |PartsText(b, parts)| >= |Delimiter(b)| + 6 && |TailText(b, parts)| >= |Delimiter(b)| + 8
    decreases |parts|
  {
    hide HeaderText;
    if parts == [] {
      assert TailText(b, []) == "--" + CRLF;
    } else {
      TailLength(b, parts[1..]);
      HeaderLength(parts[0].headers);
      assert |BodyText(b, parts[0].content, parts[1..])| >= |Delimiter(b)| + |TailText(b, parts[1..])|;
      assert |PartsText(b, parts)| >= 2 + |Delimiter(b)| + 4;
      assert TailText(b, parts) == CRLF + PartsText(b, parts);
    }
  }

  lemma {:induction false} HeaderLength(headers: seq<string>)
    ensures |HeaderText(headers)| >= 2 && At(HeaderText(headers), |HeaderText(headers)| - 2, CRLF)
    decreases |headers|
  {
    if headers != [] {
      HeaderLength(headers[1..]);
      var h, t := headers[0] + CRLF, HeaderText(headers[1..]);
      AtSuffix(h + t, |h|, |t| - 2, CRLF);
      assert (h + t)[|h|..] == t;
    }
  }

  // ---------------------------------------------------------------- a parser that waits

  /** Nothing more happens without more input. */
  ghost predicate Stalled(cfg: Config, s: State) {
    s.buf == "" || Step(cfg, s).verdict.Wait?
  }

  lemma WaitStalls(cfg: Config, s: State)
    requires Accepting(cfg) && s.buf != "" && Step(cfg, s).verdict.Wait?
    ensures Stalled(cfg, Step(cfg, s).state)
  {
    if s.phase.Body? {
      hide Step;
      BodyStep(cfg, s);
      var s' := StepBody(cfg, s).state;
      if s'.buf != "" {
        BodyStep(cfg, s');
        BodyWaitsOn(cfg, s);
      }
    } else {
      hide StepBody;
    }
  }

  lemma BodyStep(cfg: Config, s: State)
    requires s.phase.Body? && s.buf != ""
    ensures Step(cfg, s) == StepBody(cfg, s)
  {
  }

  /** After a wait in the body, the buffer begins with what may be a delimiter and is too short to tell. */
  lemma BodyWaitsOn(cfg: Config, s: State)
    requires Accepting(cfg) && s.phase.Body? && StepBody(cfg, s).verdict.Wait?
    ensures var s' := StepBody(cfg, s).state; s'.phase.Body? && StepBody(cfg, s').verdict.Wait?
  {
    hide FindPartial, Find;
  }

  lemma {:induction false} RunStalls(cfg: Config, s: State)
    requires Accepting(cfg) && Run(cfg, s).ok
    ensures Stalled(cfg, Run(cfg, s).state)
    decreases |s.buf|, if s.phase.NewEntry? then 1 else 0
  {
    hide Step;
    if s.buf != "" {
      var t := Step(cfg, s);
      if t.verdict.Continue? { RunStalls(cfg, t.state); }
      else { WaitStalls(cfg, s); }
    }
  }

  lemma StartGoesOn(cfg: Config, s: State, unfed: string, parts: seq<Part>)
    requires parts != [] && s.phase.Initial? && s.buf + unfed == MessageText(cfg.boundary, parts)
    requires |unfed| == |Delimiter(cfg.boundary)| + 4
    ensures !Stalled(cfg, s)
  {
    hide PartsText;
    var pattern := "--" + cfg.boundary + CRLF;
    TailLength(cfg.boundary, parts);
    Begins(s.buf, unfed, pattern, PartsText(cfg.boundary, parts));
    FindIs(s.buf, pattern, 0);
  }

  lemma HeadersGoOn(cfg: Config, s: State, unfed: string, h: seq<string>, c: string, more: seq<Part>)
    requires s.phase.Headers? && s.buf + unfed == HeaderText(h) + BodyText(cfg.boundary, c, more)
    requires |unfed| == |Delimiter(cfg.boundary)| + 4
    ensures !Stalled(cfg, s)
  {
    hide HeaderText, TailText;
    TailLength(cfg.boundary, more);
    HeaderLength(h);
    var ht := HeaderText(h);
    Begins(s.buf, unfed, ht, BodyText(cfg.boundary, c, more));
    AtPrefix(ht, s.buf[|ht|..], |ht| - 2, CRLF);
    assert ht + s.buf[|ht|..] == s.buf;
  }

  lemma BodyGoesOn(cfg: Config, s: State, unfed: string, c: string, more: seq<Part>)
    requires Accepting(cfg) && more != [] && s.phase.Body? && s.buf + unfed == BodyText(cfg.boundary, c, more)
    requires |unfed| == |Delimiter(cfg.boundary)| + 4
    ensures !Stalled(cfg, s)
  {
    hide TailText, FindPartial, Find;
    var b := cfg.boundary;
    TailLength(b, more);
    DashesStart(b, TailText(b, more));
    ScanStays(s.buf, unfed, c, Delimiter(b) + TailText(b, more));
    BodyOutcome(cfg, s);
  }

  lemma BoundaryGoesOn(cfg: Config, s: State, unfed: string, more: seq<Part>)
    requires s.phase.Boundary? && s.buf + unfed == TailText(cfg.boundary, more)
    requires |unfed| == |Delimiter(cfg.boundary)| + 4
    ensures !Stalled(cfg, s)
  {
    hide PartsText;
    TailLength(cfg.boundary, more);
    if more != [] {
      Begins(s.buf, unfed, CRLF, PartsText(cfg.boundary, more));
    }
  }

  /** A parser that waits with the rest of safe content in its buffer has no CRLF-dash-dash there. */
  lemma BodyStops(cfg: Config, s: State, c: string)
    requires Accepting(cfg) && s.phase.Body? && s.buf == c && Stalled(cfg, s)
    requires NoDelimiter(cfg.boundary, c) && SafePart(cfg.boundary, c)
    ensures forall q: nat :: !At(c, q, DASHES)
  {
    hide FindPartial, FindFrom, Safe;
    var b := cfg.boundary;
    var tail := Delimiter(b) + "";
    DashesStart(b, "");
    BodyOutcome(cfg, s);
    var pos := FindPartial(c, DASHES, 0);
    if |c| >= 4 {
      ScanStays(c, tail, c, tail);
      SafeSuffix(c, pos, |Delimiter(b)|);
      if |c| - pos >= 4 {
        SkipHere(b, c, pos, "");
      }
      forall q: nat | q >= pos ensures !At(c, q, DASHES) { AtBoundsIf(c, q); }
    } else {
      forall q: nat ensures !At(c, q, DASHES) { AtBoundsIf(c, q); }
    }
  }

  lemma AtBoundsIf(c: string, q: nat)
    ensures At(c, q, DASHES) ==> q + 4 <= |c|
  {
  }

  lemma SameFront(a: string, b: string, x: string)
    requires a + x == b + x
    ensures a == b
  {
    assert |a| == |b|;
    assert a == (a + x)[..|a|] && b == (b + x)[..|b|];
  }

  /** If the input so far ends right before a last delimiter, a waiting parser is in the content it belongs to. */
  lemma StalledInBody(cfg: Config, s: State, unfed: string, got: seq<Got>, rest: Rest, all: seq<Got>)
    requires Accepting(cfg) && Inv(cfg, s, unfed, got, rest, all) && Stalled(cfg, s)
    requires unfed == Delimiter(cfg.boundary) + TailText(cfg.boundary, [])
    ensures rest.InBody? && rest.more == [] && s.buf == rest.content
    ensures forall q: nat :: !At(s.buf, q, DASHES)
  {
    hide Owed;
    var b := cfg.boundary;
    match rest
    case AtStart(parts) => StartGoesOn(cfg, s, unfed, parts);
    case AtEntry(parts) => TailLength(b, parts);
    case InHeaders(h, c, more) => HeadersGoOn(cfg, s, unfed, h, c, more);
    case InBody(c, more) =>
      if more != [] { BodyGoesOn(cfg, s, unfed, c, more); }
      SameFront(s.buf, c, unfed);
      BodyStops(cfg, s, c);
    case AtBoundary(more) => BoundaryGoesOn(cfg, s, unfed, more);
    case AtEnd =>
  }

  // ---------------------------------------------------------------- the bad cut

  /** No content holds CRLF-dash-dash yet; the next bytes start with it but are not the delimiter: they are passed as content. */
  lemma Swallows(cfg: Config, s: State, bytes: string)
    requires Accepting(cfg) && s.phase.Body? && (forall q: nat :: !At(s.buf, q, DASHES))
    requires |bytes| == |Delimiter(cfg.boundary)| && At(bytes, 0, DASHES) && bytes != Delimiter(cfg.boundary)
    ensures var r := Feed(cfg, s, bytes);
            r.ok && r.events == [Content(s.buf), Content(bytes)]
  {
    hide StepBody, FindFrom, FindPartial;
    var d := Delimiter(cfg.boundary);
    var buf := s.buf + bytes;
    var s' := s.(buf := buf);
    ScanFinds(s.buf, bytes);
    BodyOutcome(cfg, s');
    assert buf[..|s.buf|] == s.buf && buf[|s.buf|..] == bytes && bytes[..|d|] == bytes;
    forall q: nat ensures !At(bytes, q, d) {
      assert q == 0 ==> bytes[q..] == bytes;
    }
    var t := Step(cfg, s');
    assert t.state.buf == "";
    assert Run(cfg, t.state).events == [];
    assert [Content(s.buf), Content(bytes)] + [] == [Content(s.buf), Content(bytes)];
  }

  lemma ScanFinds(held: string, bytes: string)
    requires (forall q: nat :: !At(held, q, DASHES)) && At(bytes, 0, DASHES)
    ensures FindPartial(held + bytes, DASHES, 0) == |held|
  {
    hide FindPartial;
    var buf := held + bytes;
    AtBounds(bytes, 0, DASHES);
    PartialBounds(buf, 0);
    var r := FindPartial(buf, DASHES, 0);
    AtSuffix(buf, |held|, 0, DASHES);
    assert buf[|held|..] == bytes;
    if r < |held| {
      DashesInside(held, bytes, r);
    }
  }

  /** Received content never shrinks. */
  lemma {:induction false} ContentGrows(got: seq<Got>, events: seq<Event>, i: nat)
    requires i < |got|
    ensures i < |Receive(got, events)| && |Receive(got, events)[i].content| >= |got[i].content|
    decreases |events|
  {
    if events != [] {
      match events[0]
      case Header(f) => ContentGrows(got + [Got(f, "")], events[1..], i);
      case Content(data) => ContentGrows(Extend(got, data), events[1..], i);
    }
  }

  // ---------------------------------------------------------------- the exact condition

  /** Every call succeeded and the callbacks delivered the parts. */
  ghost predicate Delivered(cfg: Config, parts: seq<Part>, chunks: seq<string>) {
    var r := FeedAll(cfg, Start(), chunks);
    r.ok && AreParts(cfg, parts, Receive([], r.events))
  }

  /** The parts up to the unsafe one, that one cut short where its content goes wrong. */
  function Truncated(parts: seq<Part>, i: nat, u: nat): (r: seq<Part>)
    requires i < |parts| && u <= |parts[i].content|
    ensures |r| == i + 1
  {
    parts[..i] + [Part(parts[i].headers, parts[i].content[..u])]
  }

  lemma TruncatedGood(b: string, parts: seq<Part>, i: nat)
    requires GoodParts(b, parts) && '\r' !in b && i < |parts| && SafeParts(b, parts[..i]) && !SafePart(b, parts[i].content)
    ensures var t := Truncated(parts, i, UnsafeAt(parts[i].content, |Delimiter(b)|));
            GoodParts(b, t) && SafeParts(b, t)
  {
    hide Safe, NoDelimiter, GoodHeaders;
    var c := parts[i].content;
    var u := UnsafeAt(c, |Delimiter(b)|);
    SafeBefore(c, |Delimiter(b)|);
    NoDelimiterBefore(b, c, u);
    var t := Truncated(parts, i, u);
    assert forall j :: 0 <= j < i ==> t[j] == parts[j] && parts[..i][j] == parts[j];
  }

  lemma MessageAround(b: string, parts: seq<Part>, p: Part, more: seq<Part>)
    ensures MessageText(b, parts + [p] + more) == "--" + b + CRLF + Before(b, parts, p.headers) + (p.content + (Delimiter(b) + TailText(b, more)))
  {
    hide HeaderText, Before;
    SplitParts(b, parts, p, more);
    var head, before, body := "--" + b + CRLF, Before(b, parts, p.headers), BodyText(b, p.content, more);
    assert head + (before + body) == head + before + body;
  }

  /** The message up to the bad place, the bytes that are swallowed there, and the rest. */
  lemma BadCut(b: string, parts: seq<Part>, i: nat) returns (before: string, bytes: string, rest: string)
    requires GoodParts(b, parts) && i < |parts| && !SafePart(b, parts[i].content)
    ensures var c := parts[i].content;
            var u := UnsafeAt(c, |Delimiter(b)|);
            && before + bytes + rest == MessageText(b, parts)
            && before + (Delimiter(b) + TailText(b, [])) == MessageText(b, Truncated(parts, i, u))
            && |bytes| == |Delimiter(b)| && At(bytes, 0, DASHES) && bytes != Delimiter(b)
  {
    hide HeaderText, Before, MessageText, TailText, Safe, UnsafeAt, GoodHeaders, NoDelimiter;
    var d, c, more := Delimiter(b), parts[i].content, parts[i + 1..];
    var u := UnsafeAt(c, |d|);
    var first := "--" + b + CRLF + Before(b, parts[..i], parts[i].headers);
    MessageAround(b, parts[..i], parts[i], more);
    assert parts[..i] + [parts[i]] + more == parts;
    MessageAround(b, parts[..i], Part(parts[i].headers, c[..u]), []);
    assert Truncated(parts, i, u) + [] == Truncated(parts, i, u);
    before, bytes, rest := first + c[..u], (c + d)[u..u + |d|], (c + d)[u + |d|..] + TailText(b, more);
    CutText(first, c, d, TailText(b, more), u);
    assert first + (c[..u] + (d + TailText(b, []))) == before + (d + TailText(b, []));
    SwallowedBytes(b, c, u);
  }

  lemma CutText(first: string, c: string, d: string, tail: string, u: nat)
    requires u <= |c|
    ensures first + (c + (d + tail)) == (first + c[..u]) + (c + d)[u..u + |d|] + ((c + d)[u + |d|..] + tail)
  {
    var s := c + d;
    assert s == s[..u] + s[u..u + |d|] + s[u + |d|..];
    assert s[..u] == c[..u];
    assert c + (d + tail) == s + tail;
  }

  lemma SwallowedBytes(b: string, c: string, u: nat)
    requires NoDelimiter(b, c) && u < |c| && At(c, u, DASHES)
    ensures var bytes := (c + Delimiter(b))[u..u + |Delimiter(b)|];
            At(bytes, 0, DASHES) && bytes != Delimiter(b)
  {
    var d := Delimiter(b);
    var s := c + d;
    AtPrefix(c, d, u, DASHES);
    AtSuffix(s, u, 0, DASHES);
    AtPrefix(s[u..u + |d|], s[u + |d|..], 0, DASHES);
    assert s[u..u + |d|] + s[u + |d|..] == s[u..];
    assert !At(s, u, d);
  }

  /** After the text before the bad place, the next bytes make the part too long. */
  lemma AfterBadCut(cfg: Config, parts: seq<Part>, i: nat, before: string, bytes: string) returns (got: seq<Got>)
    requires var b := cfg.boundary; Accepting(cfg) && i < |parts| && parts != [] && GoodParts(b, parts) && SafeParts(b, parts)
    requires i == |parts| - 1 && before + (Delimiter(cfg.boundary) + TailText(cfg.boundary, [])) == MessageText(cfg.boundary, parts)
    requires |bytes| == |Delimiter(cfg.boundary)| && At(bytes, 0, DASHES) && bytes != Delimiter(cfg.boundary)
    ensures var r := Feed(cfg, Start(), before);
            var r2 := Feed(cfg, r.state, bytes);
            && r.ok && r2.ok && Receive(Receive([], r.events), r2.events) == got
    ensures |got| == i + 1 && |got[i].content| == |parts[i].content| + |bytes|
  {
    hide Expected, Receive, Accepting, GoodRest, GoodParts, SafeParts, PartsText, Feed, Step;
    var b := cfg.boundary;
    var unfed := Delimiter(b) + TailText(b, []);
    var all := Expected(cfg, parts);
    StartInv(cfg, parts);
    FeedIsRun(cfg, Start(), before);
    var s := Start().(buf := before);
    assert "" + before == before;
    var rest := RunKeeps(cfg, s, unfed, [], AtStart(parts), all);
    var r := Run(cfg, s);
    RunStalls(cfg, s);
    var got0 := Receive([], r.events);
    StalledInBody(cfg, r.state, unfed, got0, rest, all);
    Swallows(cfg, r.state, bytes);
    ReceiveTwo(got0, r.state.buf, bytes);
    got := Extend(got0, r.state.buf + bytes);
    NothingMore(cfg, got0, rest.content, all);
    ExtendTwice(got0, rest.content, bytes);
    ExpectedAt(cfg, parts, i);
    assert got == Extend(all, bytes);
  }

  lemma NothingMore(cfg: Config, got: seq<Got>, c: string, all: seq<Got>)
    requires Extend(got, c) + Expected(cfg, []) == all
    ensures Extend(got, c) == all
  {
  }

  lemma TwoFeeds(cfg: Config, s: State, a: string, b: string, c: string)
    requires Feed(cfg, s, a).ok && Feed(cfg, Feed(cfg, s, a).state, b).ok
    ensures var r1 := Feed(cfg, s, a);
            var r2 := Feed(cfg, r1.state, b);
            var r := FeedAll(cfg, s, [a, b, c]);
            && Concat([a, b, c]) == a + b + c
            && exists tail :: r.events == r1.events + (r2.events + tail)
  {
    hide Feed;
    var r1 := Feed(cfg, s, a);
    var r2 := Feed(cfg, r1.state, b);
    assert [a, b, c][1..] == [b, c] && [b, c][1..] == [c] && [c][1..] == [];
    var r3 := FeedAll(cfg, r2.state, [c]);
    assert FeedAll(cfg, r1.state, [b, c]).events == r2.events + r3.events;
    assert FeedAll(cfg, s, [a, b, c]).events == r1.events + (r2.events + r3.events);
    assert Concat([c]) == c + Concat([]);
    assert Concat([b, c]) == b + Concat([c]);
    assert a + (b + (c + "")) == a + b + c;
  }

  /** A body with an unsafe content has a cut that delivers something else. */
  lemma UnsafeFails(cfg: Config, parts: seq<Part>, i: nat) returns (chunks: seq<string>)
    requires Accepting(cfg) && GoodParts(cfg.boundary, parts) && '\r' !in cfg.boundary
    requires i < |parts| && SafeParts(cfg.boundary, parts[..i]) && !SafePart(cfg.boundary, parts[i].content)
    ensures Concat(chunks) == MessageText(cfg.boundary, parts) && !Delivered(cfg, parts, chunks)
  {
    hide Feed, FeedAll, Receive, Expected, GoodParts, SafeParts, Accepting, Safe, PartsText, UnsafeAt;
    var b := cfg.boundary;
    var before, bytes, rest := BadCut(b, parts, i);
    var u := UnsafeAt(parts[i].content, |Delimiter(b)|);
    TruncatedGood(b, parts, i);
    var cut := Truncated(parts, i, u);
    var got := AfterBadCut(cfg, cut, i, before, bytes);
    TwoFeeds(cfg, Start(), before, bytes, rest);
    chunks := [before, bytes, rest];
    var r1 := Feed(cfg, Start(), before);
    var r2 := Feed(cfg, r1.state, bytes);
    var tail :| FeedAll(cfg, Start(), chunks).events == r1.events + (r2.events + tail);
    ReceiveConcat([], r1.events, r2.events + tail);
    ReceiveConcat(Receive([], r1.events), r2.events, tail);
    ContentGrows(got, tail, i);
    ExpectedAt(cfg, parts, i);
  }

  lemma {:induction false} FirstUnsafe(b: string, parts: seq<Part>) returns (i: nat)
    requires !SafeParts(b, parts)
    ensures i < |parts| && SafeParts(b, parts[..i]) && !SafePart(b, parts[i].content)
    decreases |parts|
  {
    hide SafePart;
    var n := |parts| - 1;
    if SafeParts(b, parts[..n]) {
      i := n;
      assert forall j :: 0 <= j < n ==> parts[..n][j] == parts[j];
    } else {
      i := FirstUnsafe(b, parts[..n]);
      assert parts[..n][..i] == parts[..i];
    }
  }

  /**
   The exact condition. With a boundary free of carriage returns, every way of cutting a well-formed
   body into calls of `parse` delivers the parts if and only if every content is safe.
   */
  lemma ChunkIndependenceExactly(cfg: Config, parts: seq<Part>)
    requires Accepting(cfg) && parts != [] && GoodParts(cfg.boundary, parts) && '\r' !in cfg.boundary
    ensures SafeParts(cfg.boundary, parts)
       <==> forall chunks :: Concat(chunks) == MessageText(cfg.boundary, parts) ==> Delivered(cfg, parts, chunks)
  {
    hide FeedAll, Receive, Expected, GoodParts, SafeParts, Accepting;
    if SafeParts(cfg.boundary, parts) {
      forall chunks | Concat(chunks) == MessageText(cfg.boundary, parts) ensures Delivered(cfg, parts, chunks) {
        ChunkIndependence(cfg, parts, chunks);
      }
    } else {
      var i := FirstUnsafe(cfg.boundary, parts);
      var chunks := UnsafeFails(cfg, parts, i);
    }
  }

  /** Content without CRLF-dash-dash, the case of every ordinary form, is safe and free of delimiters. */
  lemma OrdinaryContent(b: string, content: string)
    requires Find(content, DASHES).None?
    ensures SafePart(b, content) && NoDelimiter(b, content)
  {
    var d := Delimiter(b);
    forall q: nat | q < |content| ensures !At(content + d, q, d) {
      assert d + "" == d;
      DashesStart(b, "");
      DashesInside(content, d, q);
      if At(content + d, q, d) { AtConcat(content + d, q, DASHES, b); }
    }
  }

  lemma ShortContentUnsafe()
    ensures NoDelimiter("bb", "\r\n--x") && !SafePart("bb", "\r\n--x")
  {
    var c, d := "\r\n--x", Delimiter("bb");
    DashesAt(c, 0);
    FindIs(c, DASHES, 0);
    forall q: nat | q < |c| ensures !At(c + d, q, d) {
      if At(c + d, q, d) {
        AtChar(c + d, q, d, 0);
        AtChar(c + d, q, d, 4);
      }
    }
  }

  /** With the boundary "bb", a part with the content CRLF, two dashes and an x, and how it is cut to be lost. */
  lemma ShortContentFails(cfg: Config) returns (chunks: seq<string>)
    requires Accepting(cfg) && cfg.boundary == "bb"
    ensures var parts := [Part([], "\r\n--x")];
            && GoodParts("bb", parts) && !SafeParts("bb", parts)
            && Concat(chunks) == MessageText("bb", parts) && !Delivered(cfg, parts, chunks)
  {
    hide NoDelimiter, SafePart, Accepting, Delivered;
    var parts := [Part([], "\r\n--x")];
    ShortContentUnsafe();
    assert parts[..0] == [] && !SafePart("bb", parts[0].content);
    chunks := UnsafeFails(cfg, parts, 0);
  }
}
