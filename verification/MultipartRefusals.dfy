/** What the multipart parser does with refusing callbacks and with input that is no well-formed body. */
module MultipartRefusals {
  import opened Texts
  import opened Multipart
  import opened MultipartTheorems

  // ---------------------------------------------------------------- refusals

  /** The callback that was called accepted. */
  predicate Granted(cfg: Config, e: Event) {
    match e
    case Header(file) => cfg.onHeader(file)
    case Content(data) => cfg.onContent(data)
  }

  /** All calls were accepted but perhaps the last one, after which the parser has stopped, invalid. */
  ghost predicate StopsAtRefusal(cfg: Config, ok: bool, s: State, events: seq<Event>) {
    && (forall k :: 0 <= k < |events| - 1 ==> Granted(cfg, events[k]))
    && (events != [] && !Granted(cfg, events[|events| - 1]) ==> !ok && !s.valid)
  }

  ghost predicate AllGranted(cfg: Config, events: seq<Event>) {
    forall k :: 0 <= k < |events| ==> Granted(cfg, events[k])
  }

  lemma StopsAfter(cfg: Config, before: seq<Event>, ok: bool, s: State, events: seq<Event>)
    requires AllGranted(cfg, before) && StopsAtRefusal(cfg, ok, s, events)
    ensures StopsAtRefusal(cfg, ok, s, before + events)
  {
    hide Granted;
  }

  lemma OkGrants(cfg: Config, s: State, events: seq<Event>)
    requires StopsAtRefusal(cfg, true, s, events)
    ensures AllGranted(cfg, events)
  {
    hide Granted;
  }

  lemma StepStops(cfg: Config, s: State)
    requires s.buf != ""
    ensures var t := Step(cfg, s); StopsAtRefusal(cfg, !t.verdict.Reject?, t.state, t.events)
  {
    hide FindPartial, FindFrom, At, ApplyHeader;
  }

  lemma {:induction false} RunStops(cfg: Config, s: State)
    ensures var r := Run(cfg, s); StopsAtRefusal(cfg, r.ok, r.state, r.events)
    decreases |s.buf|, if s.phase.NewEntry? then 1 else 0
  {
    hide Step, StopsAtRefusal;
    if s.buf == "" {
      NothingStops(cfg, s);
    } else {
      var t := Step(cfg, s);
      StepStops(cfg, s);
      if t.verdict.Continue? {
        OkGrants(cfg, t.state, t.events);
        RunStops(cfg, t.state);
        var r := Run(cfg, t.state);
        StopsAfter(cfg, t.events, r.ok, r.state, r.events);
      }
    }
  }

  lemma NothingStops(cfg: Config, s: State)
    ensures StopsAtRefusal(cfg, true, s, [])
  {
  }

  /**
   Refusals, on every input and from every state: a callback that refuses is the last to be called,
   the call of `parse` it belongs to fails, and the parser is not valid.
   */
  lemma {:induction false} RefusalStops(cfg: Config, s: State, chunks: seq<string>)
    ensures var r := FeedAll(cfg, s, chunks); StopsAtRefusal(cfg, r.ok, r.state, r.events)
    decreases |chunks|
  {
    hide Run, StopsAtRefusal;
    if chunks == [] {
      NothingStops(cfg, s);
    } else {
      var r := Feed(cfg, s, chunks[0]);
      RunStops(cfg, s.(buf := s.buf + chunks[0]));
      if r.ok {
        OkGrants(cfg, r.state, r.events);
        RefusalStops(cfg, r.state, chunks[1..]);
        var rest := FeedAll(cfg, r.state, chunks[1..]);
        StopsAfter(cfg, r.events, rest.ok, rest.state, rest.events);
      }
    }
  }

  // ---------------------------------------------------------------- validity

  lemma {:induction false} RunValid(cfg: Config, s: State)
    requires s.valid ==> s.phase.Done?
    ensures Run(cfg, s).state.valid ==> Run(cfg, s).state.phase.Done?
    decreases |s.buf|, if s.phase.NewEntry? then 1 else 0
  {
    hide FindFrom, FindPartial, At, ApplyHeader;
    if s.buf != "" && Step(cfg, s).verdict.Continue? { RunValid(cfg, Step(cfg, s).state); }
  }

  /** On every input, the parser is only valid when it has passed the closing line. */
  lemma {:induction false} ValidOnlyAtEnd(cfg: Config, s: State, chunks: seq<string>)
    requires s == Start() || (s.valid ==> s.phase.Done?)
    ensures FeedAll(cfg, s, chunks).state.valid ==> FeedAll(cfg, s, chunks).state.phase.Done?
    decreases |chunks|
  {
    hide Run;
    if chunks != [] {
      RunValid(cfg, s.(buf := s.buf + chunks[0]));
      ValidOnlyAtEnd(cfg, Feed(cfg, s, chunks[0]).state, chunks[1..]);
    }
  }

  // ---------------------------------------------------------------- the start of the body

  /** The first line of a body with this boundary. */
  function FirstLine(b: string): string { "--" + b + "\r\n" }

  lemma StartRuns(cfg: Config, s: State)
    requires s.phase.Initial?
    ensures |s.buf| < |FirstLine(cfg.boundary)| ==> Run(cfg, s) == Result(true, s, [])
    ensures |s.buf| >= |FirstLine(cfg.boundary)| && !(FirstLine(cfg.boundary) <= s.buf) ==> Run(cfg, s) == Result(false, s, [])
  {
    hide FindFrom, StepHeaders, StepBody;
    var p := FirstLine(cfg.boundary);
    if |s.buf| >= |p| { assert At(s.buf, 0, p) <==> p <= s.buf; }
  }

  /**
   Nothing may come before the first line. Until so many bytes are there the parser waits; then, if
   they are not that line, it fails without a callback. Section 5.1.1 of RFC 2046 allows a preamble.
   */
  lemma {:induction false} StartExactly(cfg: Config, s: State, chunks: seq<string>)
    requires s.phase.Initial? && |s.buf| < |FirstLine(cfg.boundary)|
    ensures var (all, p, r) := (s.buf + Concat(chunks), FirstLine(cfg.boundary), FeedAll(cfg, s, chunks));
            && (|all| < |p| ==> r == Result(true, s.(buf := all), []))
            && (|all| >= |p| && !(p <= all) ==> !r.ok && r.events == [] && r.state.phase.Initial? && r.state.valid == s.valid)
    decreases |chunks|
  {
    hide Run, FirstLine;
    var all, p := s.buf + Concat(chunks), FirstLine(cfg.boundary);
    if chunks == [] {
      assert s.buf + "" == s.buf;
    } else {
      var s1 := s.(buf := s.buf + chunks[0]);
      StartRuns(cfg, s1);
      assert all == s1.buf + Concat(chunks[1..]);
      if |s1.buf| < |p| {
        StartExactly(cfg, s1, chunks[1..]);
        assert [] + FeedAll(cfg, s1, chunks[1..]).events == FeedAll(cfg, s1, chunks[1..]).events;
      } else {
        assert p <= s1.buf ==> p <= all by {
          if p <= s1.buf { assert all[..|p|] == s1.buf[..|p|]; }
        }
        assert p <= all ==> p <= s1.buf by {
          if p <= all { assert all[..|p|] == s1.buf[..|p|]; }
        }
      }
    }
  }

  // ---------------------------------------------------------------- after a delimiter, and after the end

  /** What leads on after a delimiter. */
  predicate LeadsOn(s: string) { "\r\n" <= s || "--\r\n" <= s }

  lemma LeadsOnLater(s: string, rest: string)
    ensures LeadsOn(s) ==> LeadsOn(s + rest)
  {
    assert (s + rest)[..|s|] == s;
    if "\r\n" <= s { assert (s + rest)[..2] == s[..2]; }
    if "--\r\n" <= s { assert (s + rest)[..4] == s[..4]; }
  }

  lemma BoundaryWaits(cfg: Config, s: State)
    requires s.phase.Boundary? && !LeadsOn(s.buf)
    ensures Run(cfg, s) == Result(true, s, [])
  {
    hide StepHeaders, StepBody, FindFrom;
    if |s.buf| >= 2 { assert At(s.buf, 0, CRLF) <==> "\r\n" <= s.buf; }
    if |s.buf| >= 4 { assert At(s.buf, 0, "--" + CRLF) <==> "--\r\n" <= s.buf; }
  }

  lemma FeedFirst(cfg: Config, s: State, chunks: seq<string>)
    requires chunks != [] && Run(cfg, s.(buf := s.buf + chunks[0])) == Result(true, s.(buf := s.buf + chunks[0]), [])
    ensures FeedAll(cfg, s, chunks) == FeedAll(cfg, s.(buf := s.buf + chunks[0]), chunks[1..])
  {
    hide Run;
    var rest := FeedAll(cfg, s.(buf := s.buf + chunks[0]), chunks[1..]);
    assert [] + rest.events == rest.events;
  }

  /**
   After a delimiter only an end of line or the closing dashes lead on. Before anything else, white
   space too, the parser waits for ever: no call fails, nothing more is delivered, nothing gets valid.
   */
  lemma {:induction false} BoundaryStalls(cfg: Config, s: State, chunks: seq<string>)
    requires s.phase.Boundary? && !LeadsOn(s.buf + Concat(chunks))
    ensures FeedAll(cfg, s, chunks) == Result(true, s.(buf := s.buf + Concat(chunks)), [])
    decreases |chunks|
  {
    hide Run, Feed, LeadsOn;
    if chunks == [] {
      assert s.buf + "" == s.buf;
    } else {
      var s1, rest := s.(buf := s.buf + chunks[0]), Concat(chunks[1..]);
      assert s.buf + Concat(chunks) == s1.buf + rest;
      LeadsOnLater(s1.buf, rest);
      BoundaryWaits(cfg, s1);
      FeedFirst(cfg, s, chunks);
      BoundaryStalls(cfg, s1, chunks[1..]);
    }
  }

  lemma {:induction false} FeedMore(cfg: Config, s: State, chunks: seq<string>, last: string)
    ensures var (r, all) := (FeedAll(cfg, s, chunks), FeedAll(cfg, s, chunks + [last]));
            if !r.ok then all == r
            else var more := Feed(cfg, r.state, last); all == Result(more.ok, more.state, r.events + more.events)
    decreases |chunks|
  {
    hide Feed;
    if chunks == [] {
      assert [] + [last] == [last] && [last][1..] == [];
      var more := Feed(cfg, s, last);
      assert [] + more.events == more.events && more.events + [] == more.events;
    } else {
      assert (chunks + [last])[0] == chunks[0] && (chunks + [last])[1..] == chunks[1..] + [last];
      var r := Feed(cfg, s, chunks[0]);
      FeedMore(cfg, r.state, chunks[1..], last);
      if r.ok && FeedAll(cfg, r.state, chunks[1..]).ok {
        var mid := FeedAll(cfg, r.state, chunks[1..]);
        var more := Feed(cfg, mid.state, last);
        assert r.events + (mid.events + more.events) == r.events + mid.events + more.events;
      }
    }
  }

  /**
   Nothing may come after the closing line. However a body was cut and delivered, one call more with
   at least a byte fails and makes the parser invalid. Section 5.1.1 of RFC 2046 allows an epilogue.
   */
  lemma EpilogueInvalidates(cfg: Config, parts: seq<Part>, chunks: seq<string>, last: string)
    requires Accepting(cfg) && parts != [] && GoodParts(cfg.boundary, parts) && SafeParts(cfg.boundary, parts)
    requires Concat(chunks) == MessageText(cfg.boundary, parts) && last != ""
    ensures FeedAll(cfg, Start(), chunks).state.valid
    ensures var r := FeedAll(cfg, Start(), chunks + [last]);
            !r.ok && !r.state.valid && AreParts(cfg, parts, Receive([], r.events))
  {
    hide FeedAll, Receive, AreParts, GoodParts, SafeParts, Accepting;
    ChunkIndependence(cfg, parts, chunks);
    FeedMore(cfg, Start(), chunks, last);
    var r := FeedAll(cfg, Start(), chunks);
    DoneRejects(cfg, r.state, last);
    assert r.events + [] == r.events;
  }

  lemma DoneRejects(cfg: Config, s: State, last: string)
    requires s.phase.Done? && last != ""
    ensures var r := Feed(cfg, s, last); !r.ok && !r.state.valid && r.events == []
  {
    hide StepHeaders, StepBody, FindFrom;
  }
}
