/**
 The incremental multipart/form-data parser: a six-state machine over a growing buffer. Each call
 of `parse` appends a chunk and runs the machine until it needs more input.
 */
module Multipart {
  import opened Texts

  const CRLF := "\r\n"
  const DASHES := "\r\n--"
  const CONTENT_TYPE := "content-type:"

  datatype File = File(name: string, filename: string, contentType: string)

  /** What the parser is set up with; `disposition` stands for the regular expression that reads a Content-Disposition line. */
  datatype Config = Config(
    boundary: string,
    disposition: string -> Option<(string, string)>,
    onHeader: File -> bool,
    onContent: string -> bool)

  /** A call of one of the two callbacks. */
  datatype Event = Header(file: File) | Content(data: string)

  /** States 0 to 5. */
  datatype Phase = Initial | NewEntry | Headers | Body | Boundary | Done

  datatype State = State(buf: string, phase: Phase, valid: bool, off: nat, file: File)

  function Start(): State {
    State("", Initial, false, 0, File("", "", ""))
  }

  function Delimiter(b: string): string { DASHES + b }

  /** The effect of one header line on the file information. */
  function ApplyHeader(cfg: Config, file: File, line: string): File {
    if |line| >= |CONTENT_TYPE| && SameIgnoringCase(line[..|CONTENT_TYPE|], CONTENT_TYPE) then
      file.(contentType := TrimCopy(line[|CONTENT_TYPE|..]))
    else
      match cfg.disposition(line)
      case None => file
      case Some((name, filename)) => file.(name := name, filename := filename)
  }

  /** `find_string`: the first match, or an earlier first character that is too close to the end to tell. */
  function FindPartial(s: string, pat: string, from: nat): (r: nat)
    requires pat != "" && from <= |s|
    ensures from <= r <= |s|
    decreases |s| - from
  {
    if from == |s| then from
    else if s[from] == pat[0] && (|pat| > |s| - from || At(s, from, pat)) then from
    else FindPartial(s, pat, from + 1)
  }

  // ---------------------------------------------------------------- one turn of the machine

  datatype Verdict = Continue | Wait | Reject

  datatype Turn = Turn(verdict: Verdict, state: State, events: seq<Event>)

  function Drop(s: State, n: nat): (r: State)
    requires n <= |s.buf|
    ensures r.off + |r.buf| == s.off + |s.buf|
  {
    s.(buf := s.buf[n..], off := s.off + n)
  }

  function Step(cfg: Config, s: State): (r: Turn)
    requires s.buf != ""
    ensures r.state.off + |r.state.buf| == s.off + |s.buf|
    ensures r.verdict.Continue? ==> |r.state.buf| < |s.buf| || (|r.state.buf| == |s.buf| && s.phase.NewEntry? && !r.state.phase.NewEntry?)
  {
    match s.phase
    case Initial =>
      var pattern := "--" + cfg.boundary + CRLF;
      if |pattern| > |s.buf| then Turn(Wait, s, [])
      else if Find(s.buf, pattern) != Some(0) then Turn(Reject, s, [])
      else Turn(Continue, Drop(s, |pattern|).(phase := NewEntry), [])
    case NewEntry => Turn(Continue, s.(file := File("", "", ""), phase := Headers), [])
    case Headers => StepHeaders(cfg, s)
    case Body => StepBody(cfg, s)
    case Boundary =>
      if |CRLF| > |s.buf| then Turn(Wait, s, [])
      else if At(s.buf, 0, CRLF) then Turn(Continue, Drop(s, |CRLF|).(phase := NewEntry), [])
      else
        var pattern := "--" + CRLF;
        if |pattern| > |s.buf| then Turn(Wait, s, [])
        else if At(s.buf, 0, pattern) then Turn(Continue, Drop(s, |pattern|).(valid := true, phase := Done), [])
        else Turn(Wait, s, [])
    case Done => Turn(Reject, s.(valid := false), [])
  }

  /** State 2, one header line. */
  function StepHeaders(cfg: Config, s: State): (r: Turn)
    ensures r.state.off + |r.state.buf| == s.off + |s.buf|
    ensures r.verdict.Continue? ==> |r.state.buf| < |s.buf|
  {
    match Find(s.buf, CRLF)
    case None => Turn(Wait, s, [])
    case Some(pos) =>
      if pos == 0 then
        if cfg.onHeader(s.file) then Turn(Continue, Drop(s, |CRLF|).(phase := Body), [Header(s.file)])
        else Turn(Reject, s.(valid := false), [Header(s.file)])
      else
        Turn(Continue, Drop(s, pos + |CRLF|).(file := ApplyHeader(cfg, s.file, s.buf[..pos])), [])
  }

  /** State 3: deliver what is surely content, then look for the delimiter. */
  function StepBody(cfg: Config, s: State): (r: Turn)
    ensures r.state.off + |r.state.buf| == s.off + |s.buf|
    ensures r.verdict.Continue? ==> |r.state.buf| < |s.buf|
  {
    if |DASHES| > |s.buf| then Turn(Wait, s, [])
    else
      var pos := FindPartial(s.buf, DASHES, 0);
      var first := Content(s.buf[..pos]);
      if !cfg.onContent(first.data) then Turn(Reject, s.(valid := false), [first])
      else
        var s1 := Drop(s, pos);
        var pattern := Delimiter(cfg.boundary);
        if |pattern| > |s1.buf| then Turn(Wait, s1, [first])
        else
          match Find(s1.buf, pattern)
          case Some(q) =>
            if cfg.onContent(s1.buf[..q]) then
              Turn(Continue, Drop(s1, q + |pattern|).(phase := Boundary), [first, Content(s1.buf[..q])])
            else Turn(Reject, s1.(valid := false), [first, Content(s1.buf[..q])])
          case None =>
            if cfg.onContent(s1.buf[..|pattern|]) then
              Turn(Continue, Drop(s1, |pattern|), [first, Content(s1.buf[..|pattern|])])
            else Turn(Reject, s1.(valid := false), [first, Content(s1.buf[..|pattern|])])
  }

  // ---------------------------------------------------------------- one call, many calls

  datatype Result = Result(ok: bool, state: State, events: seq<Event>)

  /** The loop of `parse`. */
  function Run(cfg: Config, s: State): (r: Result)
    ensures r.state.off + |r.state.buf| == s.off + |s.buf|
    decreases |s.buf|, if s.phase.NewEntry? then 1 else 0
  {
    if s.buf == "" then Result(true, s, [])
    else
      var t := Step(cfg, s);
      match t.verdict
      case Wait => Result(true, t.state, t.events)
      case Reject => Result(false, t.state, t.events)
      case Continue =>
        var r := Run(cfg, t.state);
        Result(r.ok, r.state, t.events + r.events)
  }

  /** `parse`: whatever the input, every byte fed is either passed or still in the buffer. */
  function Feed(cfg: Config, s: State, chunk: string): (r: Result)
    ensures r.state.off + |r.state.buf| == s.off + |s.buf| + |chunk|
  {
    Run(cfg, s.(buf := s.buf + chunk))
  }

  /** Calls of `parse` with successive chunks, until one returns false. */
  function FeedAll(cfg: Config, s: State, chunks: seq<string>): (r: Result)
    decreases |chunks|
  {
    if chunks == [] then Result(true, s, [])
    else
      var r := Feed(cfg, s, chunks[0]);
      if !r.ok then r
      else
        var rest := FeedAll(cfg, r.state, chunks[1..]);
        Result(rest.ok, rest.state, r.events + rest.events)
  }

  lemma FeedIsRun(cfg: Config, s: State, chunk: string)
    ensures Feed(cfg, s, chunk) == Run(cfg, s.(buf := s.buf + chunk))
  {
  }

  /** A run from `from` has made the calls `made` and stands at `now`. */
  ghost predicate Reached(cfg: Config, from: State, now: State, made: seq<Event>) {
    var r := Run(cfg, now);
    Run(cfg, from) == Result(r.ok, r.state, made + r.events)
  }

  lemma ReachedStart(cfg: Config, s: State)
    ensures Reached(cfg, s, s, [])
  {
    assert [] + Run(cfg, s).events == Run(cfg, s).events;
  }

  lemma ReachedEnd(cfg: Config, from: State, now: State, made: seq<Event>)
    requires Reached(cfg, from, now, made) && now.buf == ""
    ensures Run(cfg, from) == Result(true, now, made)
  {
    assert made + [] == made;
  }

  lemma ReachedTurn(cfg: Config, from: State, now: State, made: seq<Event>)
    requires Reached(cfg, from, now, made) && now.buf != ""
    ensures var t := Step(cfg, now);
            if t.verdict.Continue? then Reached(cfg, from, t.state, made + t.events)
            else Run(cfg, from) == Result(t.verdict.Wait?, t.state, made + t.events)
  {
    hide Step;
    var t := Step(cfg, now);
    if t.verdict.Continue? {
      assert made + (t.events + Run(cfg, t.state).events) == made + t.events + Run(cfg, t.state).events;
    }
  }

  // ---------------------------------------------------------------- the parser as the library updates it

  class MultipartFormDataParser {
    const cfg: Config
    var buf: string
    var phase: Phase
    var isValid: bool
    var off: nat
    var file: File
    /** The callback calls made so far. */
    var calls: seq<Event>

    constructor (cfg: Config)
      ensures this.cfg == cfg && calls == [] && buf == "" && phase == Initial && !isValid && off == 0 && file == File("", "", "")
      ensures Now() == Start()
    {
      this.cfg := cfg;
      buf, phase, isValid, off, file, calls := "", Initial, false, 0, File("", "", ""), [];
    }

    ghost function Now(): State
      reads this
    {
      State(buf, phase, isValid, off, file)
    }

    method ContentCallback(data: string) returns (ok: bool)
      modifies this`calls
      ensures calls == old(calls) + [Content(data)] && ok == cfg.onContent(data)
    {
      calls := calls + [Content(data)];
      ok := cfg.onContent(data);
    }

    method FindString(s: string, pattern: string) returns (pos: nat)
      requires pattern != ""
      ensures pos == FindPartial(s, pattern, 0)
    {
      pos := 0;
      while pos < |s|
        invariant pos <= |s|
        invariant FindPartial(s, pattern, pos) == FindPartial(s, pattern, 0)
      {
        if s[pos] == pattern[0] {
          var rem := |s| - pos;
          if |pattern| > rem { return pos; }
          if At(s, pos, pattern) { return pos; }
        }
        pos := pos + 1;
      }
    }

    method Erase(n: nat)
      requires n <= |buf|
      modifies this`buf, this`off
      ensures Now() == Drop(old(Now()), n)
    {
      off := off + n;
      buf := buf[n..];
    }

    method Parse(chunk: string) returns (ok: bool)
      modifies this
      ensures var r := Feed(cfg, old(Now()), chunk); ok == r.ok && Now() == r.state && calls == old(calls) + r.events
    {
      hide Step, Run, Reached, Feed;
      FeedIsRun(cfg, Now(), chunk);
      buf := buf + chunk;
      ghost var from := Now();
      ghost var made: seq<Event> := [];
      ReachedStart(cfg, from);
      var verdict := Continue;
      while verdict.Continue? && buf != ""
        invariant calls == old(calls) + made
        invariant if verdict.Continue? then Reached(cfg, from, Now(), made)
                  else Run(cfg, from) == Result(verdict.Wait?, Now(), made)
        decreases verdict.Continue?, |buf|, if phase.NewEntry? then 1 else 0
      {
        ReachedTurn(cfg, from, Now(), made);
        ghost var t := Step(cfg, Now());
        ghost var before := calls;
        verdict := TakeTurn();
        assert before + t.events == old(calls) + (made + t.events);
        made := made + t.events;
      }
      if verdict.Continue? { ReachedEnd(cfg, from, Now(), made); }
      ok := !verdict.Reject?;
    }

    /** One pass of the switch; of state 2, which loops over the header lines at hand, one line. */
    method TakeTurn() returns (verdict: Verdict)
      requires buf != ""
      modifies this
      ensures var t := Step(cfg, old(Now())); verdict == t.verdict && Now() == t.state && calls == old(calls) + t.events
    {
      match phase
      case Initial =>
        var pattern := "--" + cfg.boundary + CRLF;
        if |pattern| > |buf| { return Wait; }
        var pos := Find(buf, pattern);
        if pos != Some(0) { return Reject; }
        Erase(|pattern|);
        phase := NewEntry;
        verdict := Continue;
      case NewEntry =>
        file := File("", "", "");
        phase := Headers;
        verdict := Continue;
      case Headers =>
        var pos := Find(buf, CRLF);
        if pos.None? { return Wait; }
        if pos.value == 0 {
          calls := calls + [Header(file)];
          if !cfg.onHeader(file) {
            isValid := false;
            return Reject;
          }
          Erase(|CRLF|);
          phase := Body;
        } else {
          file := ApplyHeader(cfg, file, buf[..pos.value]);
          Erase(pos.value + |CRLF|);
        }
        verdict := Continue;
      case Body => verdict := BodyTurn();
      case Boundary =>
        if |CRLF| > |buf| { return Wait; }
        if At(buf, 0, CRLF) {
          Erase(|CRLF|);
          phase := NewEntry;
        } else {
          var pattern := "--" + CRLF;
          if |pattern| > |buf| || !At(buf, 0, pattern) { return Wait; }
          Erase(|pattern|);
          isValid := true;
          phase := Done;
        }
        verdict := Continue;
      case Done =>
        isValid := false;
        verdict := Reject;
    }

    method BodyTurn() returns (verdict: Verdict)
      requires phase.Body?
      modifies this
      ensures var t := StepBody(cfg, old(Now())); verdict == t.verdict && Now() == t.state && calls == old(calls) + t.events
    {
      hide FindPartial, Find, At;
      if |DASHES| > |buf| { return Wait; }
      var pos := FindString(buf, DASHES);
      var ok := ContentCallback(buf[..pos]);
      if !ok {
        isValid := false;
        return Reject;
      }
      Erase(pos);
      var pattern := Delimiter(cfg.boundary);
      if |pattern| > |buf| { return Wait; }
      var found := Find(buf, pattern);
      if found.Some? {
        AtBounds(buf, found.value, pattern);
        ok := ContentCallback(buf[..found.value]);
        if !ok {
          isValid := false;
          return Reject;
        }
        Erase(found.value + |pattern|);
        phase := Boundary;
      } else {
        ok := ContentCallback(buf[..|pattern|]);
        if !ok {
          isValid := false;
          return Reject;
        }
        Erase(|pattern|);
      }
      verdict := Continue;
    }
  }
}
