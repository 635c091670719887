/**
 Chunked transfer coding (section 4.1 of RFC 7230): the writer, and the reader over a stream that
 returns fewer bytes than asked for.
 */
module Chunked {
  import opened Texts
  import opened Streams

  const ULONG_MAX: nat := 0xFFFF_FFFF_FFFF_FFFF
  const RECV_BUFSIZ: nat := 4096
  const DONE_MARKER := "0\r\n\r\n"

  // ---------------------------------------------------------------- hexadecimal

  function Digit(n: nat): (c: char)
    requires n < 16
    ensures HexValue(c) == Some(n)
  {
    "0123456789abcdef"[n]
  }

  function HexValue(c: char): (r: Option<nat>)
    ensures r.Some? ==> r.value < 16
  {
    if '0' <= c <= '9' then Some((c - '0') as nat)
    else if 'a' <= c <= 'f' then Some((c - 'a') as nat + 10)
    else if 'A' <= c <= 'F' then Some((c - 'A') as nat + 10)
    else None
  }

  /** Hexadecimal without leading zeros. */
  function HexText(n: nat): (s: string)
    ensures s != "" && forall i :: 0 <= i < |s| ==> HexValue(s[i]).Some?
  {
    if n < 16 then [Digit(n)] else HexText(n / 16) + [Digit(n % 16)]
  }

  /** `from_i_to_hex` */
  method FromIToHex(n: nat) returns (ret: string)
    ensures ret == HexText(n)
  {
    hide HexText, Digit;
    ret := "";
    var left := n;
    while true
      invariant HexText(left) + ret == HexText(n)
      decreases left
    {
      HexStep(left, ret);
      ret := [Digit(left % 16)] + ret;
      left := left / 16;
      if left == 0 { break; }
    }
  }

  lemma HexStep(n: nat, after: string)
    ensures HexText(n) + after == if n < 16 then [Digit(n % 16)] + after else HexText(n / 16) + ([Digit(n % 16)] + after)
  {
  }

  /** The value of a run of hexadecimal digits, after the value of the digits before it. */
  function Digits(s: string, before: nat): (r: (nat, string))
    decreases |s|
  {
    if s != "" && HexValue(s[0]).Some? then Digits(s[1..], 16 * before + HexValue(s[0]).value) else (before, s)
  }

  function SkipSpaces(s: string): string
  {
    if s != "" && IsSpace(s[0]) then SkipSpaces(s[1..]) else s
  }

  predicate HasPrefix(s: string) {
    |s| >= 3 && s[0] == '0' && (s[1] == 'x' || s[1] == 'X') && HexValue(s[2]).Some?
  }

  /** `strtoul(s, &end, 16)`: None where no digit was found, that is, where `end` is left at the start. */
  function Strtoul(s: string): (r: Option<nat>)
    ensures r.Some? ==> r.value <= ULONG_MAX
  {
    var body := SkipSpaces(s);
    var negative := body != "" && body[0] == '-';
    var unsigned := if body != "" && (body[0] == '-' || body[0] == '+') then body[1..] else body;
    var digits := if HasPrefix(unsigned) then unsigned[2..] else unsigned;
    var (value, rest) := Digits(digits, 0);
    if rest == digits then None
    else if value > ULONG_MAX then Some(ULONG_MAX)
    else if negative && value > 0 then Some(ULONG_MAX + 1 - value)
    else Some(value)
  }

  /** What C functions see of a buffer. */
  function CString(s: string): (r: string)
    ensures r <= s
  {
    if s == "" || s[0] == '\0' then "" else s[..1] + CString(s[1..])
  }

  // ---------------------------------------------------------------- reading

  /** The content receiver: what it was given, and whether it refused the k-th piece. */
  class Receiver {
    const accepts: (nat, string) -> bool
    var calls: nat
    var body: string
    var refused: bool

    ghost predicate Willing() { forall k: nat, piece: string :: accepts(k, piece) }

    constructor (accepts: (nat, string) -> bool)
      ensures this.accepts == accepts && body == "" && !refused
    {
      this.accepts, calls, body, refused := accepts, 0, "", false;
    }

    method Take(piece: string) returns (ok: bool)
      modifies this
      ensures body == old(body) + piece && refused == (old(refused) || !ok) && (Willing() ==> ok)
    {
      ok := accepts(calls, piece);
      calls, body, refused := calls + 1, body + piece, refused || !ok;
    }
  }

  /** `read_content_with_length`; it is stopped by an error of the stream, the receiver, or the progress callback. */
  method ReadContentWithLength(strm: Stream, len: nat, progress: Option<nat -> bool>, out: Receiver)
    returns (ok: bool, ghost data: string, ghost stopped: bool)
    requires !strm.failed && !out.refused
    modifies strm, out
    ensures strm.outgoing == old(strm.outgoing) && out.body == old(out.body) + data
    ensures strm.failed || out.refused ==> stopped
    ensures stopped ==> !ok && data <= old(strm.incoming) && |data| <= len
    ensures stopped ==> strm.failed || out.refused || (progress.Some? && exists r :: |data| == r && !progress.value(r))
    ensures (strm.Reliable() ==> !strm.failed) && (out.Willing() ==> !out.refused)
    ensures !stopped ==> ok == (len <= |old(strm.incoming)|) && data + strm.incoming == old(strm.incoming)
    ensures !stopped ==> if ok then |data| == len else strm.incoming == ""
  {
    var r := 0;
    data, stopped := "", false;
    assert out.body + "" == out.body;
    while r < len
      invariant r == |data| <= len && !strm.failed && data + strm.incoming == old(strm.incoming)
      invariant !out.refused && out.body == old(out.body) + data
      invariant strm.outgoing == old(strm.outgoing)
    {
      var n, buf := strm.Read(if len - r <= RECV_BUFSIZ then len - r else RECV_BUFSIZ);
      if n <= 0 { return false, data, strm.failed; }
      assert data + (buf + strm.incoming) == data + buf + strm.incoming;
      assert old(out.body) + (data + buf) == old(out.body) + data + buf;
      data := data + buf;
      var taken := out.Take(buf);
      if !taken { return false, data, true; }
      r := r + n;
      if progress.Some? && !progress.value(r) { return false, data, true; }
    }
    return true, data, false;
  }

  datatype Received = Received(ok: bool, body: string, rest: string)

  /** The chunks that begin with the given size line. */
  function ReadChunks(line: string, s: string): Received
    decreases |s|
  {
    match Strtoul(CString(line))
    case None => Received(false, "", s)
    case Some(size) =>
      if size == ULONG_MAX then Received(false, "", s)
      else if size == 0 then
        if s == "" then Received(false, "", s)
        else Received(CString(LineOf(s)) == "\r\n", "", s[|LineOf(s)|..])
      else if size > |s| then Received(false, s, "")
      else AfterChunk(s[..size], s[size..])
  }

  /** Behind a chunk: its end of line, and the next size line. Anything else than an end of line ends the body. */
  function AfterChunk(chunk: string, s: string): Received
    decreases |s|
  {
    if s == "" then Received(false, chunk, s)
    else
      var s' := s[|LineOf(s)|..];
      if CString(LineOf(s)) != "\r\n" then Received(true, chunk, s')
      else if s' == "" then Received(false, chunk, s')
      else
        var more := ReadChunks(LineOf(s'), s'[|LineOf(s')|..]);
        Received(more.ok, chunk + more.body, more.rest)
  }

  /** What reading a chunked body comes to, however the stream cuts it. */
  function ReadChunked(s: string): Received {
    if s == "" then Received(false, "", s) else ReadChunks(LineOf(s), s[|LineOf(s)|..])
  }

  function Behind(body: string, r: Received): Received { Received(r.ok, body + r.body, r.rest) }

  lemma ReadChunksSize(line: string, s: string, body: string, size: nat, chunk: string, rest: string)
    requires Strtoul(CString(line)) == Some(size) && 0 < size < ULONG_MAX && s == chunk + rest
    ensures |chunk| == size ==> Behind(body, ReadChunks(line, s)) == Behind(body, AfterChunk(chunk, rest))
    ensures |chunk| < size && rest == "" ==> Behind(body, ReadChunks(line, s)) == Received(false, body + chunk, "")
    ensures |chunk| <= size ==> body + chunk <= Behind(body, ReadChunks(line, s)).body
  {
    hide AfterChunk, Strtoul, CString;
    if |chunk| <= size <= |s| {
      ChunkFirst(s[..size], s[size..]);
      assert chunk <= s[..size];
    }
    if |chunk| == size { assert s[..size] == chunk && s[size..] == rest; }
  }

  lemma ChunkFirst(chunk: string, s: string)
    ensures chunk <= AfterChunk(chunk, s).body
  {
    hide ReadChunks;
  }

  lemma AfterChunkMore(body: string, chunk: string, s: string)
    requires s != "" && CString(LineOf(s)) == "\r\n" && s[|LineOf(s)|..] != ""
    ensures var s' := s[|LineOf(s)|..];
            Behind(body, AfterChunk(chunk, s)) == Behind(body + chunk, ReadChunks(LineOf(s'), s'[|LineOf(s')|..]))
  {
    hide ReadChunks, CString, LineOf;
  }

  lemma BehindTwice(a: string, b: string, r: Received)
    ensures Behind(a, Behind(b, r)) == Behind(a + b, r)
  {
    assert a + (b + r.body) == a + b + r.body;
  }

  /** `read_content_chunked` */
  method ReadContentChunked(strm: Stream, out: Receiver) returns (ok: bool)
    requires !strm.failed && !out.refused
    modifies strm, out
    ensures strm.outgoing == old(strm.outgoing)
    ensures (strm.Reliable() ==> !strm.failed) && (out.Willing() ==> !out.refused)
    ensures strm.failed || out.refused ==> !ok && out.body <= Behind(old(out.body), ReadChunked(old(strm.incoming))).body
    ensures !strm.failed && !out.refused ==>
              Received(ok, out.body, strm.incoming) == Behind(old(out.body), ReadChunked(old(strm.incoming)))
  {
    hide ReadChunks, AfterChunk, CString, Strtoul, LineOf;
    var buf := new char[16];
    var reader := new LineReader(strm, buf);
    ghost var all := strm.incoming;
    ghost var spec := Behind(out.body, ReadChunked(all));
    var got := reader.GetLine();
    assert out.body + "" == out.body;
    if !got { return false; }
    while true
      invariant fresh(reader) && reader.fixedBuffer == buf && fresh(buf) && reader.strm == strm && reader.Valid()
      invariant !strm.failed && !out.refused && strm.outgoing == old(strm.outgoing)
      invariant Behind(out.body, ReadChunks(reader.Line(), strm.incoming)) == spec
      decreases |strm.incoming|
    {
      ghost var line, s, body := reader.Line(), strm.incoming, out.body;
      assert body + "" == body;
      var size := Strtoul(CString(reader.Line()));
      if size.None? || size.value == ULONG_MAX {
        ReadChunksEnds(line, s);
        return false;
      }
      if size.value == 0 {
        ReadChunksEnds(line, s);
        got := reader.GetLine();
        return got && CString(reader.Line()) == "\r\n";
      }
      var read, chunk, _ := ReadContentWithLength(strm, size.value, None, out);
      ReadChunksSize(line, s, body, size.value, chunk, s[|chunk|..]);
      if !read { return false; }
      assert s[|chunk|..] == strm.incoming;
      ChunkFirst(chunk, strm.incoming);
      ghost var rest := strm.incoming;
      got := reader.GetLine();
      AfterChunkEnds(body, chunk, rest);
      if !got { return false; }
      if CString(reader.Line()) != "\r\n" { return true; }
      got := reader.GetLine();
      if !got { return false; }
      AfterChunkMore(body, chunk, rest);
    }
  }

  lemma ReadChunksEnds(line: string, s: string)
    ensures Strtoul(CString(line)).None? || Strtoul(CString(line)) == Some(ULONG_MAX) ==> ReadChunks(line, s) == Received(false, "", s)
    ensures Strtoul(CString(line)) == Some(0) && s == "" ==> ReadChunks(line, s) == Received(false, "", s)
    ensures Strtoul(CString(line)) == Some(0) && s != "" ==>
              ReadChunks(line, s) == Received(CString(LineOf(s)) == "\r\n", "", s[|LineOf(s)|..])
  {
    hide Strtoul, CString, LineOf, AfterChunk;
  }

  lemma AfterChunkEnds(body: string, chunk: string, s: string)
    ensures s == "" ==> Behind(body, AfterChunk(chunk, s)) == Received(false, body + chunk, "")
    ensures s != "" ==>
              var s' := s[|LineOf(s)|..];
              if CString(LineOf(s)) != "\r\n" then Behind(body, AfterChunk(chunk, s)) == Received(true, body + chunk, s')
              else s' == "" ==> Behind(body, AfterChunk(chunk, s)) == Received(false, body + chunk, "")
  {
    hide ReadChunks, CString, LineOf;
  }

  // ---------------------------------------------------------------- writing

  datatype Action = Write(data: string) | Done

  /** One call of the content provider: what it does with the sink, and what it returns. */
  datatype Call = Call(actions: seq<Action>, result: bool)

  datatype Error = Success | Canceled | WriteFailed

  datatype Sink = Sink(dataAvailable: bool, wire: string)

  /** The chunk for some data; there is none for no data. */
  function Frame(data: string): string {
    if data == "" then "" else HexText(|data|) + "\r\n" + data + "\r\n"
  }

  function Act(k: Sink, a: Action): Sink {
    match a
    case Write(data) => Sink(data != "", k.wire + Frame(data))
    case Done => Sink(false, k.wire + DONE_MARKER)
  }

  function ActAll(k: Sink, actions: seq<Action>): (r: Sink)
    ensures k.wire <= r.wire
    decreases |actions|
  {
    if actions == [] then k else ActAll(Act(k, actions[0]), actions[1..])
  }

  /** The provider is called while it has data; the server is shutting down after the last of `calls`. */
  function Provide(k: Sink, calls: seq<Call>): (r: (Error, Sink))
    ensures k.wire <= r.1.wire
    decreases |calls|
  {
    if calls == [] || !k.dataAvailable then (Success, k)
    else
      var k' := ActAll(k, calls[0].actions);
      if !calls[0].result then (Canceled, k') else Provide(k', calls[1..])
  }

  /** The sink that the content provider writes to, uncompressed. */
  class DataSink {
    const strm: Stream
    ghost const before: string
    var ok: bool
    var dataAvailable: bool
    var offset: nat

    /** The bytes sent, or those that arrived before the stream failed. */
    ghost predicate Sends(k: Sink)
      reads this, strm
    {
      && ok == !strm.failed && (strm.Reliable() ==> ok)
      && (ok ==> dataAvailable == k.dataAvailable && strm.outgoing == before + k.wire)
      && strm.outgoing <= before + k.wire
    }

    constructor (strm: Stream)
      requires !strm.failed
      ensures this.strm == strm && before == strm.outgoing && Sends(Sink(true, ""))
    {
      this.strm, before, ok, dataAvailable, offset := strm, strm.outgoing, true, true, 0;
    }

    method WriteSome(data: string, ghost k: Sink) returns (r: bool)
      requires Sends(k)
      modifies this, strm
      ensures Sends(Act(k, Write(data))) && r == ok && strm.incoming == old(strm.incoming)
      ensures old(ok) ==> offset == old(offset) + |data|
    {
      ghost var wire := k.wire + Frame(data);
      if ok {
        dataAvailable := |data| > 0;
        offset := offset + |data|;
        if data != "" {
          var size := FromIToHex(|data|);
          ok := WriteData(strm, size + "\r\n" + data + "\r\n");
          SentPrefix(before, k.wire, Frame(data), strm.outgoing);
        } else {
          assert k.wire + "" == k.wire;
        }
      } else {
        assert k.wire <= wire;
      }
      return ok;
    }

    method Finish(ghost k: Sink)
      requires Sends(k)
      modifies this, strm
      ensures Sends(Act(k, Done)) && strm.incoming == old(strm.incoming)
    {
      ghost var wire := k.wire + DONE_MARKER;
      if !ok {
        assert k.wire <= wire;
        return;
      }
      dataAvailable := false;
      ok := WriteData(strm, DONE_MARKER);
      SentPrefix(before, k.wire, DONE_MARKER, strm.outgoing);
    }
  }

  /** All of a text sent, or some of it. */
  lemma SentPrefix(before: string, wire: string, text: string, sent: string)
    ensures sent == before + wire + text ==> sent == before + (wire + text)
    ensures (exists k :: 0 <= k < |text| && sent == before + wire + text[..k]) ==> sent <= before + (wire + text)
  {
  }

  /** `write_content_chunked`; `calls` is what the content provider does each time it is called. */
  method WriteContentChunked(strm: Stream, calls: seq<Call>) returns (result: bool, error: Error)
    requires !strm.failed
    modifies strm
    ensures result == error.Success? && strm.incoming == old(strm.incoming)
    ensures strm.outgoing <= old(strm.outgoing) + Provide(Sink(true, ""), calls).1.wire
    ensures !strm.failed ==> strm.outgoing == old(strm.outgoing) + Provide(Sink(true, ""), calls).1.wire
    ensures !strm.failed ==> error == Provide(Sink(true, ""), calls).0
    ensures strm.failed ==> !result && !strm.Reliable()
  {
    hide Act;
    var sink := new DataSink(strm);
    ghost var k := Sink(true, "");
    ghost var spec := Provide(k, calls);
    var i := 0;
    while sink.dataAvailable && i < |calls|
      invariant i <= |calls| && fresh(sink) && sink.strm == strm && sink.before == old(strm.outgoing)
      invariant sink.Sends(k) && sink.ok && strm.incoming == old(strm.incoming)
      invariant Provide(k, calls[i..]) == spec
    {
      ghost var start := k;
      for j := 0 to |calls[i].actions|
        invariant sink.strm == strm && sink.before == old(strm.outgoing) && strm.incoming == old(strm.incoming)
        invariant sink.Sends(k) && ActAll(k, calls[i].actions[j..]) == ActAll(start, calls[i].actions)
      {
        var a := calls[i].actions[j];
        match a {
          case Write(data) => var _ := sink.WriteSome(data, k);
          case Done => sink.Finish(k);
        }
        k := Act(k, a);
      }
      if !calls[i].result { return false, Canceled; }
      if !sink.ok { return false, WriteFailed; }
      i := i + 1;
    }
    return true, Success;
  }
}
