/** Streams that move fewer bytes than asked for, and the line reader on top of one. */
module Streams {

  /** The k-th call moves at most `grant(k)` bytes, and at least one if it can; a negative grant is an error. */
  class Stream {
    const grant: nat -> int
    var calls: nat
    var incoming: string
    var outgoing: string
    var failed: bool

    ghost predicate Reliable() { forall k: nat :: grant(k) >= 0 }

    constructor (grant: nat -> int, incoming: string)
      ensures this.grant == grant && this.incoming == incoming && outgoing == "" && !failed
    {
      this.grant, this.incoming := grant, incoming;
      calls, outgoing, failed := 0, "", false;
    }

    /** `read`: the bytes read, or a negative count; nothing is read only where nothing is left. */
    method Read(size: nat) returns (n: int, data: string)
      modifies this
      ensures n < 0 ==> failed && incoming == old(incoming)
      ensures n >= 0 ==> |data| == n <= size && old(incoming) == data + incoming && failed == old(failed)
      ensures n == 0 ==> size == 0 || old(incoming) == ""
      ensures Reliable() ==> n >= 0
      ensures outgoing == old(outgoing)
    {
      var granted := grant(calls);
      calls := calls + 1;
      if granted < 0 {
        failed := true;
        return -1, "";
      }
      var want := if granted == 0 then 1 else granted;
      n := if want <= size then want else size;
      n := if n <= |incoming| then n else |incoming|;
      data := incoming[..n];
      incoming := incoming[n..];
    }

    /** `write`: how many bytes went out, or a negative count. */
    method Write(d: string) returns (n: int)
      requires d != ""
      modifies this
      ensures n < 0 ==> failed && outgoing == old(outgoing)
      ensures n >= 0 ==> 0 < n <= |d| && outgoing == old(outgoing) + d[..n] && failed == old(failed)
      ensures Reliable() ==> n >= 0
      ensures incoming == old(incoming)
    {
      var granted := grant(calls);
      calls := calls + 1;
      if granted < 0 {
        failed := true;
        return -1;
      }
      var want := if granted == 0 then 1 else granted;
      n := if want <= |d| then want else |d|;
      outgoing := outgoing + d[..n];
    }
  }

  /** `write_data` */
  method WriteData(strm: Stream, d: string) returns (ok: bool)
    requires !strm.failed
    modifies strm
    ensures ok == !strm.failed && (strm.Reliable() ==> ok)
    ensures ok ==> strm.outgoing == old(strm.outgoing) + d
    ensures !ok ==> exists k :: 0 <= k < |d| && strm.outgoing == old(strm.outgoing) + d[..k]
    ensures strm.incoming == old(strm.incoming)
  {
    var offset := 0;
    assert d[..0] == "";
    while offset < |d|
      invariant offset <= |d| && !strm.failed && strm.outgoing == old(strm.outgoing) + d[..offset]
      invariant strm.incoming == old(strm.incoming)
    {
      var length := strm.Write(d[offset..]);
      if length < 0 { return false; }
      assert d[..offset] + d[offset..][..length] == d[..offset + length];
      offset := offset + length;
    }
    assert d[..|d|] == d;
    return true;
  }

  // ---------------------------------------------------------------- lines

  /** The length of the line at the head of the text with its newline, or of all the text if it has none. */
  function LineLength(s: string): (n: nat)
    ensures n <= |s| && (s != "" ==> n > 0)
    ensures forall i :: 0 <= i < n - 1 ==> s[i] != '\n'
    ensures n == |s| || s[n - 1] == '\n'
  {
    if s == "" then 0 else if s[0] == '\n' then 1 else 1 + LineLength(s[1..])
  }

  function LineOf(s: string): string { s[..LineLength(s)] }

  /** A text up to and with its first line feed, or all of it, is its line. */
  lemma LineIs(line: string, rest: string)
    requires line != "" && forall i :: 0 <= i < |line| - 1 ==> line[i] != '\n'
    requires line[|line| - 1] == '\n' || rest == ""
    ensures LineOf(line + rest) == line
  {
    hide LineLength;
    var s := line + rest;
    var n := LineLength(s);
    assert forall i :: 0 <= i < |line| ==> s[i] == line[i];
    assert n == |line| && s[..|line|] == line;
  }

  /** `stream_line_reader`: short lines are kept in a fixed buffer, longer ones move to one that grows. */
  class LineReader {
    const strm: Stream
    const fixedBuffer: array<char>
    var used: nat
    var growable: string

    /** The buffer is closed by a zero byte as C strings are, once there is anything in it. */
    ghost predicate Valid()
      reads this, fixedBuffer
    {
      fixedBuffer.Length >= 2 && used < fixedBuffer.Length && (used > 0 ==> fixedBuffer[used] == '\0')
    }

    /** What `ptr()` and `size()` present. */
    function Line(): string
      requires Valid()
      reads this, fixedBuffer
    {
      if growable == "" then fixedBuffer[..used] else growable
    }

    /** A growing buffer takes over when the fixed one is full. */
    ghost predicate Filled()
      requires Valid()
      reads this, fixedBuffer
    {
      growable != "" ==> used == fixedBuffer.Length - 1
    }

    constructor (strm: Stream, buffer: array<char>)
      requires buffer.Length >= 2
      ensures this.strm == strm && fixedBuffer == buffer && Valid() && Filled()
    {
      this.strm, fixedBuffer, used, growable := strm, buffer, 0, "";
    }

    method EndWithCrlf() returns (r: bool)
      requires Valid()
      ensures r <==> exists k :: 0 <= k && |Line()| == k + 2 && Line()[k..] == "\r\n"
    {
      var line := Line();
      r := |line| >= 2 && line[|line| - 2] == '\r' && line[|line| - 1] == '\n';
      assert r ==> line[|line| - 2..] == "\r\n";
    }

    method Append(c: char)
      requires Valid() && Filled()
      modifies this, fixedBuffer
      ensures Valid() && Filled() && Line() == old(Line()) + [c]
    {
      if used < fixedBuffer.Length - 1 {
        fixedBuffer[used] := c;
        used := used + 1;
        fixedBuffer[used] := '\0';
      } else {
        if growable == "" {
          assert fixedBuffer[used] == '\0';
          growable := fixedBuffer[..used];
        }
        growable := growable + [c];
      }
    }

    /** Reads the next line, byte by byte, and presents exactly its bytes. */
    method GetLine() returns (ok: bool)
      requires Valid() && !strm.failed
      modifies this, fixedBuffer, strm
      ensures Valid() && strm.outgoing == old(strm.outgoing)
      ensures strm.failed ==> !ok && !strm.Reliable()
      ensures !strm.failed ==> ok == (old(strm.incoming) != "")
      ensures !strm.failed ==> old(strm.incoming) == (if ok then Line() else "") + strm.incoming
      ensures ok ==> Line() == LineOf(old(strm.incoming))
    {
      used, growable := 0, "";
      ghost var all := strm.incoming;
      while true
        invariant Valid() && Filled() && !strm.failed && strm.outgoing == old(strm.outgoing)
        invariant all == Line() + strm.incoming
        invariant forall i :: 0 <= i < |Line()| ==> Line()[i] != '\n'
        decreases |strm.incoming|
      {
        hide Filled, LineOf;
        ghost var so, rest := Line(), strm.incoming;
        var n, data := strm.Read(1);
        if n < 0 { return false; }
        if n == 0 {
          if Line() == "" { return false; }
          LineIs(so, "");
          assert so + "" == so;
          return true;
        }
        Append(data[0]);
        assert data == [data[0]] && so + (data + strm.incoming) == so + data + strm.incoming;
        if data[0] == '\n' {
          LineIs(Line(), strm.incoming);
          return true;
        }
      }
    }
  }
}
