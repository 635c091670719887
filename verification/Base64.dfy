/** Base64 (section 4 of RFC 4648), encoded with one shifting 32-bit accumulator. */
module Base64 {
  import opened Arithmetic
  import opened Texts

  type Byte = n: nat | n < 256

  /** A C `int` after an operation that may overflow it. */
  function Wrap(x: int): (r: int)
    ensures -0x8000_0000 <= r < 0x8000_0000
  {
    (x + 0x8000_0000) % 0x1_0000_0000 - 0x8000_0000
  }

  /** `(val >> shift) & 0x3F`; the shift keeps the sign. */
  function Six(val: int, shift: nat): (n: nat)
    ensures n < 64
  {
    (val / Pow2(shift)) % 64
  }

  /** The lookup table: A to Z, a to z, 0 to 9, plus and slash. */
  function Symbol(n: nat): char
    requires n < 64
  {
    if n < 26 then 'A' + n as char
    else if n < 52 then 'a' + (n - 26) as char
    else if n < 62 then '0' + (n - 52) as char
    else if n == 62 then '+'
    else '/'
  }

  // ---------------------------------------------------------------- the standard's definition

  /** Three bytes as four symbols. */
  function Quad(a: Byte, b: Byte, c: Byte): string {
    var n := 0x1_0000 * a + 0x100 * b + c;
    [Symbol(n / 0x4_0000), Symbol(n / 0x1000 % 64), Symbol(n / 64 % 64), Symbol(n % 64)]
  }

  /** Groups of 24 bits; a group that is too short is filled with zero bits and `=`. */
  function Encode(s: seq<Byte>): string {
    if |s| == 0 then ""
    else if |s| == 1 then Quad(s[0], 0, 0)[..2] + "=="
    else if |s| == 2 then Quad(s[0], s[1], 0)[..3] + "="
    else Quad(s[0], s[1], s[2]) + Encode(s[3..])
  }

  /** The symbols that are out once 0, 1 or 2 bytes of a group have been read. */
  function Partial(group: seq<Byte>): string
    requires |group| < 3
  {
    if |group| == 0 then "" else if |group| == 1 then Quad(group[0], 0, 0)[..1] else Quad(group[0], group[1], 0)[..2]
  }

  // ---------------------------------------------------------------- the accumulator

  /** Where the next symbol's lowest bit is, by the bytes of the group read so far. */
  function Valb(read: nat): int
    requires read < 3
  {
    if read == 0 then -6 else if read == 1 then -4 else -2
  }

  /** Adding multiples of 2^16 does not change the low bits. */
  lemma SameLow(x: int, y: int, k: int)
    requires y == x + 0x1_0000 * k
    ensures y % 0x1_0000 == x % 0x1_0000
  {
    Quotient(y, 0x1_0000, x / 0x1_0000 + k, x % 0x1_0000);
  }

  lemma WrapLow(x: int)
    ensures Wrap(x) % 0x1_0000 == x % 0x1_0000
  {
    var k := (x + 0x8000_0000) / 0x1_0000_0000;
    SameLow(x, Wrap(x), -0x1_0000 * k);
  }

  lemma LowByte(x: int, high: nat, low: Byte)
    requires x % 0x1_0000 == 0x100 * high + low
    ensures x % 256 == low
  {
    Quotient(x, 256, 256 * (x / 0x1_0000) + high, low);
  }

  lemma ShiftIn(val: int, last: Byte, c: Byte)
    requires val % 256 == last
    ensures Wrap(256 * val) % 0x1_0000 == 0x100 * last
    ensures Wrap(Wrap(256 * val) + c) % 0x1_0000 == 0x100 * last + c
    ensures Wrap(Wrap(256 * val) + c) % 256 == c
  {
    hide Wrap;
    WrapLow(256 * val);
    Quotient(256 * val, 0x1_0000, val / 256, 0x100 * last);
    var shifted := Wrap(256 * val);
    WrapLow(shifted + c);
    Quotient(shifted + c, 0x1_0000, shifted / 0x1_0000, 0x100 * last + c);
    LowByte(Wrap(shifted + c), last, c);
  }

  lemma Powers()
    ensures Pow2(0) == 1 && Pow2(2) == 4 && Pow2(4) == 16 && Pow2(6) == 64
  {
    assert Pow2(1) == 2 && Pow2(3) == 8 && Pow2(5) == 32;
  }

  /** Only the low 16 bits of the accumulator are looked at. */
  lemma LowBits(x: int, low: nat, shift: nat)
    requires x % 0x1_0000 == low && shift in {0, 2, 4, 6}
    ensures Six(x, shift) == low / Pow2(shift) % 64
  {
    Powers();
    var q := x / 0x1_0000;
    match shift
    case 0 => SixBits(x, q, low, 1, 0x400);
    case 2 => SixBits(x, q, low, 4, 0x100);
    case 4 => SixBits(x, q, low, 16, 0x40);
    case _ => SixBits(x, q, low, 64, 0x10);
  }

  lemma SixBits(x: int, q: int, low: nat, d: nat, e: nat)
    requires d > 0 && d * e == 0x400 && x == 0x1_0000 * q + low
    ensures x / d % 64 == low / d % 64
  {
    var h := low / d;
    Quotient(low, d, h, low % d);
    assert 0x1_0000 * q == d * (64 * e * q) by { Regroup(d, e, q); }
    Quotient(x, d, 64 * e * q + h, low % d);
    Quotient(64 * e * q + h, 64, e * q + h / 64, h % 64) by { Regroup(64, e, q); }
  }

  lemma Regroup(d: nat, e: nat, q: int)
    ensures d * (64 * e * q) == 64 * (d * e) * q && d * (e * q) == d * e * q
  {
  }

  lemma QuadFirst(a: Byte, b: Byte, c: Byte)
    ensures (0x1_0000 * a + 0x100 * b + c) / 0x4_0000 == a / 4 % 64
  {
    Quotient(0x1_0000 * a + 0x100 * b + c, 0x4_0000, a / 4, 0x1_0000 * (a % 4) + 0x100 * b + c);
  }

  lemma QuadSecond(a: Byte, b: Byte, c: Byte)
    ensures (0x1_0000 * a + 0x100 * b + c) / 0x1000 == (0x100 * a + b) / 16
  {
    Quotient(0x1_0000 * a + 0x100 * b + c, 0x1000, 16 * a + b / 16, 0x100 * (b % 16) + c);
    Quotient(0x100 * a + b, 16, 16 * a + b / 16, b % 16);
  }

  lemma QuadThird(a: Byte, b: Byte, c: Byte)
    ensures (0x1_0000 * a + 0x100 * b + c) / 64 % 64 == (0x100 * b + c) / 64 % 64
  {
    var m := (0x100 * b + c) / 64;
    Quotient(0x1_0000 * a + 0x100 * b + c, 64, 0x400 * a + m, (0x100 * b + c) % 64);
    Quotient(0x400 * a + m, 64, 16 * a + m / 64, m % 64);
  }

  lemma QuadFourth(a: Byte, b: Byte, c: Byte)
    ensures (0x1_0000 * a + 0x100 * b + c) % 64 == c % 64
  {
    Quotient(0x1_0000 * a + 0x100 * b + c, 64, 0x400 * a + 4 * b + c / 64, c % 64);
  }

  /** The symbols of one group, each from the two bytes that its bits are in. */
  lemma QuadSymbols(a: Byte, b: Byte, c: Byte)
    ensures Quad(a, b, c) == [Symbol(a / 4 % 64), Symbol((0x100 * a + b) / 16 % 64), Symbol((0x100 * b + c) / 64 % 64), Symbol(c % 64)]
  {
    hide Symbol;
    QuadFirst(a, b, c);
    QuadSecond(a, b, c);
    QuadThird(a, b, c);
    QuadFourth(a, b, c);
  }

  // ---------------------------------------------------------------- the loop

  /** The symbols one byte completes. */
  function Completed(before: Byte, read: nat, c: Byte): string
    requires read < 3
  {
    if read == 0 then [Symbol(c / 4 % 64)]
    else if read == 1 then [Symbol((0x100 * before + c) / 16 % 64)]
    else [Symbol((0x100 * before + c) / 64 % 64), Symbol(c % 64)]
  }

  lemma CompletedGrows(group: seq<Byte>, c: Byte, before: Byte)
    requires |group| < 3 && (|group| > 0 ==> before == group[|group| - 1])
    ensures Partial(group) + Completed(before, |group|, c)
            == if |group| < 2 then Partial(group + [c]) else Quad(group[0], group[1], c)
  {
    hide Symbol, Quad;
    if |group| == 0 {
      QuadSymbols(c, 0, 0);
    } else if |group| == 1 {
      QuadSymbols(group[0], 0, 0);
      QuadSymbols(group[0], c, 0);
    } else {
      QuadSymbols(group[0], group[1], 0);
      QuadSymbols(group[0], group[1], c);
    }
  }

  /** The inner loop writes the symbols one byte completes. */
  method PushSymbols(val: int, valb: int, ghost before: Byte, ghost read: nat, ghost c: Byte) returns (pushed: string, left: int)
    requires read < 3 && valb == Valb(read) + 8 && val % 0x1_0000 == 0x100 * before + c
    ensures pushed == Completed(before, read, c) && left == Valb((read + 1) % 3)
  {
    hide Symbol, Six, Pow2;
    pushed, left := "", valb;
    ghost var low := 0x100 * before + c;
    LowOfByte(before, c);
    if read == 0 { LowBits(val, low, 2); }
    if read == 1 { LowBits(val, low, 4); }
    if read == 2 { LowBits(val, low, 6); LowBits(val, low, 0); }
    Powers();
    while left >= 0
      invariant (left == valb && pushed == "") || (left == valb - 6 && pushed == [Symbol(Six(val, valb))])
                || (read == 2 && left == -6 && pushed == [Symbol(Six(val, 6)), Symbol(Six(val, 0))])
      decreases left
    {
      pushed := pushed + [Symbol(Six(val, left))];
      left := left - 6;
    }
  }

  lemma LowOfByte(before: Byte, c: Byte)
    ensures (0x100 * before + c) / 4 % 64 == c / 4 % 64
    ensures (0x100 * before + c) % 64 == c % 64
  {
    Quotient(0x100 * before + c, 4, 64 * before + c / 4, c % 4);
    Quotient(64 * before + c / 4, 64, before, c / 4);
    Quotient(0x100 * before + c, 64, 4 * before + c / 64, c % 64);
  }

  function Pad(n: nat): string
    requires n < 4
  {
    if n == 0 then "" else "=" + Pad(n - 1)
  }

  /** What the end of the input leaves to be written: the bits held back, and padding. */
  function Tail(last: Byte, read: nat): string
    requires read < 3
  {
    if read == 0 then ""
    else if read == 1 then [Symbol(0x100 * last / 16 % 64)] + Pad(2)
    else [Symbol(0x100 * last / 64 % 64)] + Pad(1)
  }

  lemma EncodeThree(s: seq<Byte>)
    requires |s| >= 3
    ensures Encode(s) == Quad(s[0], s[1], s[2]) + Encode(s[3..])
  {
  }

  lemma EncodeOne(a: Byte)
    ensures Encode([a]) == Partial([a]) + Tail(a, 1)
  {
    hide Symbol, Quad;
    QuadSymbols(a, 0, 0);
    assert Pad(0) == "" && Pad(1) == "=" && Pad(2) == "==";
    assert Quad(a, 0, 0)[..2] == Quad(a, 0, 0)[..1] + [Quad(a, 0, 0)[1]];
  }

  lemma EncodeTwo(a: Byte, b: Byte)
    ensures Encode([a, b]) == Partial([a, b]) + Tail(b, 2)
  {
    hide Symbol, Quad;
    QuadSymbols(a, b, 0);
    assert Pad(0) == "" && Pad(1) == "=";
    assert Quad(a, b, 0)[..3] == Quad(a, b, 0)[..2] + [Quad(a, b, 0)[2]];
  }

  lemma EncodeRest(s: seq<Byte>, last: Byte)
    requires |s| < 3 && (|s| > 0 ==> last == s[|s| - 1])
    ensures Encode(s) == Partial(s) + Tail(last, |s|)
  {
    hide Symbol, Quad, Partial, Tail, Encode;
    if |s| == 0 {
      EncodeNone();
      assert s == [];
    } else if |s| == 1 {
      EncodeOne(s[0]);
      assert s == [s[0]];
    } else {
      EncodeTwo(s[0], s[1]);
      assert s == [s[0], s[1]];
    }
  }

  lemma EncodeNone()
    ensures Encode([]) == Partial([]) + Tail(0, 0) && Partial([]) == "" && forall last :: Tail(last, 0) == ""
  {
  }

  /** One byte further, inside a group or at its end. */
  lemma Advance(s: seq<Byte>, base: nat, i: nat, done: string, last: Byte)
    requires base <= i < |s| && i - base < 3 && (i > base ==> last == s[i - 1])
    requires done + Encode(s[base..]) == Encode(s)
    ensures var out := done + Partial(s[base..i]) + Completed(last, i - base, s[i]);
            if i - base < 2 then out == done + Partial(s[base..i + 1])
            else out == out + Partial(s[i + 1..i + 1]) && out + Encode(s[i + 1..]) == Encode(s) && |out| == |done| + 4
  {
    hide Symbol, Quad, Partial, Completed, Encode;
    var group, c := s[base..i], s[i];
    CompletedGrows(group, c, last);
    assert done + Partial(group) + Completed(last, i - base, c) == done + (Partial(group) + Completed(last, i - base, c));
    assert s[base..i + 1] == group + [c];
    if i - base == 2 {
      EncodeThree(s[base..]);
      QuadLength(s[base], s[base + 1], c);
      assert s[base..][3..] == s[i + 1..];
      EncodeNone();
      assert s[i + 1..i + 1] == [];
    }
  }

  lemma PartialLength(group: seq<Byte>)
    requires |group| < 3
    ensures |Partial(group)| == |group|
  {
  }

  /** `base64_encode` */
  method Base64Encode(in_: seq<Byte>) returns (out: string)
    ensures out == Encode(in_)
  {
    hide *;
    out := "";
    var val, valb := 0, -6;
    ghost var done, base, last: Byte := "", 0, 0;
    assert in_[0..] == in_ && in_[0..0] == [];
    Starts();
    for i := 0 to |in_|
      invariant base <= i && i - base < 3 && valb == Valb(i - base)
      invariant val % 256 == last && (i > base ==> last == in_[i - 1])
      invariant out == done + Partial(in_[base..i]) && |done| % 4 == 0
      invariant done + Encode(in_[base..]) == Encode(in_)
    {
      ShiftIn(val, last, in_[i]);
      Advance(in_, base, i, done, last);
      Positions(i - base);
      var c := in_[i];
      val := Wrap(Wrap(256 * val) + c);
      var pushed;
      pushed, valb := PushSymbols(val, valb + 8, last, i - base, c);
      out := out + pushed;
      if i - base == 2 {
        done := out;
        base := i + 1;
      }
      last := c;
    }
    assert in_[base..|in_|] == in_[base..];
    Ends(in_, in_[base..], done, val, last);
    if valb > -6 {
      out := out + [Symbol(Six(Wrap(256 * val), valb + 8))];
    }
    while |out| % 4 != 0
      invariant Padded(out) == Encode(in_)
      decreases (4 - |out| % 4) % 4
    {
      PadOne(out);
      out := out + "=";
    }
    PadOne(out);
  }

  /** Filled up with `=` to a multiple of four. */
  function Padded(s: string): string {
    if |s| % 4 == 0 then s else s + Pad(4 - |s| % 4)
  }

  lemma PadOne(s: string)
    ensures |s| % 4 == 0 ==> Padded(s) == s
    ensures |s| % 4 != 0 ==> Padded(s + "=") == Padded(s) && (4 - |s + "="| % 4) % 4 < (4 - |s| % 4) % 4
  {
    if |s| % 4 != 0 {
      assert s + ("=" + Pad(3 - |s| % 4)) == s + "=" + Pad(3 - |s| % 4);
    }
  }

  lemma FourAnd(n: nat, k: nat)
    requires n % 4 == 0 && k < 4
    ensures (n + k) % 4 == k
  {
  }

  lemma FillUp(done: string, partial: string, symbol: char)
    requires |done| % 4 == 0 && 0 < |partial| < 3
    ensures Padded(done + partial + [symbol]) == done + (partial + ([symbol] + Pad(3 - |partial|)))
  {
    hide Pad;
    var out := done + partial + [symbol];
    FourAnd(|done|, |partial| + 1);
    assert |out| == |done| + (|partial| + 1);
    assert done + (partial + ([symbol] + Pad(3 - |partial|))) == out + Pad(3 - |partial|);
  }

  /** What is written after the last byte. */
  lemma Ends(s: seq<Byte>, group: seq<Byte>, done: string, val: int, last: Byte)
    requires |group| < 3 && (|group| > 0 ==> last == group[|group| - 1]) && val % 256 == last
    requires done + Encode(group) == Encode(s) && |done| % 4 == 0
    ensures var valb, out := Valb(|group|), done + Partial(group);
            var out' := if valb > -6 then out + [Symbol(Six(Wrap(256 * val), valb + 8))] else out;
            Padded(out') == Encode(s)
  {
    hide *;
    EncodeRest(group, last);
    PartialLength(group);
    Held(val, last, |group|);
    Positions(|group|);
    Positions(0);
    if |group| > 0 {
      FillUp(done, Partial(group), Symbol(Six(Wrap(256 * val), Valb(|group|) + 8)));
    } else {
      Padding();
      PadOne(done + Partial(group));
      assert done + (Partial(group) + "") == done + Partial(group);
    }
  }

  lemma Starts()
    ensures Partial([]) == "" && Valb(0) == -6
  {
  }

  lemma Positions(read: nat)
    requires read < 3
    ensures Valb(read) == if read == 0 then -6 else if read == 1 then -4 else -2
    ensures Valb((read + 1) % 3) == if read == 2 then Valb(0) else Valb(read + 1)
  {
  }

  lemma Padding()
    ensures Pad(0) == "" && Pad(1) == "=" + Pad(0) && Pad(2) == "=" + Pad(1) && Pad(3) == "=" + Pad(2)
  {
  }

  lemma QuadLength(a: Byte, b: Byte, c: Byte)
    ensures |Quad(a, b, c)| == 4
  {
  }

  /** The bits held back in the accumulator. */
  lemma Held(val: int, last: Byte, read: nat)
    requires val % 256 == last && read < 3
    ensures Tail(last, read)
            == if read == 0 then Pad(0)
               else [Symbol(Six(Wrap(256 * val), Valb(read) + 8))] + Pad(3 - read)
  {
    hide Symbol, Six, Wrap, Pow2;
    Powers();
    ShiftIn(val, last, 0);
    if read == 1 { LowBits(Wrap(256 * val), 0x100 * last, 4); }
    if read == 2 { LowBits(Wrap(256 * val), 0x100 * last, 6); }
  }

  // ---------------------------------------------------------------- length and decoding

  lemma {:induction false} LengthOf(s: seq<Byte>)
    ensures |Encode(s)| == 4 * ((|s| + 2) / 3)
    decreases |s|
  {
    hide Quad;
    if |s| >= 3 {
      QuadLength(s[0], s[1], s[2]);
      LengthOf(s[3..]);
    } else if |s| == 2 {
      QuadLength(s[0], s[1], 0);
    } else if |s| == 1 {
      QuadLength(s[0], 0, 0);
    }
  }

  function SymbolValue(c: char): (r: Option<nat>)
    ensures r.Some? ==> r.value < 64
  {
    if 'A' <= c <= 'Z' then Some((c - 'A') as nat)
    else if 'a' <= c <= 'z' then Some((c - 'a') as nat + 26)
    else if '0' <= c <= '9' then Some((c - '0') as nat + 52)
    else if c == '+' then Some(62)
    else if c == '/' then Some(63)
    else None
  }

  /** Values of four symbols, back to three bytes. */
  function Triple(p: nat, q: nat, r: nat, t: nat): (Byte, Byte, Byte)
    requires p < 64 && q < 64 && r < 64 && t < 64
  {
    (4 * p + q / 16, 16 * (q % 16) + r / 4, 64 * (r % 4) + t)
  }

  /** The standard decoder: whole groups, and padding only in the last, over zero bits. */
  function Decode(s: string): Option<seq<Byte>>
    decreases |s|
  {
    if s == "" then Some([])
    else if |s| < 4 || SymbolValue(s[0]).None? || SymbolValue(s[1]).None? then None
    else
      var p, q := SymbolValue(s[0]).value, SymbolValue(s[1]).value;
      if |s| == 4 && s[2] == '=' && s[3] == '=' then
        if q % 16 == 0 then Some([Triple(p, q, 0, 0).0]) else None
      else if SymbolValue(s[2]).None? then None
      else
        var r := SymbolValue(s[2]).value;
        if |s| == 4 && s[3] == '=' then
          if r % 4 == 0 then Some([Triple(p, q, r, 0).0, Triple(p, q, r, 0).1]) else None
        else if SymbolValue(s[3]).None? then None
        else
          var (a, b, c) := Triple(p, q, r, SymbolValue(s[3]).value);
          match Decode(s[4..])
          case None => None
          case Some(rest) => Some([a, b, c] + rest)
  }

  lemma SymbolInverts(n: nat)
    requires n < 64
    ensures SymbolValue(Symbol(n)) == Some(n) && Symbol(n) != '='
  {
  }

  /** The second symbol holds the low bits of one byte and the high bits of the next. */
  lemma SecondBits(a: Byte, b: Byte)
    ensures (0x100 * a + b) / 16 % 64 == 16 * (a % 4) + b / 16
  {
    Quotient(0x100 * a + b, 16, 16 * a + b / 16, b % 16);
    Quotient(16 * a + b / 16, 64, a / 4, 16 * (a % 4) + b / 16);
  }

  lemma ThirdBits(b: Byte, c: Byte)
    ensures (0x100 * b + c) / 64 % 64 == 4 * (b % 16) + c / 64
  {
    Quotient(0x100 * b + c, 64, 4 * b + c / 64, c % 64);
    Quotient(4 * b + c / 64, 64, b / 16, 4 * (b % 16) + c / 64);
  }

  lemma Join(high: nat, low: nat, d: nat)
    requires d > 0 && low < d
    ensures (d * high + low) / d == high && (d * high + low) % d == low
  {
    Quotient(d * high + low, d, high, low);
  }

  lemma TripleInverts(a: Byte, b: Byte, c: Byte)
    ensures Triple(a / 4 % 64, 16 * (a % 4) + b / 16, 4 * (b % 16) + c / 64, c % 64) == (a, b, c)
    ensures b == 0 ==> (16 * (a % 4) + b / 16) % 16 == 0
    ensures c == 0 ==> (4 * (b % 16) + c / 64) % 4 == 0
  {
    Join(a % 4, b / 16, 16);
    Join(b % 16, c / 64, 4);
  }

  /** The values of the symbols of one group give back its bytes. */
  lemma QuadInverts(a: Byte, b: Byte, c: Byte)
    ensures var x := Quad(a, b, c);
            && |x| == 4
            && (forall i :: 0 <= i < 4 ==> x[i] != '=' && SymbolValue(x[i]).Some?)
            && Triple(SymbolValue(x[0]).value, SymbolValue(x[1]).value, SymbolValue(x[2]).value, SymbolValue(x[3]).value) == (a, b, c)
            && (b == 0 ==> SymbolValue(x[1]).value % 16 == 0)
            && (c == 0 ==> SymbolValue(x[2]).value % 4 == 0)
  {
    hide Symbol, SymbolValue, Quad, Triple;
    QuadSymbols(a, b, c);
    SymbolInverts(a / 4 % 64);
    SymbolInverts((0x100 * a + b) / 16 % 64);
    SymbolInverts((0x100 * b + c) / 64 % 64);
    SymbolInverts(c % 64);
    SecondBits(a, b);
    ThirdBits(b, c);
    TripleInverts(a, b, c);
  }

  lemma DecodeFour(x: string, rest: string)
    requires |x| == 4 && forall i :: 0 <= i < 4 ==> x[i] != '=' && SymbolValue(x[i]).Some?
    requires Decode(rest).Some?
    ensures var (a, b, c) := Triple(SymbolValue(x[0]).value, SymbolValue(x[1]).value, SymbolValue(x[2]).value, SymbolValue(x[3]).value);
            Decode(x + rest) == Some([a, b, c] + Decode(rest).value)
  {
    hide SymbolValue, Triple;
    assert (x + rest)[4..] == rest;
  }

  lemma FirstOfTriple(p: nat, q: nat, r: nat, t: nat)
    requires p < 64 && q < 64 && r < 64 && t < 64
    ensures Triple(p, q, 0, 0).0 == Triple(p, q, r, t).0 && Triple(p, q, r, 0).1 == Triple(p, q, r, t).1
    ensures Triple(p, q, r, 0).0 == Triple(p, q, r, t).0
  {
  }

  /** Decoding inverts encoding, for every byte string. */
  lemma {:induction false} DecodeInverts(s: seq<Byte>)
    ensures Decode(Encode(s)) == Some(s)
    decreases |s|
  {
    hide Quad, SymbolValue, Triple;
    if |s| >= 3 {
      DecodeInverts(s[3..]);
      QuadInverts(s[0], s[1], s[2]);
      hide Encode, Decode;
      EncodeThree(s);
      DecodeFour(Quad(s[0], s[1], s[2]), Encode(s[3..]));
      assert [s[0], s[1], s[2]] + s[3..] == s;
    } else if |s| == 2 {
      QuadInverts(s[0], s[1], 0);
      var x := Quad(s[0], s[1], 0);
      FirstOfTriple(SymbolValue(x[0]).value, SymbolValue(x[1]).value, SymbolValue(x[2]).value, SymbolValue(x[3]).value);
      assert s == [s[0], s[1]];
    } else if |s| == 1 {
      QuadInverts(s[0], 0, 0);
      var x := Quad(s[0], 0, 0);
      FirstOfTriple(SymbolValue(x[0]).value, SymbolValue(x[1]).value, SymbolValue(x[2]).value, SymbolValue(x[3]).value);
      assert s == [s[0]];
    } else {
      assert s == [];
    }
  }
}
