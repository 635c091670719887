/** Percent coding and UTF-8, told by characters and numbers. */
module PercentExact {
  import opened Texts
  import opened PercentCoding

  // ---------------------------------------------------------------- encoding

  /** Letters, digits and nine marks go as they are; any other byte is a percent sign and two upper-case digits. */
  function Coded(c: char): string
    requires c as int < 256
  {
    if 'A' <= c <= 'Z' || 'a' <= c <= 'z' || '0' <= c <= '9' then [c]
    else if c == '-' || c == '_' || c == '.' || c == '!' || c == '~' || c == '*' || c == '\'' || c == '(' || c == ')' then [c]
    else ['%', "0123456789ABCDEF"[c as int / 16], "0123456789ABCDEF"[c as int % 16]]
  }

  lemma {:induction false} EncodeConcat(a: string, b: string)
    requires Bytes(a) && Bytes(b)
    ensures Bytes(a + b) && EncodeParam(a + b) == EncodeParam(a) + EncodeParam(b)
  {
    hide EncodeChar;
    if a == "" {
      assert a + b == b;
    } else {
      EncodeConcat(a[1..], b);
      assert (a + b)[1..] == a[1..] + b;
      assert EncodeChar(a[0]) + (EncodeParam(a[1..]) + EncodeParam(b)) == EncodeChar(a[0]) + EncodeParam(a[1..]) + EncodeParam(b);
    }
  }

  /** Every byte is coded on its own, wherever it stands. */
  lemma EncodedExactly(before: string, c: char, after: string)
    requires Bytes(before) && Bytes(after) && IsByte(c)
    ensures Bytes(before + [c] + after) && EncodeParam(before + [c] + after) == EncodeParam(before) + Coded(c) + EncodeParam(after)
  {
    hide EncodeParam, Coded;
    EncodeConcat(before, [c]);
    EncodeConcat(before + [c], after);
    OneCoded(c);
  }

  lemma OneCoded(c: char)
    requires IsByte(c)
    ensures EncodeParam([c]) == Coded(c)
  {
    hide Digit;
    assert [c][1..] == "" && EncodeChar(c) + "" == EncodeChar(c);
    UpperDigit(c as int / 16);
    UpperDigit(c as int % 16);
  }

  lemma UpperDigit(n: nat)
    requires n < 16
    ensures Digit(n) == "0123456789ABCDEF"[n]
  {
  }

  // ---------------------------------------------------------------- decoding

  predicate HexDigit(c: char) { '0' <= c <= '9' || 'A' <= c <= 'F' || 'a' <= c <= 'f' }

  function DigitValue(c: char): (v: nat)
    requires HexDigit(c)
    ensures v < 16
  {
    if '0' <= c <= '9' then (c - '0') as nat else if 'A' <= c <= 'F' then 10 + (c - 'A') as nat else 10 + (c - 'a') as nat
  }

  predicate AllHex(s: string) { forall i :: 0 <= i < |s| ==> HexDigit(s[i]) }

  function HexNumber(s: string): nat
    requires AllHex(s)
  {
    if s == "" then 0 else 16 * HexNumber(s[..|s| - 1]) + DigitValue(s[|s| - 1])
  }

  lemma HexNumberSnoc(s: string, c: char)
    requires AllHex(s) && HexDigit(c)
    ensures AllHex(s + [c]) && HexNumber(s + [c]) == 16 * HexNumber(s) + DigitValue(c)
  {
    assert (s + [c])[..|s|] == s;
  }

  lemma {:induction false} FromHexMore(done: string, digits: string, rest: string)
    requires AllHex(done) && AllHex(digits)
    ensures AllHex(done + digits) && FromHex(digits + rest, |digits|, HexNumber(done)) == Some(HexNumber(done + digits))
    decreases |digits|
  {
    hide HexNumber;
    if digits == "" {
      assert done + digits == done;
    } else {
      var next := done + [digits[0]];
      HexNumberSnoc(done, digits[0]);
      assert next + digits[1..] == done + digits;
      FromHexMore(next, digits[1..], rest);
      assert (digits + rest)[1..] == digits[1..] + rest;
    }
  }

  lemma NoDigits()
    ensures AllHex("") && HexNumber("") == 0
  {
  }

  /** Any number of digits is read as the number they stand for in base sixteen. */
  lemma HexReads(before: string, digits: string, rest: string)
    requires digits != "" && AllHex(digits)
    ensures HexAt(before + digits + rest, |before|, |digits|) == Some(HexNumber(digits))
  {
    hide FromHex, HexNumber, AllHex;
    assert (before + digits + rest)[|before|..] == digits + rest;
    assert "" + digits == digits;
    NoDigits();
    FromHexMore("", digits, rest);
  }

  /** A percent sign and two digits stand for a byte. */
  lemma TwoDigits(a: char, b: char, rest: string, plusIsSpace: bool)
    requires HexDigit(a) && HexDigit(b)
    ensures Decode(['%', a, b] + rest, plusIsSpace) == [(16 * DigitValue(a) + DigitValue(b)) as char] + Decode(rest, plusIsSpace)
  {
    hide FromHex;
    var s := ['%', a, b] + rest;
    assert s[1..] == [a] + ([b] + rest) && s[3..] == rest;
    HexStep(a, [b] + rest, 1, 0);
    HexStep(b, rest, 0, DigitValue(a));
  }

  lemma HexStep(c: char, rest: string, n: nat, before: nat)
    requires HexDigit(c)
    ensures FromHex([c] + rest, n + 1, before) == FromHex(rest, n, 16 * before + DigitValue(c))
    ensures n == 0 ==> FromHex([c] + rest, n + 1, before) == Some(16 * before + DigitValue(c))
  {
    assert ([c] + rest)[1..] == rest;
  }

  lemma FourDigitsRead(a: char, b: char, c: char, d: char, rest: string)
    requires HexDigit(a) && HexDigit(b) && HexDigit(c) && HexDigit(d)
    ensures FromHex([a, b, c, d] + rest, 4, 0)
         == Some(0x1000 * DigitValue(a) + 0x100 * DigitValue(b) + 0x10 * DigitValue(c) + DigitValue(d))
  {
    hide FromHex;
    assert [a, b, c, d] + rest == [a] + ([b] + ([c] + ([d] + rest)));
    HexStep(a, [b] + ([c] + ([d] + rest)), 3, 0);
    HexStep(b, [c] + ([d] + rest), 2, DigitValue(a));
    HexStep(c, [d] + rest, 1, 16 * DigitValue(a) + DigitValue(b));
    HexStep(d, rest, 0, 16 * (16 * DigitValue(a) + DigitValue(b)) + DigitValue(c));
  }

  /** A percent sign, a `u` and four digits stand for a character in UTF-8, and for nothing if it is a surrogate. */
  lemma FourDigits(a: char, b: char, c: char, d: char, rest: string, plusIsSpace: bool)
    requires HexDigit(a) && HexDigit(b) && HexDigit(c) && HexDigit(d)
    ensures var code := 0x1000 * DigitValue(a) + 0x100 * DigitValue(b) + 0x10 * DigitValue(c) + DigitValue(d);
            Decode("%u" + [a, b, c, d] + rest, plusIsSpace) == ToUtf8(code) + Decode(rest, plusIsSpace)
  {
    hide FromHex, ToUtf8;
    var s := "%u" + [a, b, c, d] + rest;
    FourDigitsRead(a, b, c, d, rest);
    assert s[2..] == [a, b, c, d] + rest && s[6..] == rest && s[0] == '%' && s[1] == 'u';
  }

  /** The text does not begin with so many digits. */
  ghost predicate Lacks(s: string, count: nat) {
    exists k: nat :: k < count && (k < |s| ==> !HexDigit(s[k]))
  }

  lemma {:induction false} NotHex(s: string, count: nat, before: nat, k: nat)
    requires k < count && (k < |s| ==> !HexDigit(s[k]))
    ensures FromHex(s, count, before).None?
    decreases count
  {
    if k > 0 && s != "" && IsHex(s[0]).Some? { NotHex(s[1..], count - 1, 16 * before + IsHex(s[0]).value, k - 1); }
  }

  /** Everything else stands for itself: a plus sign may be a space, and a percent sign without its digits is one. */
  lemma OtherChar(c: char, rest: string, plusIsSpace: bool)
    requires c == '%' ==> if rest != "" && rest[0] == 'u' then Lacks(rest[1..], 4) else Lacks(rest, 2)
    ensures Decode([c] + rest, plusIsSpace) == (if c == '+' && plusIsSpace then " " else [c]) + Decode(rest, plusIsSpace)
  {
    hide FromHex;
    var s := [c] + rest;
    assert s[1..] == rest;
    if c == '%' && rest != "" {
      if rest[0] == 'u' {
        assert s[2..] == rest[1..];
        var k: nat :| k < 4 && (k < |s[2..]| ==> !HexDigit(s[2..][k]));
        NotHex(s[2..], 4, 0, k);
      } else {
        var k: nat :| k < 2 && (k < |rest| ==> !HexDigit(rest[k]));
        NotHex(s[1..], 2, 0, k);
      }
    }
  }

  // ---------------------------------------------------------------- UTF-8 (section 3 of RFC 3629)

  predicate Continues(c: char) { 0x80 <= c as int < 0xC0 }

  /** The code point that a well-formed sequence of bytes stands for. */
  function CodePoint(s: string): Option<nat> {
    if |s| == 1 && s[0] as int < 0x80 then Some(s[0] as int)
    else if |s| == 2 && 0xC2 <= s[0] as int < 0xE0 && Continues(s[1]) then
      Some((s[0] as int - 0xC0) * 0x40 + (s[1] as int - 0x80))
    else if |s| == 3 && 0xE0 <= s[0] as int < 0xF0 && Continues(s[1]) && Continues(s[2]) then
      var n := (s[0] as int - 0xE0) * 0x1000 + (s[1] as int - 0x80) * 0x40 + (s[2] as int - 0x80);
      if n < 0x800 || 0xD800 <= n < 0xE000 then None else Some(n)
    else if |s| == 4 && 0xF0 <= s[0] as int < 0xF5 && Continues(s[1]) && Continues(s[2]) && Continues(s[3]) then
      var n := (s[0] as int - 0xF0) * 0x4_0000 + (s[1] as int - 0x80) * 0x1000 + (s[2] as int - 0x80) * 0x40 + (s[3] as int - 0x80);
      if n < 0x1_0000 || n >= 0x11_0000 then None else Some(n)
    else None
  }

  /** The encoder is the inverse of that on every code point, and gives nothing for a surrogate. */
  lemma Utf8Inverts(code: nat)
    requires code < 0x11_0000
    ensures if 0xD800 <= code < 0xE000 then ToUtf8(code) == "" else CodePoint(ToUtf8(code)) == Some(code)
  {
    assert code == code / 64 * 64 + code % 64;
    assert code / 64 == code / 64 / 64 * 64 + code / 64 % 64 && code / 64 / 64 == code / 0x1000;
    assert code / 0x1000 == code / 0x1000 / 64 * 64 + code / 0x1000 % 64 && code / 0x1000 / 64 == code / 0x4_0000;
  }
}
