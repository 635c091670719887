/** What `strtoul` with base sixteen makes of any text (section 7.22.1.4 of C11). */
module ChunkSizes {
  import opened Texts
  import opened Chunked

  predicate HexDigit(c: char) { '0' <= c <= '9' || 'a' <= c <= 'f' || 'A' <= c <= 'F' }

  function DigitValue(c: char): (v: nat)
    requires HexDigit(c)
    ensures v < 16
  {
    if '0' <= c <= '9' then (c - '0') as nat else if 'a' <= c <= 'f' then 10 + (c - 'a') as nat else 10 + (c - 'A') as nat
  }

  predicate AllHex(s: string) { forall i :: 0 <= i < |s| ==> HexDigit(s[i]) }

  function HexNumber(s: string): nat
    requires AllHex(s)
  {
    if s == "" then 0 else 16 * HexNumber(s[..|s| - 1]) + DigitValue(s[|s| - 1])
  }

  predicate White(s: string) { forall i :: 0 <= i < |s| ==> s[i] as int == 32 || 9 <= s[i] as int <= 13 }

  datatype Sign = NoSign | Plus | Minus

  function SignText(sign: Sign): string {
    match sign
    case NoSign => ""
    case Plus => "+"
    case Minus => "-"
  }

  function NumberText(white: string, sign: Sign, prefix: string, digits: string, rest: string): string {
    white + (SignText(sign) + (prefix + (digits + rest)))
  }

  /** White space, a sign, perhaps `0x`, as many digits as there are, and the rest. */
  predicate IsNumber(white: string, sign: Sign, prefix: string, digits: string, rest: string) {
    && White(white) && (prefix == "" || prefix == "0x" || prefix == "0X") && digits != "" && AllHex(digits)
    && (rest != "" ==> !HexDigit(rest[0]))
    && !(prefix == "" && digits == "0" && |rest| >= 2 && (rest[0] == 'x' || rest[0] == 'X') && HexDigit(rest[1]))
  }

  function ValueOf(sign: Sign, digits: string): nat
    requires AllHex(digits)
  {
    var n := HexNumber(digits);
    if n > 0xFFFF_FFFF_FFFF_FFFF then 0xFFFF_FFFF_FFFF_FFFF
    else if sign.Minus? && n > 0 then 0x1_0000_0000_0000_0000 - n
    else n
  }

  // ---------------------------------------------------------------- the parts are read

  lemma {:induction false} SkipsWhite(white: string, rest: string)
    requires White(white) && (rest != "" ==> !IsSpace(rest[0]))
    ensures SkipSpaces(white + rest) == rest
  {
    if white == "" {
      assert white + rest == rest;
    } else {
      assert (white + rest)[1..] == white[1..] + rest;
      SkipsWhite(white[1..], rest);
    }
  }

  lemma HexNumberSnoc(s: string, c: char)
    requires AllHex(s) && HexDigit(c)
    ensures AllHex(s + [c]) && HexNumber(s + [c]) == 16 * HexNumber(s) + DigitValue(c)
  {
    assert (s + [c])[..|s|] == s;
  }

  lemma {:induction false} DigitsRead(digits: string, rest: string, done: string)
    requires AllHex(digits) && AllHex(done) && (rest != "" ==> !HexDigit(rest[0]))
    ensures AllHex(done + digits) && Digits(digits + rest, HexNumber(done)) == (HexNumber(done + digits), rest)
    decreases |digits|
  {
    hide HexNumber;
    if digits == "" {
      assert digits + rest == rest && done + digits == done;
    } else {
      HexNumberSnoc(done, digits[0]);
      DigitsRead(digits[1..], rest, done + [digits[0]]);
      assert (digits + rest)[1..] == digits[1..] + rest;
      assert done + [digits[0]] + digits[1..] == done + digits;
    }
  }

  lemma AllDigitsRead(digits: string, rest: string)
    requires AllHex(digits) && (rest != "" ==> !HexDigit(rest[0]))
    ensures Digits(digits + rest, 0) == (HexNumber(digits), rest)
  {
    hide Digits, AllHex;
    EmptyNumber();
    DigitsRead(digits, rest, "");
    assert "" + digits == digits;
  }

  lemma EmptyNumber()
    ensures AllHex("") && HexNumber("") == 0
  {
  }

  /** The digits behind a prefix, if there is one. */
  lemma PrefixRead(prefix: string, digits: string, rest: string)
    requires IsNumber("", NoSign, prefix, digits, rest)
    ensures var s := prefix + (digits + rest);
            (if HasPrefix(s) then s[2..] else s) == digits + rest
  {
    var s := prefix + (digits + rest);
    if prefix == "" {
      assert s == digits + rest && s[0] == digits[0] && HexDigit(digits[0]);
      if |digits| > 1 {
        assert s[1] == digits[1] && HexDigit(digits[1]);
      } else if rest != "" {
        assert s[1] == rest[0] && (|rest| > 1 ==> s[2] == rest[1]);
        assert digits == [digits[0]];
      }
    } else {
      assert s[0] == prefix[0] && s[1] == prefix[1] && s[2] == digits[0] && HexDigit(digits[0]);
      assert s[2..] == digits + rest;
    }
  }

  /** What follows the white space and the sign. */
  lemma SignRead(sign: Sign, rest: string)
    requires rest != "" && rest[0] != '+' && rest[0] != '-'
    ensures var body := SignText(sign) + rest;
            && (body != "" && body[0] == '-' <==> sign.Minus?)
            && (if body != "" && (body[0] == '-' || body[0] == '+') then body[1..] else body) == rest
            && (!IsSpace(rest[0]) ==> !IsSpace(body[0]))
  {
    var body := SignText(sign) + rest;
    assert sign.NoSign? ==> body == rest;
    assert !sign.NoSign? ==> body[1..] == rest;
  }

  lemma NumberFirst(prefix: string, digits: string, rest: string)
    requires IsNumber("", NoSign, prefix, digits, rest)
    ensures var s := prefix + (digits + rest); s != "" && HexDigit(s[0]) && !IsSpace(s[0]) && s[0] != '+' && s[0] != '-'
  {
    var s := prefix + (digits + rest);
    assert s[0] == if prefix == "" then digits[0] else prefix[0];
    assert HexDigit(digits[0]);
  }

  /** A number is read as its value, as far as the type holds it, and wrapped around if it is negative. */
  lemma NumberRead(white: string, sign: Sign, prefix: string, digits: string, rest: string)
    requires IsNumber(white, sign, prefix, digits, rest)
    ensures Strtoul(NumberText(white, sign, prefix, digits, rest)) == Some(ValueOf(sign, digits))
  {
    hide SkipSpaces, Digits, HasPrefix, HexNumber, HexDigit, AllHex, White, IsSpace;
    var tail := prefix + (digits + rest);
    NumberAlone(white, sign, prefix, digits, rest);
    NumberFirst(prefix, digits, rest);
    SignRead(sign, tail);
    SkipsWhite(white, SignText(sign) + tail);
    PrefixRead(prefix, digits, rest);
    AllDigitsRead(digits, rest);
    assert |digits + rest| == |digits| + |rest| && digits + rest != rest;
  }

  lemma NumberAlone(white: string, sign: Sign, prefix: string, digits: string, rest: string)
    requires IsNumber(white, sign, prefix, digits, rest)
    ensures IsNumber("", NoSign, prefix, digits, rest) && White(white) && digits != "" && AllHex(digits) && (rest != "" ==> !HexDigit(rest[0]))
  {
  }

  /** Without a digit behind the white space and the sign there is no number. */
  lemma NoNumber(white: string, sign: Sign, rest: string)
    requires White(white) && (rest != "" ==> !HexDigit(rest[0]))
    requires sign.NoSign? && rest != "" ==> !IsSpace(rest[0]) && rest[0] != '+' && rest[0] != '-'
    ensures Strtoul(white + (SignText(sign) + rest)).None?
  {
    hide SkipSpaces, White;
    var body := SignText(sign) + rest;
    assert sign.NoSign? ==> body == rest;
    assert !sign.NoSign? ==> body[1..] == rest && body[0] == SignText(sign)[0];
    SkipsWhite(white, body);
    assert "" + rest == rest && Digits(rest, 0) == (0, rest);
  }

  // ---------------------------------------------------------------- every text is one or the other

  function WhiteLength(s: string): (n: nat)
    ensures n <= |s| && (forall i :: 0 <= i < n ==> IsSpace(s[i])) && (n < |s| ==> !IsSpace(s[n]))
  {
    if s == "" || !IsSpace(s[0]) then 0 else 1 + WhiteLength(s[1..])
  }

  function HexLength(s: string): (n: nat)
    ensures n <= |s| && (forall i :: 0 <= i < n ==> HexDigit(s[i])) && (n < |s| ==> !HexDigit(s[n]))
  {
    if s == "" || !HexDigit(s[0]) then 0 else 1 + HexLength(s[1..])
  }

  /** A text read as a number has a number at its front. */
  lemma NumberFound(s: string) returns (white: string, sign: Sign, prefix: string, digits: string, rest: string)
    requires Strtoul(s).Some?
    ensures IsNumber(white, sign, prefix, digits, rest) && s == NumberText(white, sign, prefix, digits, rest)
    ensures Strtoul(s) == Some(ValueOf(sign, digits))
  {
    hide Strtoul, IsNumber, NumberText;
    var n := WhiteLength(s);
    white := s[..n];
    var body := s[n..];
    sign := if body != "" && body[0] == '-' then Minus else if body != "" && body[0] == '+' then Plus else NoSign;
    var tail := if sign.NoSign? then body else body[1..];
    assert s == white + body && body == SignText(sign) + tail;
    if tail == "" || !HexDigit(tail[0]) { NoNumber(white, sign, tail); }
    prefix, digits, rest := SplitNumber(tail);
    NumberAnywhere(white, sign, prefix, digits, rest);
    NumberTextIs(white, sign, prefix, digits, rest);
    NumberRead(white, sign, prefix, digits, rest);
  }

  lemma NumberTextIs(white: string, sign: Sign, prefix: string, digits: string, rest: string)
    ensures NumberText(white, sign, prefix, digits, rest) == white + (SignText(sign) + (prefix + (digits + rest)))
  {
  }

  lemma NumberAnywhere(white: string, sign: Sign, prefix: string, digits: string, rest: string)
    requires White(white) && IsNumber("", NoSign, prefix, digits, rest)
    ensures IsNumber(white, sign, prefix, digits, rest)
  {
  }

  lemma SplitNumber(tail: string) returns (prefix: string, digits: string, rest: string)
    requires tail != "" && HexDigit(tail[0])
    ensures IsNumber("", NoSign, prefix, digits, rest) && tail == prefix + (digits + rest)
  {
    var k := if |tail| >= 3 && tail[0] == '0' && (tail[1] == 'x' || tail[1] == 'X') && HexDigit(tail[2]) then 2 else 0;
    prefix := tail[..k];
    var body := tail[k..];
    assert k == 2 ==> prefix == [tail[0], tail[1]];
    var n := HexLength(body);
    digits, rest := body[..n], body[n..];
    assert body == digits + rest && tail == prefix + body;
    if digits == "0" && k == 0 { assert tail[0] == '0' && (|rest| >= 2 ==> rest[0] == tail[1] && rest[1] == tail[2]); }
  }
}
