/** Percent coding (section 2.1 of RFC 3986) of query parameters. A text has one character for each byte. */
module PercentCoding {
  import opened Texts

  predicate IsByte(c: char) { c as int < 256 }

  ghost predicate Bytes(s: string) { forall i :: 0 <= i < |s| ==> IsByte(s[i]) }

  /** The characters the encoder leaves alone. */
  predicate Unreserved(c: char) {
    'a' <= c <= 'z' || 'A' <= c <= 'Z' || '0' <= c <= '9' || c in {'-', '_', '.', '!', '~', '*', '\'', '(', ')'}
  }

  /** An upper-case hexadecimal digit. */
  function Digit(n: nat): (c: char)
    requires n < 16
    ensures IsHex(c) == Some(n) && Unreserved(c)
  {
    if n < 10 then '0' + n as char else 'A' + (n - 10) as char
  }

  /** `is_hex` */
  function IsHex(c: char): (v: Option<nat>)
    ensures v.Some? ==> v.value < 16
  {
    if '0' <= c <= '9' then Some((c - '0') as nat)
    else if 'A' <= c <= 'F' then Some((c - 'A') as nat + 10)
    else if 'a' <= c <= 'f' then Some((c - 'a') as nat + 10)
    else None
  }

  function EncodeChar(c: char): string
    requires IsByte(c)
  {
    if Unreserved(c) then [c] else ['%', Digit(c as int / 16), Digit(c as int % 16)]
  }

  function EncodeParam(value: string): string
    requires Bytes(value)
  {
    if value == "" then "" else EncodeChar(value[0]) + EncodeParam(value[1..])
  }

  /** `encode_query_param` */
  method EncodeQueryParam(value: string) returns (escaped: string)
    requires Bytes(value)
    ensures escaped == EncodeParam(value)
  {
    hide EncodeChar;
    escaped := "";
    assert value[0..] == value;
    for i := 0 to |value|
      invariant escaped + EncodeParam(value[i..]) == EncodeParam(value)
    {
      assert value[i..][1..] == value[i + 1..];
      assert escaped + (EncodeChar(value[i]) + EncodeParam(value[i + 1..])) == escaped + EncodeChar(value[i]) + EncodeParam(value[i + 1..]);
      escaped := escaped + EncodeChar(value[i]);
    }
  }

  /** The value of the first `count` characters, if they all are hexadecimal digits. */
  function FromHex(s: string, count: nat, before: nat): (v: Option<nat>)
    ensures v.Some? ==> count <= |s|
    decreases count
  {
    if count == 0 then Some(before)
    else if s == "" || IsHex(s[0]).None? then None
    else FromHex(s[1..], count - 1, 16 * before + IsHex(s[0]).value)
  }

  lemma {:induction false} FromHexBelow(s: string, count: nat, before: nat, bound: nat)
    requires before < bound
    ensures FromHex(s, count, before).Some? ==> FromHex(s, count, before).value < bound * Power16(count)
    decreases count
  {
    if count > 0 && s != "" && IsHex(s[0]).Some? {
      FromHexBelow(s[1..], count - 1, 16 * before + IsHex(s[0]).value, 16 * bound);
      assert 16 * bound * Power16(count - 1) == bound * Power16(count);
    }
  }

  function Power16(n: nat): nat { if n == 0 then 1 else 16 * Power16(n - 1) }

  function HexAt(s: string, i: nat, count: nat): Option<nat> {
    if i >= |s| then None else FromHex(s[i..], count, 0)
  }

  /** `from_hex_to_i`; behind its last byte a string has a zero byte, which is no digit. */
  method FromHexToI(s: string, i: nat, cnt: nat) returns (val: Option<nat>)
    requires cnt > 0
    ensures val == HexAt(s, i, cnt)
  {
    if i >= |s| { return None; }
    var total, k, left := 0, i, cnt;
    while left > 0
      invariant i <= k <= |s| && FromHex(s[i..], cnt, 0) == FromHex(s[k..], left, total)
      decreases left
    {
      if k == |s| || s[k] == '\0' { return None; }
      var v := IsHex(s[k]);
      if v.None? { return None; }
      total := 16 * total + v.value;
      assert s[k..][1..] == s[k + 1..];
      k, left := k + 1, left - 1;
    }
    return Some(total);
  }

  /** `to_utf8`: nothing for surrogates. */
  function ToUtf8(code: nat): (r: string)
    requires code < 0x11_0000
    ensures Bytes(r)
  {
    if code < 0x80 then [code as char]
    else if code < 0x800 then [(0xC0 + code / 64) as char, (0x80 + code % 64) as char]
    else if 0xD800 <= code < 0xE000 then ""
    else if code < 0x1_0000 then [(0xE0 + code / 0x1000) as char, (0x80 + code / 64 % 64) as char, (0x80 + code % 64) as char]
    else
      [(0xF0 + code / 0x4_0000) as char, (0x80 + code / 0x1000 % 64) as char, (0x80 + code / 64 % 64) as char, (0x80 + code % 64) as char]
  }

  /** One token at the head of a non-empty encoded text: what it stands for, and its length. */
  function Token(s: string, plusIsSpace: bool): (r: (string, nat))
    requires s != ""
    ensures 1 <= r.1 <= |s|
  {
    if s[0] == '%' && |s| > 1 then
      if s[1] == 'u' then
        FromHexBelow(s[2..], 4, 0, 1);
        match FromHex(s[2..], 4, 0)
        case Some(code) => assert Power16(4) == 0x1_0000; (ToUtf8(code), 6)
        case None => (s[..1], 1)
      else
        FromHexBelow(s[1..], 2, 0, 1);
        match FromHex(s[1..], 2, 0)
        case Some(byte) => assert Power16(2) == 0x100; ([byte as char], 3)
        case None => (s[..1], 1)
    else if plusIsSpace && s[0] == '+' then (" ", 1)
    else (s[..1], 1)
  }

  function Decode(s: string, plusIsSpace: bool): string
    decreases |s|
  {
    if s == "" then "" else Token(s, plusIsSpace).0 + Decode(s[Token(s, plusIsSpace).1..], plusIsSpace)
  }

  /** `decode_url` */
  method DecodeUrl(s: string, plusIsSpace: bool) returns (result: string)
    ensures result == Decode(s, plusIsSpace)
  {
    hide *;
    result := "";
    var i := 0;
    DecodeStart(s, plusIsSpace);
    while i < |s|
      invariant i <= |s| && result + Decode(s[i..], plusIsSpace) == Decode(s, plusIsSpace)
    {
      DecodeStep(s, i, plusIsSpace, result);
      TokenAt(s, i, plusIsSpace);
      if s[i] == '%' && i + 1 < |s| {
        if s[i + 1] == 'u' {
          var val := FromHexToI(s, i + 2, 4);
          if val.Some? {
            result := result + ToUtf8(val.value);
            i := i + 5;
          } else {
            result := result + [s[i]];
          }
        } else {
          var val := FromHexToI(s, i + 1, 2);
          if val.Some? {
            result := result + [val.value as char];
            i := i + 2;
          } else {
            result := result + [s[i]];
          }
        }
      } else if plusIsSpace && s[i] == '+' {
        result := result + " ";
      } else {
        result := result + [s[i]];
      }
      i := i + 1;
    }
    assert s[i..] == "";
  }

  lemma DecodeStart(s: string, plusIsSpace: bool)
    ensures Decode("", plusIsSpace) == "" && "" + Decode(s[0..], plusIsSpace) == Decode(s, plusIsSpace)
  {
    assert s[0..] == s;
  }

  lemma DecodeStep(s: string, i: nat, plusIsSpace: bool, before: string)
    requires i < |s|
    ensures var (out, len) := Token(s[i..], plusIsSpace);
            i + len <= |s| && before + Decode(s[i..], plusIsSpace) == before + out + Decode(s[i + len..], plusIsSpace)
  {
    hide Token;
    assert s[i..][Token(s[i..], plusIsSpace).1..] == s[i + Token(s[i..], plusIsSpace).1..];
  }

  lemma TokenAt(s: string, i: nat, plusIsSpace: bool)
    requires i < |s|
    ensures var token := Token(s[i..], plusIsSpace);
            if s[i] == '%' && i + 1 < |s| then
              if s[i + 1] == 'u' then
                (match HexAt(s, i + 2, 4)
                 case Some(code) => code < 0x1_0000 && token == (ToUtf8(code), 6)
                 case None => token == ([s[i]], 1))
              else
                (match HexAt(s, i + 1, 2)
                 case Some(byte) => byte < 0x100 && token == ([byte as char], 3)
                 case None => token == ([s[i]], 1))
            else if plusIsSpace && s[i] == '+' then token == (" ", 1)
            else token == ([s[i]], 1)
  {
    hide FromHex, ToUtf8;
    if i + 1 < |s| {
      assert s[i..][1..] == s[i + 1..];
      FromHexBelow(s[i + 1..], 2, 0, 1);
      assert Power16(2) == 0x100;
    }
    if i + 2 <= |s| {
      assert s[i..][2..] == s[i + 2..];
      NoDigits(s[i + 2..], 4);
      FromHexBelow(s[i + 2..], 4, 0, 1);
      assert Power16(4) == 0x1_0000;
    }
    assert s[i..][..1] == [s[i]];
  }

  lemma NoDigits(s: string, count: nat)
    requires count > 0
    ensures s == "" ==> FromHex(s, count, 0).None?
  {
  }

  // ---------------------------------------------------------------- decoding inverts encoding

  lemma TokenOfChar(c: char, rest: string, plusIsSpace: bool)
    requires IsByte(c)
    ensures Token(EncodeChar(c) + rest, plusIsSpace) == ([c], |EncodeChar(c)|)
  {
    var s := EncodeChar(c) + rest;
    if !Unreserved(c) {
      var high, low := c as int / 16, c as int % 16;
      assert s[1] == Digit(high) && s[2] == Digit(low);
      assert FromHex(s[1..], 2, 0) == FromHex(s[2..], 1, high) == FromHex(s[3..], 0, 16 * high + low) by {
        assert s[1..][1..] == s[2..] && s[2..][1..] == s[3..];
      }
      assert 16 * high + low == c as int;
    }
  }

  /** Every byte string comes back, whether or not a plus sign is read as a space. */
  lemma {:induction false} DecodeInverts(value: string, plusIsSpace: bool)
    requires Bytes(value)
    ensures Decode(EncodeParam(value), plusIsSpace) == value
  {
    hide Token, EncodeChar;
    if value != "" {
      var first, rest := EncodeChar(value[0]), EncodeParam(value[1..]);
      TokenOfChar(value[0], rest, plusIsSpace);
      CharLength(value[0]);
      assert (first + rest)[|first|..] == rest;
      DecodeInverts(value[1..], plusIsSpace);
    }
  }

  lemma CharLength(c: char)
    requires IsByte(c)
    ensures |EncodeChar(c)| > 0
  {
  }

  /** Unreserved text stands for itself. */
  lemma {:induction false} UnreservedDecodes(s: string, plusIsSpace: bool)
    requires forall i :: 0 <= i < |s| ==> Unreserved(s[i])
    ensures Bytes(s) && EncodeParam(s) == s && Decode(s, plusIsSpace) == s
  {
    if s != "" {
      UnreservedDecodes(s[1..], plusIsSpace);
      assert s == [s[0]] + s[1..];
    }
  }

  /** Encoded text has percent signs and unreserved characters only. */
  lemma {:induction false} EncodedClean(value: string)
    requires Bytes(value)
    ensures forall i :: 0 <= i < |EncodeParam(value)| ==> Unreserved(EncodeParam(value)[i]) || EncodeParam(value)[i] == '%'
    ensures EncodeParam(value) == "" <==> value == ""
  {
    if value != "" {
      EncodedClean(value[1..]);
      hide Digit, Unreserved, EncodeParam;
      assert forall i :: 0 <= i < |EncodeChar(value[0])| ==> Unreserved(EncodeChar(value[0])[i]) || EncodeChar(value[0])[i] == '%';
      EncodeParamStep(value);
    }
  }

  lemma EncodeParamStep(value: string)
    requires Bytes(value) && value != ""
    ensures EncodeParam(value) == EncodeChar(value[0]) + EncodeParam(value[1..])
  {
  }
}
