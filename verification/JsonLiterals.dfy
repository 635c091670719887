/** Escapes, hexadecimal text and typed literals, told by their characters. */
module JsonLiterals {
  import opened Texts
  import opened Escapes
  import opened JsonValues
  import opened JsonGrammar
  import opened JsonScalars
  import opened JsonUnescaping

  // ---------------------------------------------------------------- escaping

  /** The codes of the two marks and the five control characters that escaping rewrites. */
  predicate Rewritten(c: char) { c as int in {34, 92, 8, 12, 10, 13, 9} }

  /** A control character that is left as it is. */
  predicate RawControl(c: char) { c as int < 32 && !Rewritten(c) }

  /** Exactly the texts without one of these characters are left alone. */
  lemma EscapeLeavesExactly(s: string)
    ensures Escape(s) == s <==> forall i :: 0 <= i < |s| ==> !Rewritten(s[i])
  {
    EscapeFixpoint(s);
    assert forall i :: 0 <= i < |s| ==> (Special(s[i]) <==> Rewritten(s[i]));
  }

  lemma EscapedCharMeans(c: char, rest: string)
    ensures Meaning(EscapeChar(c) + rest) == if RawControl(c) then None else Prepend([c], Meaning(rest))
  {
    var s := EscapeChar(c) + rest;
    assert Special(c) ==> s[0] == '\\' && s[1] == Letter(c) && s[2..] == rest;
    assert !Special(c) ==> s[0] == c && s[1..] == rest && s[..1] == [c];
    assert ' ' as int == 32;
  }

  /** What escaping writes is the JSON text of the string (section 7 of RFC 8259) exactly if no other control character is in it. */
  lemma {:induction false} EscapedMeansExactly(s: string)
    ensures Meaning(Escape(s)) == Some(s) <==> forall i :: 0 <= i < |s| ==> !RawControl(s[i])
    ensures Meaning(Escape(s)).Some? ==> Meaning(Escape(s)) == Some(s)
  {
    hide EscapeChar, Meaning, RawControl;
    if s == "" {
      NothingMeans();
    } else {
      EscapedCharMeans(s[0], Escape(s[1..]));
      EscapedMeansExactly(s[1..]);
      assert s == [s[0]] + s[1..];
      assert (forall i :: 0 <= i < |s| ==> !RawControl(s[i])) <==> !RawControl(s[0]) && forall i :: 0 <= i < |s[1..]| ==> !RawControl(s[1..][i]) by {
        if forall i :: 0 <= i < |s[1..]| ==> !RawControl(s[1..][i]) {
          forall i | 0 < i < |s| ensures !RawControl(s[i]) { assert s[1..][i - 1] == s[i]; }
        }
        assert forall i :: 0 <= i < |s[1..]| ==> s[1..][i] == s[i + 1];
      }
    }
  }

  lemma NothingMeans()
    ensures Meaning("") == Some("")
  {
  }

  // ---------------------------------------------------------------- hexadecimal

  /** Two lower-case digits for each byte. */
  lemma {:induction false} HexIs(bs: seq<byte>, i: nat)
    requires i < |bs|
    ensures |Hex(bs)| == 2 * |bs|
    ensures Hex(bs)[2 * i] == "0123456789abcdef"[bs[i] / 16] && Hex(bs)[2 * i + 1] == "0123456789abcdef"[bs[i] % 16]
  {
    HexDigitIs(bs[0] / 16);
    HexDigitIs(bs[0] % 16);
    hide HexDigit;
    if i > 0 {
      HexIs(bs[1..], i - 1);
    } else if |bs| > 1 {
      HexIs(bs[1..], 0);
    }
  }

  lemma HexDigitIs(d: nat)
    requires d < 16
    ensures HexDigit(d) == "0123456789abcdef"[d]
  {
  }

  /** A digit of either case is its number, anything else zero. */
  function DigitValue(c: char): int {
    if 48 <= c as int <= 57 then c as int - 48
    else if 65 <= c as int <= 70 then c as int - 55
    else if 97 <= c as int <= 102 then c as int - 87
    else 0
  }

  /** As many bytes as pairs, each the value of its two characters, up to the first zero character and zero from there. */
  lemma {:induction false} HexBytesAre(s: string, i: nat)
    requires 2 * i + 1 < |s|
    ensures HexBytes(s)[i] == if exists j: nat :: j <= 2 * i + 1 && s[j] as int == 0 then 0
                              else 16 * DigitValue(s[2 * i]) + DigitValue(s[2 * i + 1])
  {
    if s[0] as int == 0 || s[1] as int == 0 {
      assert s[0] as int == 0 || s[1] as int == 0;
    } else if i > 0 {
      HexBytesAre(s[2..], i - 1);
      if j: nat :| j <= 2 * i + 1 && s[j] as int == 0 { assert s[2..][j - 2] as int == 0; }
      if j: nat :| j <= 2 * i - 1 && s[2..][j] as int == 0 { assert s[j + 2] as int == 0; }
    }
  }

  // ---------------------------------------------------------------- typed literals

  /** The hash tag with so many characters behind it: a string if they are odd, a hash of the first 32 bytes if there are as many. */
  lemma HashLiteral(h: string)
    ensures Classify("$&JT&$" + h)
         == if |h| % 2 != 0 then Value(Str("$&JT&$" + h))
            else if |h| < 64 then Undefined
            else Value(Hash(HexBytes(h)[..32]))
  {
    hide HexBytes;
    var s := "$&JT&$" + h;
    assert s[0..6] == "$&JT&$" && s[6..] == h;
  }

  /** The buffer tag: all bytes of the characters behind it if they are even, no bytes for a single one. */
  lemma BufferLiteral(h: string)
    ensures Classify("$&BT&$" + h) == if |h| % 2 == 0 then Value(Buffer(HexBytes(h))) else if |h| == 1 then Value(Buffer([])) else Undefined
  {
    hide HexBytes;
    var s := "$&BT&$" + h;
    assert s[0..6] == "$&BT&$" && s[6..] == h;
    TagsDiffer(s);
  }

  /** Any other text is a string. */
  lemma NoLiteral(s: string)
    requires !("$&JT&$" <= s) && !("$&BT&$" <= s)
    ensures Classify(s) == Value(Str(s))
  {
    hide HexBytes;
    if |s| >= 6 { assert s[0..6] == s[..6]; }
  }
}
