/** String escaping, as section 7 of RFC 8259 has it for the seven characters the library rewrites. */
module Escapes {

  const BACKSPACE: char := 8 as char
  const FORM_FEED: char := 12 as char

  predicate Special(c: char) {
    c in ['\"', '\\', BACKSPACE, FORM_FEED, '\n', '\r', '\t']
  }

  /** The letter that stands for a special character after the backslash. */
  function Letter(c: char): (r: char)
    requires Special(c)
    ensures r != 'u' && r != '/'
  {
    if c == BACKSPACE then 'b'
    else if c == FORM_FEED then 'f'
    else if c == '\n' then 'n'
    else if c == '\r' then 'r'
    else if c == '\t' then 't'
    else c
  }

  function EscapeChar(c: char): string {
    if Special(c) then ['\\', Letter(c)] else [c]
  }

  function Escape(s: string): (r: string)
  {
    if s == "" then "" else EscapeChar(s[0]) + Escape(s[1..])
  }

  /** No character of `s` is rewritten by escaping. */
  predicate Clean(s: string) {
    forall i :: 0 <= i < |s| ==> !Special(s[i])
  }

  lemma {:induction false} EscapeConcat(a: string, b: string)
    ensures Escape(a + b) == Escape(a) + Escape(b)
  {
    hide EscapeChar;
    if a == "" {
      assert a + b == b;
    } else {
      EscapeConcat(a[1..], b);
      assert (a + b)[1..] == a[1..] + b;
      assert Escape(a + b) == EscapeChar(a[0]) + (Escape(a[1..]) + Escape(b));
    }
  }

  lemma {:induction false} EscapeGrows(s: string)
    ensures |Escape(s)| >= |s|
    ensures |Escape(s)| == |s| ==> Clean(s)
  {
    if s != "" {
      EscapeGrows(s[1..]);
      assert forall i :: 0 < i < |s| ==> s[i] == s[1..][i - 1];
    }
  }

  /** Escaping is the identity on exactly the strings without special characters. */
  lemma {:induction false} EscapeFixpoint(s: string)
    ensures Escape(s) == s <==> Clean(s)
  {
    EscapeGrows(s);
    if Clean(s) && s != "" {
      EscapeFixpoint(s[1..]);
    }
  }

  method JsonEscape(str: string) returns (output: string)
    ensures output == Escape(str)
  {
    output := "";
    for i := 0 to |str|
      invariant output == Escape(str[..i])
    {
      EscapeConcat(str[..i], [str[i]]);
      assert str[..i + 1] == str[..i] + [str[i]];
      output := output + EscapeChar(str[i]);
    }
    assert str[..|str|] == str;
  }
}
