/** Searching in text. A text is a `string` with one character for each byte. */
module Texts {

  datatype Option<+T> = None | Some(value: T)

  /** `pat` is in the text at offset `o`. */
  predicate At(t: string, o: nat, pat: string) {
    o + |pat| <= |t| && t[o..o + |pat|] == pat
  }

  predicate StartsWith(s: string, p: string) { At(s, 0, p) }

  lemma AtConcat(t: string, o: nat, a: string, b: string)
    requires At(t, o, a + b)
    ensures At(t, o, a) && At(t, o + |a|, b)
  {
    assert t[o..o + |a + b|][..|a|] == a;
    assert t[o..o + |a + b|][|a|..] == b;
    assert t[o..o + |a|] == t[o..o + |a + b|][..|a|];
    assert t[o + |a|..o + |a + b|] == t[o..o + |a + b|][|a|..];
  }

  lemma AtChar(t: string, o: nat, s: string, i: nat)
    requires At(t, o, s) && i < |s|
    ensures o + i < |t| && t[o + i] == s[i]
  {
    assert t[o..o + |s|][i] == t[o + i];
  }

  lemma AtBounds(t: string, o: nat, pat: string)
    requires At(t, o, pat)
    ensures o + |pat| <= |t|
  {
  }

  lemma AtHead(t: string, o: nat, c: char, rest: string)
    requires At(t, o, [c] + rest)
    ensures o < |t| && t[o] == c && At(t, o + 1, rest)
  {
    AtConcat(t, o, [c], rest);
    AtChar(t, o, [c], 0);
  }

  /** `std::string::find`: the first occurrence of `pat` at or after `from`. */
  function FindFrom(s: string, pat: string, from: nat): (r: Option<nat>)
    ensures r.Some? ==> from <= r.value && At(s, r.value, pat)
    ensures r.Some? ==> forall q: nat :: from <= q < r.value ==> !At(s, q, pat)
    ensures r.None? ==> forall q: nat :: from <= q ==> !At(s, q, pat)
    decreases |s| - from
  {
    if from > |s| then None
    else if At(s, from, pat) then Some(from)
    else FindFrom(s, pat, from + 1)
  }

  function Find(s: string, pat: string): (r: Option<nat>)
    ensures r.Some? ==> At(s, r.value, pat) && forall q: nat :: q < r.value ==> !At(s, q, pat)
    ensures r.None? ==> forall q: nat :: !At(s, q, pat)
  {
    FindFrom(s, pat, 0)
  }

  /** The first occurrence is determined by what is before it. */
  lemma FindIs(s: string, pat: string, p: nat)
    requires At(s, p, pat) && forall q: nat :: q < p ==> !At(s, q, pat)
    ensures Find(s, pat) == Some(p)
  {
  }

  function Concat(pieces: seq<string>): string {
    if pieces == [] then "" else pieces[0] + Concat(pieces[1..])
  }

  /** `isspace` */
  predicate IsSpace(c: char) { c == ' ' || '\t' <= c <= '\r' }

  // ---------------------------------------------------------------- trimming

  predicate IsSpaceOrTab(c: char) { c == ' ' || c == '\t' }

  /** First index at or after `left` that is no space or tab, or `end`. */
  function TrimLeft(s: string, left: nat, end: nat): (r: nat)
    requires end <= |s|
    ensures left <= r && (left <= end ==> r <= end)
    decreases end - left
  {
    if left < end && IsSpaceOrTab(s[left]) then TrimLeft(s, left + 1, end) else left
  }

  function TrimRight(s: string, right: nat): (r: nat)
    requires right <= |s|
    ensures r <= right
  {
    if right > 0 && IsSpaceOrTab(s[right - 1]) then TrimRight(s, right - 1) else right
  }

  /** `trim_copy` */
  function TrimCopy(s: string): string {
    var l, r := TrimLeft(s, 0, |s|), TrimRight(s, |s|);
    if l <= r then s[l..r] else ""
  }

  function ToLower(c: char): char {
    if 'A' <= c <= 'Z' then (c as int + 32) as char else c
  }

  predicate SameIgnoringCase(a: string, b: string) {
    |a| == |b| && forall i :: 0 <= i < |a| ==> ToLower(a[i]) == ToLower(b[i])
  }
}
