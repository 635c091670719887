/** What is left of a text without the spaces and tabs at its two ends, told by its characters. */
module Trimming {
  import opened Texts

  predicate Blank(s: string) {
    forall i :: 0 <= i < |s| ==> s[i] == ' ' || s[i] == '\t'
  }

  /** `r` is `s` without the spaces and tabs at its two ends. */
  ghost predicate Stripped(s: string, r: string) {
    exists left: string, right: string ::
      && s == left + r + right && Blank(left) && Blank(right)
      && (r != "" ==> r[0] !in {' ', '\t'} && r[|r| - 1] !in {' ', '\t'})
  }

  lemma {:induction false} TrimLeftBlank(s: string, left: nat)
    requires left <= |s|
    ensures var r := TrimLeft(s, left, |s|);
            && (forall i :: left <= i < r ==> s[i] == ' ' || s[i] == '\t')
            && (r < |s| ==> s[r] !in {' ', '\t'})
    decreases |s| - left
  {
    if left < |s| && (s[left] == ' ' || s[left] == '\t') { TrimLeftBlank(s, left + 1); }
  }

  lemma {:induction false} TrimRightBlank(s: string, right: nat)
    requires right <= |s|
    ensures var r := TrimRight(s, right);
            && (forall i :: r <= i < right ==> s[i] == ' ' || s[i] == '\t')
            && (r > 0 ==> s[r - 1] !in {' ', '\t'})
  {
    if right > 0 && (s[right - 1] == ' ' || s[right - 1] == '\t') { TrimRightBlank(s, right - 1); }
  }

  lemma StrippedAs(s: string, left: string, r: string, right: string)
    requires s == left + r + right && Blank(left) && Blank(right)
    requires r != "" ==> r[0] !in {' ', '\t'} && r[|r| - 1] !in {' ', '\t'}
    ensures Stripped(s, r)
  {
  }

  /** `trim_copy` strips. */
  lemma TrimStrips(s: string)
    ensures Stripped(s, TrimCopy(s))
  {
    hide TrimLeft, TrimRight;
    var l, r := TrimLeft(s, 0, |s|), TrimRight(s, |s|);
    TrimLeftBlank(s, 0);
    TrimRightBlank(s, |s|);
    if l < r {
      StrippedAs(s, s[..l], s[l..r], s[r..]);
    } else {
      assert TrimCopy(s) == "";
      StrippedAs(s, s, "", "");
    }
  }

  /** There is one way to strip a text. */
  lemma StrippedOnce(s: string, a: string, b: string)
    requires Stripped(s, a) && Stripped(s, b)
    ensures a == b
  {
    var l, r := Sides(s, a);
    var l', r' := Sides(s, b);
    if a != "" { Inside(s, l, a, r, l', b, r'); }
    if b != "" { Inside(s, l', b, r', l, a, r); }
    assert a == s[|l|..|l| + |a|] && b == s[|l'|..|l'| + |b|];
  }

  lemma Sides(s: string, a: string) returns (l: string, r: string)
    requires Stripped(s, a)
    ensures s == l + a + r && Blank(l) && Blank(r) && (a != "" ==> a[0] !in {' ', '\t'} && a[|a| - 1] !in {' ', '\t'})
  {
    l, r :| s == l + a + r && Blank(l) && Blank(r) && (a != "" ==> a[0] !in {' ', '\t'} && a[|a| - 1] !in {' ', '\t'});
  }

  /** What is stripped one way begins and ends inside what is stripped another way. */
  lemma Inside(s: string, l: string, a: string, r: string, l': string, b: string, r': string)
    requires s == l + a + r && a != "" && a[0] !in {' ', '\t'} && a[|a| - 1] !in {' ', '\t'}
    requires s == l' + b + r' && Blank(l') && Blank(r')
    ensures |l'| <= |l| && |l| + |a| <= |l'| + |b|
  {
    hide Blank;
    assert s[|l|] == a[0] && s[|l| + |a| - 1] == a[|a| - 1];
    NotBlankInside(s, l', b, r', |l|);
    NotBlankInside(s, l', b, r', |l| + |a| - 1);
  }

  lemma NotBlankInside(s: string, l: string, a: string, r: string, i: nat)
    requires s == l + a + r && Blank(l) && Blank(r) && i < |s| && s[i] !in {' ', '\t'}
    ensures |l| <= i < |l| + |a|
  {
    forall j | 0 <= j < |l| ensures s[j] == ' ' || s[j] == '\t' { assert s[j] == l[j]; }
    forall j | |l| + |a| <= j < |s| ensures s[j] == ' ' || s[j] == '\t' { assert s[j] == r[j - |l| - |a|]; }
  }
}
