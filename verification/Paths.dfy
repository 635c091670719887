/** The check that a request path does not climb above where it starts. */
module Paths {
  import opened QueryStrings
  import opened SplittingExact

  predicate Ordinary(component: string) { component != "" && component != "." && component != ".." }

  function Count(components: seq<string>, counts: string -> bool): nat {
    if components == [] then 0
    else (if counts(components[0]) then 1 else 0) + Count(components[1..], counts)
  }

  predicate IsUp(component: string) { component == ".." }

  /** At no point of the walk have there been more steps up than down. */
  ghost predicate StaysBelow(components: seq<string>, level: nat) {
    forall k :: 0 <= k <= |components| ==> Count(components[..k], IsUp) <= level + Count(components[..k], Ordinary)
  }

  function Ups(components: seq<string>): nat {
    if components == [] then 0 else (if components[0] == ".." then 1 else 0) + Ups(components[1..])
  }

  function Downs(components: seq<string>): nat {
    if components == [] then 0
    else (if components[0] in {"", ".", ".."} then 0 else 1) + Downs(components[1..])
  }

  /** No prefix of the components has more steps up than down. */
  ghost predicate NeverAbove(components: seq<string>) {
    forall k :: 0 <= k <= |components| ==> Ups(components[..k]) <= Downs(components[..k])
  }

  lemma {:induction false} CountsAre(components: seq<string>)
    ensures Count(components, IsUp) == Ups(components) && Count(components, Ordinary) == Downs(components)
  {
    if components != [] { CountsAre(components[1..]); }
  }

  lemma NeverAboveIsStaysBelow(components: seq<string>)
    ensures NeverAbove(components) <==> StaysBelow(components, 0)
  {
    hide Count, Ups, Downs;
    forall k | 0 <= k <= |components|
      ensures Count(components[..k], IsUp) == Ups(components[..k]) && Count(components[..k], Ordinary) == Downs(components[..k])
    {
      CountsAre(components[..k]);
    }
  }

  /** The walk from a depth of `level`. */
  predicate Walk(components: seq<string>, level: nat)
    decreases |components|
  {
    if components == [] then true
    else if components[0] == ".." then level > 0 && Walk(components[1..], level - 1)
    else Walk(components[1..], if Ordinary(components[0]) then level + 1 else level)
  }

  lemma CountFirst(components: seq<string>, k: nat, counts: string -> bool)
    requires 0 < k <= |components|
    ensures Count(components[..k], counts) == (if counts(components[0]) then 1 else 0) + Count(components[1..][..k - 1], counts)
  {
    assert components[..k][1..] == components[1..][..k - 1];
  }

  lemma CountNone(components: seq<string>)
    ensures Count(components[..0], IsUp) == 0 && Count(components[..0], Ordinary) == 0
  {
  }

  /** Walking without going above the start is what the counts say. */
  lemma {:induction false} WalkIsStaysBelow(components: seq<string>, level: nat)
    ensures Walk(components, level) <==> StaysBelow(components, level)
    decreases |components|
  {
    hide Count;
    CountNone(components);
    if components != [] {
      var rest := components[1..];
      CountNone(rest);
      forall k | 0 < k <= |components|
        ensures Count(components[..k], IsUp) == (if components[0] == ".." then 1 else 0) + Count(rest[..k - 1], IsUp)
        ensures Count(components[..k], Ordinary) == (if Ordinary(components[0]) then 1 else 0) + Count(rest[..k - 1], Ordinary)
      {
        CountFirst(components, k, IsUp);
        CountFirst(components, k, Ordinary);
      }
      if components[0] == ".." && level == 0 {
        assert Count(components[..1], IsUp) > 0 + Count(components[..1], Ordinary);
      } else {
        var next := if components[0] == ".." then level - 1 else if Ordinary(components[0]) then level + 1 else level;
        WalkIsStaysBelow(rest, next);
        if StaysBelow(components, level) {
          forall k | 0 <= k <= |rest| ensures Count(rest[..k], IsUp) <= next + Count(rest[..k], Ordinary) {
            assert Count(components[..k + 1], IsUp) <= level + Count(components[..k + 1], Ordinary);
          }
        }
        if StaysBelow(rest, next) {
          forall k | 0 <= k <= |components| ensures Count(components[..k], IsUp) <= level + Count(components[..k], Ordinary) {
            if k > 0 { assert Count(rest[..k - 1], IsUp) <= next + Count(rest[..k - 1], Ordinary); }
          }
        }
      }
    }
  }

  lemma SkipSlash(path: string, i: nat, level: nat)
    requires i < |path| && path[i] == '/'
    ensures Walk(Segments(path[i..], '/'), level) == Walk(Segments(path[i + 1..], '/'), level)
  {
    hide Segments;
    assert path[i..] == "" + ['/'] + path[i + 1..];
    SegmentsAt("", '/', path[i + 1..]);
    assert ([""] + Segments(path[i + 1..], '/'))[1..] == Segments(path[i + 1..], '/');
  }

  /** The walk over the component that ends at `i`. */
  lemma ReadComponent(path: string, beg: nat, i: nat, level: nat)
    requires beg <= i <= |path| && (i < |path| ==> path[i] == '/') && forall k :: beg <= k < i ==> path[k] != '/'
    ensures var component := path[beg..i];
            Walk(Segments(path[beg..], '/'), level)
            == if component == ".." then level > 0 && Walk(Segments(path[i..], '/'), level - 1)
               else Walk(Segments(path[i..], '/'), if Ordinary(component) then level + 1 else level)
  {
    hide Segments;
    var component := path[beg..i];
    if i < |path| {
      var rest := path[i + 1..];
      assert path[beg..] == component + ['/'] + rest;
      SegmentsAt(component, '/', rest);
      assert ([component] + Segments(rest, '/'))[1..] == Segments(rest, '/');
      SkipSlash(path, i, if component == ".." then if level > 0 then level - 1 else 0 else if Ordinary(component) then level + 1 else level);
    } else {
      assert path[beg..] == component && path[i..] == "";
      SegmentsNone(component, '/');
      SegmentsNone("", '/');
      assert [component][1..] == [] && [""][1..] == [];
    }
  }

  /**
   `is_valid_path`: true if and only if, over every prefix of the components that slashes join to
   the path, empty ones and `.` left aside, the steps up are at most as many as the steps down.
   */
  method IsValidPath(path: string) returns (valid: bool)
    ensures forall components :: Whole(components, '/') && Joined(components, '/') == path ==> (valid <==> NeverAbove(components))
  {
    hide Segments, Walk, StaysBelow, NeverAbove, Whole, Joined;
    WalkIsStaysBelow(Segments(path, '/'), 0);
    NeverAboveIsStaysBelow(Segments(path, '/'));
    forall components | Whole(components, '/') && Joined(components, '/') == path ensures components == Segments(path, '/') {
      SegmentsExactly(path, '/', components);
    }
    var level, i: nat := 0, 0;
    assert path[0..] == path;
    while i < |path| && path[i] == '/'
      invariant i <= |path| && Walk(Segments(path[i..], '/'), 0) == Walk(Segments(path, '/'), 0)
    {
      SkipSlash(path, i, 0);
      i := i + 1;
    }
    while i < |path|
      invariant i <= |path| && (i < |path| ==> path[i] != '/')
      invariant Walk(Segments(path[i..], '/'), level) == Walk(Segments(path, '/'), 0)
    {
      var beg := i;
      while i < |path| && path[i] != '/'
        invariant beg <= i <= |path| && forall k :: beg <= k < i ==> path[k] != '/'
        invariant i == beg ==> path[i] != '/'
      {
        i := i + 1;
      }
      ReadComponent(path, beg, i, level);
      var len := i - beg;
      assert len > 0;
      if path[beg..i] == "." {
      } else if path[beg..i] == ".." {
        if level == 0 { return false; }
        level := level - 1;
      } else {
        level := level + 1;
      }
      while i < |path| && path[i] == '/'
        invariant beg < i <= |path| && Walk(Segments(path[i..], '/'), level) == Walk(Segments(path, '/'), 0)
      {
        SkipSlash(path, i, level);
        i := i + 1;
      }
    }
    assert path[i..] == "";
    WalkNothing(level);
    return true;
  }

  lemma WalkNothing(level: nat)
    ensures Walk(Segments("", '/'), level)
  {
    assert [""][1..] == [];
  }
}
