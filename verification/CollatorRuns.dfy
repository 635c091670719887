/** What holds of the collator pallet in every run, and what one session change does exactly. */
module CollatorRuns {
  import opened Arithmetic
  import opened Balances
  import opened CollatorSelection

  // ---------------------------------------------------------------- the session kick is greedy

  /** Remove the first `budget` stale candidates, in list order. */
  function Greedy(cfg: Config, s: Pallet, cs: seq<Candidate>, budget: nat): seq<Candidate> {
    if cs == [] then []
    else if budget > 0 && Stale(cfg, s, cs[0].who) then Greedy(cfg, s, cs[1..], budget - 1)
    else [cs[0]] + Greedy(cfg, s, cs[1..], budget)
  }

  function StaleCount(cfg: Config, s: Pallet, cs: seq<Candidate>): (n: nat)
    ensures n <= |cs|
  {
    if cs == [] then 0 else (if Stale(cfg, s, cs[0].who) then 1 else 0) + StaleCount(cfg, s, cs[1..])
  }

  function Budget(cfg: Config, count: nat): nat {
    if count > cfg.minCandidates then count - cfg.minCandidates else 0
  }

  ghost predicate DistinctWhos(cs: seq<Candidate>) {
    forall i, j :: 0 <= i < j < |cs| ==> cs[i].who != cs[j].who
  }

  lemma {:induction false} GreedyCount(cfg: Config, s: Pallet, cs: seq<Candidate>, budget: nat)
    ensures |Greedy(cfg, s, cs, budget)| == |cs| - Min(budget, StaleCount(cfg, s, cs))
  {
    hide Stale;
    if cs != [] {
      if budget > 0 && Stale(cfg, s, cs[0].who) {
        GreedyCount(cfg, s, cs[1..], budget - 1);
      } else {
        GreedyCount(cfg, s, cs[1..], budget);
      }
    }
  }

  /** Removing the candidate in the middle of the list. */
  lemma RemoveMiddle(s: Pallet, before: seq<Candidate>, c: Candidate, after: seq<Candidate>)
    requires s.candidates == before + [c] + after && DistinctWhos(s.candidates)
    ensures var r := TryRemove(s, c.who);
            && r.outcome.Ok? && r.pallet.candidates == before + after && DistinctWhos(before + after)
            && r.pallet.now == s.now && r.pallet.invulnerables == s.invulnerables
            && r.pallet.lastAuthored == s.lastAuthored - {c.who}
            && r.pallet.ledger == Unreserve(s.ledger, c.who, c.deposit)
  {
    var i := |before|;
    assert s.candidates[i] == c;
    assert PositionOf(s.candidates, c.who) == i;
    assert s.candidates[..i] == before && s.candidates[i + 1..] == after;
    forall x, y | 0 <= x < y < |before + after| ensures (before + after)[x].who != (before + after)[y].who {
      var x', y' := if x < i then x else x + 1, if y < i then y else y + 1;
      assert (before + after)[x] == s.candidates[x'] && (before + after)[y] == s.candidates[y'];
    }
  }

  /** Staleness of another candidate does not change when one is removed. */
  lemma StaleUnaffected(cfg: Config, s: Pallet, who: Account, cs: seq<Candidate>, s': Pallet, budget: nat)
    requires s'.now == s.now && s'.lastAuthored == s.lastAuthored - {who}
    requires forall i :: 0 <= i < |cs| ==> cs[i].who != who
    ensures Greedy(cfg, s', cs, budget) == Greedy(cfg, s, cs, budget)
  {
    if cs != [] {
      assert forall i :: 0 <= i < |cs[1..]| ==> cs[1..][i] == cs[i + 1];
      assert Stale(cfg, s', cs[0].who) == Stale(cfg, s, cs[0].who);
      StaleUnaffected(cfg, s, who, cs[1..], s', budget);
      if budget > 0 { StaleUnaffected(cfg, s, who, cs[1..], s', budget - 1); }
    }
  }

  /** The walk, with the candidates before the current one already kept. */
  lemma {:induction false} KickIsGreedy(cfg: Config, s: Pallet, before: seq<Candidate>, rest: seq<Candidate>)
    requires s.candidates == before + rest && DistinctWhos(s.candidates)
    ensures var k := KickStale(cfg, s, rest);
            var left := Greedy(cfg, s, rest, Budget(cfg, |s.candidates|));
            && k.failures == 0 && k.kept == Whos(left) && k.pallet.candidates == before + left
            && k.pallet.invulnerables == s.invulnerables
    decreases |rest|
  {
    hide Stale, TryRemove, Whos, DistinctWhos;
    if rest == [] {
      assert before + [] == before && Whos([]) == [] by { WhosCons(Candidate(0, 0), []); }
    } else {
      var c, tail := rest[0], rest[1..];
      assert s.candidates == before + [c] + tail;
      if !Stale(cfg, s, c.who) || |s.candidates| <= cfg.minCandidates {
        KickIsGreedy(cfg, s, before + [c], tail);
        var left := Greedy(cfg, s, tail, Budget(cfg, |s.candidates|));
        WhosCons(c, left);
        assert before + [c] + left == before + ([c] + left);
      } else {
        RemoveMiddle(s, before, c, tail);
        var s' := TryRemove(s, c.who).pallet;
        OthersDiffer(before, c, tail);
        StaleUnaffected(cfg, s, c.who, tail, s', Budget(cfg, |s'.candidates|));
        KickIsGreedy(cfg, s', before, tail);
      }
    }
  }

  lemma WhosCons(c: Candidate, cs: seq<Candidate>)
    ensures Whos([c] + cs) == [c.who] + Whos(cs) && Whos([]) == []
  {
  }

  lemma OthersDiffer(before: seq<Candidate>, c: Candidate, after: seq<Candidate>)
    requires DistinctWhos(before + [c] + after)
    ensures forall i :: 0 <= i < |after| ==> after[i].who != c.who
  {
    var all := before + [c] + after;
    forall i | 0 <= i < |after| ensures after[i].who != c.who {
      assert all[|before|] == c && all[|before| + 1 + i] == after[i];
    }
  }

  /**
   A session change removes exactly the first min(stale, max(0, len - MinCandidates)) stale
   candidates in list order, no removal fails, and it returns the invulnerables followed by the
   candidates left in storage.
   */
  lemma SessionIsGreedy(cfg: Config, s: Pallet)
    requires DistinctWhos(s.candidates)
    ensures var k := KickStale(cfg, s, s.candidates);
            var (s', collators) := AssembleSession(cfg, s);
            && s'.candidates == Greedy(cfg, s, s.candidates, Budget(cfg, |s.candidates|))
            && collators == s.invulnerables + Whos(s'.candidates)
            && k.failures == 0
            && |s.candidates| - |k.kept| == Min(Budget(cfg, |s.candidates|), StaleCount(cfg, s, s.candidates))
  {
    assert [] + s.candidates == s.candidates;
    KickIsGreedy(cfg, s, [], s.candidates);
    GreedyCount(cfg, s, s.candidates, Budget(cfg, |s.candidates|));
  }

  /** The i-th candidate is stale, and the stale ones before it have not used up the budget. */
  predicate Goes(cfg: Config, s: Pallet, cs: seq<Candidate>, i: nat, budget: nat) {
    i < |cs| && Stale(cfg, s, cs[i].who) && StaleCount(cfg, s, cs[..i]) < budget
  }

  lemma GoesNext(cfg: Config, s: Pallet, cs: seq<Candidate>, i: nat, budget: nat)
    requires cs != []
    ensures var b := if budget > 0 && Stale(cfg, s, cs[0].who) then budget - 1 else budget;
            Goes(cfg, s, cs, i + 1, budget) <==> Goes(cfg, s, cs[1..], i, b)
    ensures Goes(cfg, s, cs, 0, budget) <==> budget > 0 && Stale(cfg, s, cs[0].who)
  {
    hide Stale;
    assert cs[..0] == [];
    if i < |cs| - 1 {
      assert cs[..i + 1][0] == cs[0] && cs[..i + 1][1..] == cs[1..][..i];
    }
  }

  /** Who stays, read off the list before. */
  lemma {:induction false} StaysExactly(cfg: Config, s: Pallet, cs: seq<Candidate>, budget: nat, who: Account)
    ensures IsCandidate(Greedy(cfg, s, cs, budget), who) <==> exists i: nat :: i < |cs| && cs[i].who == who && !Goes(cfg, s, cs, i, budget)
    decreases |cs|
  {
    hide Stale, Goes;
    if cs != [] {
      var b := if budget > 0 && Stale(cfg, s, cs[0].who) then budget - 1 else budget;
      var tail := Greedy(cfg, s, cs[1..], b);
      StaysExactly(cfg, s, cs[1..], b, who);
      GoesNext(cfg, s, cs, 0, budget);
      forall i: nat | i < |cs| - 1 ensures Goes(cfg, s, cs, i + 1, budget) <==> Goes(cfg, s, cs[1..], i, b) {
        GoesNext(cfg, s, cs, i, budget);
      }
      GreedyHead(cfg, s, cs, budget, who);
      StaysHead(cfg, s, cs, budget, b, who);
    }
  }

  lemma GreedyHead(cfg: Config, s: Pallet, cs: seq<Candidate>, budget: nat, who: Account)
    requires cs != []
    ensures var goes := budget > 0 && Stale(cfg, s, cs[0].who);
            IsCandidate(Greedy(cfg, s, cs, budget), who)
            <==> (!goes && cs[0].who == who) || IsCandidate(Greedy(cfg, s, cs[1..], if goes then budget - 1 else budget), who)
  {
    hide Stale, IsCandidate;
    CandidateOfFront(cs[0], Greedy(cfg, s, cs[1..], budget), who);
  }

  lemma CandidateOfFront(c: Candidate, cs: seq<Candidate>, a: Account)
    ensures IsCandidate([c] + cs, a) <==> c.who == a || IsCandidate(cs, a)
  {
    assert ([c] + cs)[0] == c;
    if IsCandidate(cs, a) {
      var i :| 0 <= i < |cs| && cs[i].who == a;
      assert ([c] + cs)[i + 1].who == a;
    }
  }

  lemma StaysHead(cfg: Config, s: Pallet, cs: seq<Candidate>, budget: nat, b: nat, who: Account)
    requires cs != []
    requires forall i: nat :: i < |cs| - 1 ==> (Goes(cfg, s, cs, i + 1, budget) <==> Goes(cfg, s, cs[1..], i, b))
    ensures (exists i: nat :: i < |cs| && cs[i].who == who && !Goes(cfg, s, cs, i, budget))
            <==> (cs[0].who == who && !Goes(cfg, s, cs, 0, budget))
                 || exists i: nat :: i < |cs[1..]| && cs[1..][i].who == who && !Goes(cfg, s, cs[1..], i, b)
  {
    hide Goes;
    if i: nat :| i < |cs| && cs[i].who == who && !Goes(cfg, s, cs, i, budget) {
      if i > 0 {
        assert cs[1..][i - 1].who == who && !Goes(cfg, s, cs[1..], i - 1, b);
      }
    }
    if i: nat :| i < |cs[1..]| && cs[1..][i].who == who && !Goes(cfg, s, cs[1..], i, b) {
      assert cs[i + 1].who == who && !Goes(cfg, s, cs, i + 1, budget);
    }
  }

  /**
   The collators are distinct exactly when the invulnerables are and every candidate among them is
   one that the session kicks: stale, with fewer stale ones before it than may go.
   */
  lemma CollatorsDistinctExactly(cfg: Config, s: Pallet)
    requires DistinctWhos(s.candidates)
    ensures var cs := s.candidates;
            Distinct(AssembleSession(cfg, s).1) <==>
              Distinct(s.invulnerables) &&
              forall i: nat :: i < |cs| && cs[i].who in s.invulnerables ==> Goes(cfg, s, cs, i, Budget(cfg, |cs|))
  {
    var cs, budget := s.candidates, Budget(cfg, |s.candidates|);
    SessionIsGreedy(cfg, s);
    GreedyFrom(cfg, s, cs, budget);
    hide Greedy, Goes, Stale, AssembleSession, IsCandidate;
    var left := Greedy(cfg, s, cs, budget);
    DistinctParts(s.invulnerables, left);
    forall who: Account
      ensures IsCandidate(left, who) <==> exists i: nat :: i < |cs| && cs[i].who == who && !Goes(cfg, s, cs, i, budget)
    {
      StaysExactly(cfg, s, cs, budget, who);
    }
    if i: nat :| i < |cs| && cs[i].who in s.invulnerables && !Goes(cfg, s, cs, i, budget) {
      assert IsCandidate(left, cs[i].who);
    }
    if k: nat :| k < |s.invulnerables| && IsCandidate(left, s.invulnerables[k]) {
      var i: nat :| i < |cs| && cs[i].who == s.invulnerables[k] && !Goes(cfg, s, cs, i, budget);
      assert cs[i].who in s.invulnerables;
    }
  }

  lemma DistinctParts(firsts: seq<Account>, cs: seq<Candidate>)
    requires DistinctWhos(cs)
    ensures Distinct(firsts + Whos(cs)) <==> Distinct(firsts) && forall i :: 0 <= i < |firsts| ==> !IsCandidate(cs, firsts[i])
  {
    var all := firsts + Whos(cs);
    if Distinct(all) {
      forall i, j | 0 <= i < j < |firsts| ensures firsts[i] != firsts[j] {
        assert all[i] != all[j];
      }
      forall i, j | 0 <= i < |firsts| && 0 <= j < |cs| ensures cs[j].who != firsts[i] {
        assert all[i] != all[|firsts| + j];
      }
    }
  }

  /** So they are if the invulnerables are, and none of them was a candidate. */
  lemma CollatorsDistinct(cfg: Config, s: Pallet)
    requires DistinctWhos(s.candidates) && Distinct(s.invulnerables)
    requires forall i :: 0 <= i < |s.invulnerables| ==> !IsCandidate(s.candidates, s.invulnerables[i])
    ensures Distinct(AssembleSession(cfg, s).1)
  {
    hide Goes, AssembleSession;
    CollatorsDistinctExactly(cfg, s);
    forall i: nat | i < |s.candidates| ensures s.candidates[i].who !in s.invulnerables {
      assert IsCandidate(s.candidates, s.candidates[i].who);
    }
  }

  lemma {:induction false} GreedyFrom(cfg: Config, s: Pallet, cs: seq<Candidate>, budget: nat)
    requires DistinctWhos(cs)
    ensures DistinctWhos(Greedy(cfg, s, cs, budget))
    decreases |cs|
  {
    hide Stale;
    if cs != [] {
      var b := if budget > 0 && Stale(cfg, s, cs[0].who) then budget - 1 else budget;
      GreedyFrom(cfg, s, cs[1..], b);
      forall j | 0 <= j < |Greedy(cfg, s, cs[1..], b)| ensures Greedy(cfg, s, cs[1..], b)[j].who != cs[0].who {
        GreedyMember(cfg, s, cs[1..], b, j);
      }
    }
  }

  lemma {:induction false} GreedyMember(cfg: Config, s: Pallet, cs: seq<Candidate>, budget: nat, j: nat)
    requires j < |Greedy(cfg, s, cs, budget)|
    ensures exists i :: 0 <= i < |cs| && cs[i] == Greedy(cfg, s, cs, budget)[j]
    decreases |cs|
  {
    hide Stale;
    var g := Greedy(cfg, s, cs, budget);
    if budget > 0 && Stale(cfg, s, cs[0].who) {
      GreedyMember(cfg, s, cs[1..], budget - 1, j);
      var i :| 0 <= i < |cs[1..]| && cs[1..][i] == g[j];
      assert cs[i + 1] == g[j];
    } else if j > 0 {
      GreedyMember(cfg, s, cs[1..], budget, j - 1);
      var i :| 0 <= i < |cs[1..]| && cs[1..][i] == g[j];
      assert cs[i + 1] == g[j];
    } else {
      assert cs[0] == g[j];
    }
  }

  // ---------------------------------------------------------------- runs

  datatype Call =
    | RegisterAs(who: Account, liquid: bool)
    | LeaveAs(who: Account)
    | Author(who: Account)
    | Session
    | SetInvulnerables(new_: seq<Account>)
    | SetDesired(max: nat)
    | SetBond(bond: nat)
    | Blocks(n: nat)

  function Execute(cfg: Config, s: Pallet, call: Call): Pallet {
    match call
    case RegisterAs(who, liquid) => Register(cfg, s, who, liquid).pallet
    case LeaveAs(who) => Leave(cfg, s, who).pallet
    case Author(who) => RewardAuthor(cfg, s, who)
    case Session => AssembleSession(cfg, s).0
    case SetInvulnerables(new_) => s.(invulnerables := new_)
    case SetDesired(max) => s.(desired := max)
    case SetBond(bond) => s.(bond := bond)
    case Blocks(n) => s.(now := s.now + n)
  }

  /** The pallet with what an observer remembers: who registered when, and who authored since. */
  datatype Traced = Traced(
    pallet: Pallet,
    calls: nat,
    turn: map<Account, nat>,
    registeredAt: map<Account, nat>,
    authoredAt: map<Account, nat>)

  function Observe(cfg: Config, t: Traced, call: Call): Traced {
    var s' := Execute(cfg, t.pallet, call);
    var registered := call.RegisterAs? && Register(cfg, t.pallet, call.who, call.liquid).outcome.Ok?;
    Traced(s', t.calls + 1,
           if registered then t.turn[call.who := t.calls] else t.turn,
           if registered then t.registeredAt[call.who := t.pallet.now] else t.registeredAt,
           if registered then t.authoredAt - {call.who}
           else if call.Author? then t.authoredAt[call.who := t.pallet.now]
           else t.authoredAt)
  }

  function Run(cfg: Config, s: Pallet, calls: seq<Call>): Traced {
    if calls == [] then Traced(s, 0, map[], map[], map[])
    else Observe(cfg, Run(cfg, s, calls[..|calls| - 1]), calls[|calls| - 1])
  }

  /** One candidate's entry in storage agrees with what was observed of it. */
  ghost predicate Tracked(cfg: Config, t: Traced, c: Candidate) {
    && c.who in t.turn && t.turn[c.who] < t.calls
    && c.who in t.registeredAt && t.registeredAt[c.who] <= t.pallet.now
    && (c.who in t.authoredAt ==> t.authoredAt[c.who] <= t.pallet.now)
    && c.who in t.pallet.lastAuthored
    && t.pallet.lastAuthored[c.who] == (if c.who in t.authoredAt then t.authoredAt[c.who] else t.registeredAt[c.who] + cfg.kickThreshold)
    && Reserved(t.pallet.ledger, c.who) == c.deposit
  }

  /** Candidates are in registration order, hence distinct. */
  ghost predicate InOrder(t: Traced) {
    && (forall i :: 0 <= i < |t.pallet.candidates| ==> t.pallet.candidates[i].who in t.turn)
    && (forall i, j :: 0 <= i < j < |t.pallet.candidates| ==>
          t.turn[t.pallet.candidates[i].who] < t.turn[t.pallet.candidates[j].who])
  }

  /** Only candidates have a reserved balance. */
  ghost predicate OthersUnreserved(s: Pallet) {
    forall a :: !IsCandidate(s.candidates, a) ==> Reserved(s.ledger, a) == 0
  }

  ghost predicate Inv(cfg: Config, t: Traced) {
    && InOrder(t)
    && (forall i :: 0 <= i < |t.pallet.candidates| ==> Tracked(cfg, t, t.pallet.candidates[i]))
    && OthersUnreserved(t.pallet)
  }

  lemma InOrderDistinct(t: Traced)
    requires InOrder(t)
    ensures DistinctWhos(t.pallet.candidates)
  {
  }

  /** A run whose session names the same collator twice: it registers, and is then made invulnerable as well. */
  lemma NamedTwice(cfg: Config, a: Account)
    requires cfg.minCandidates == 1 && cfg.validatorId(a).Some? && cfg.isRegistered(cfg.validatorId(a).value)
    ensures var t := Run(cfg, Genesis([], 0, 1, map[]), [RegisterAs(a, true), SetInvulnerables([a])]);
            AssembleSession(cfg, t.pallet).1 == [a, a]
  {
    var start := Genesis([], 0, 1, map[]);
    var calls := [RegisterAs(a, true), SetInvulnerables([a])];
    var first := [RegisterAs(a, true)];
    assert calls[..1] == first && first[..0] == [];
    assert Run(cfg, start, first).pallet == Register(cfg, start, a, true).pallet;
    assert Run(cfg, start, first).pallet.candidates == [Candidate(a, 0)];
    var t := Run(cfg, start, calls);
    assert t == Observe(cfg, Run(cfg, start, first), SetInvulnerables([a]));
    assert t.pallet.candidates == [Candidate(a, 0)] && t.pallet.invulnerables == [a];
    assert [Candidate(a, 0)][1..] == [];
    assert KickStale(cfg, t.pallet, t.pallet.candidates).kept == [a] + KickStale(cfg, t.pallet, []).kept;
  }

  // ---------------------------------------------------------------- every call keeps the invariant

  lemma RegisterKeeps(cfg: Config, t: Traced, call: Call)
    requires Inv(cfg, t) && call.RegisterAs?
    ensures Inv(cfg, Observe(cfg, t, call))
  {
    var who := call.who;
    var r := Register(cfg, t.pallet, who, call.liquid);
    var t' := Observe(cfg, t, call);
    if r.outcome.Ok? {
      RegisteredKeeps(cfg, t, call);
    } else {
      SameStorageKeeps(cfg, t, t');
    }
  }

  lemma RegisteredKeeps(cfg: Config, t: Traced, call: Call)
    requires Inv(cfg, t) && call.RegisterAs? && Register(cfg, t.pallet, call.who, call.liquid).outcome.Ok?
    ensures Inv(cfg, Observe(cfg, t, call))
  {
    var t', cs, c := Observe(cfg, t, call), t.pallet.candidates, Candidate(call.who, t.pallet.bond);
    RegisteredIs(cfg, t, call);
    hide Register, Observe, Reserved;
    forall i | 0 <= i < |cs| ensures Tracked(cfg, t', cs[i]) && t'.turn[cs[i].who] == t.turn[cs[i].who] {
      assert Tracked(cfg, t, cs[i]) && cs[i].who != call.who;
    }
    forall a | !IsCandidate(cs + [c], a) ensures Reserved(t'.pallet.ledger, a) == 0 {
      CandidateOfMore(cs, c, a);
    }
  }

  /** What a successful registration changes. */
  lemma RegisteredIs(cfg: Config, t: Traced, call: Call)
    requires Inv(cfg, t) && call.RegisterAs? && Register(cfg, t.pallet, call.who, call.liquid).outcome.Ok?
    ensures var who, s, s' := call.who, t.pallet, Observe(cfg, t, call).pallet;
            && !IsCandidate(s.candidates, who)
            && s'.candidates == s.candidates + [Candidate(who, s.bond)] && s'.now == s.now
            && s'.lastAuthored == s.lastAuthored[who := s.now + cfg.kickThreshold]
            && Reserved(s'.ledger, who) == s.bond
            && (forall a :: a != who ==> Reserved(s'.ledger, a) == Reserved(s.ledger, a))
            && Observe(cfg, t, call) == Traced(s', t.calls + 1, t.turn[who := t.calls], t.registeredAt[who := s.now], t.authoredAt - {who})
  {
    hide InOrder, Tracked;
    assert Reserved(t.pallet.ledger, call.who) == 0;
  }

  lemma CandidateOfMore(cs: seq<Candidate>, c: Candidate, a: Account)
    ensures IsCandidate(cs + [c], a) <==> IsCandidate(cs, a) || a == c.who
  {
    if IsCandidate(cs, a) {
      var i :| 0 <= i < |cs| && cs[i].who == a;
      assert (cs + [c])[i].who == a;
    }
    assert (cs + [c])[|cs|] == c;
  }

  /** Time may pass and counters may grow. */
  lemma SameStorageKeeps(cfg: Config, t: Traced, t': Traced)
    requires Inv(cfg, t) && t.calls <= t'.calls && t.pallet.now <= t'.pallet.now
    requires t'.turn == t.turn && t'.registeredAt == t.registeredAt && t'.authoredAt == t.authoredAt
    requires t'.pallet.candidates == t.pallet.candidates && t'.pallet.lastAuthored == t.pallet.lastAuthored
    requires t'.pallet.ledger.reserved == t.pallet.ledger.reserved
    ensures Inv(cfg, t')
  {
    forall i | 0 <= i < |t'.pallet.candidates| ensures Tracked(cfg, t', t'.pallet.candidates[i]) {
      assert Tracked(cfg, t, t.pallet.candidates[i]);
    }
  }

  lemma AuthorKeeps(cfg: Config, t: Traced, call: Call)
    requires Inv(cfg, t) && call.Author?
    ensures Inv(cfg, Observe(cfg, t, call))
  {
    var t' := Observe(cfg, t, call);
    forall i | 0 <= i < |t'.pallet.candidates| ensures Tracked(cfg, t', t'.pallet.candidates[i]) {
      assert Tracked(cfg, t, t.pallet.candidates[i]);
    }
  }

  lemma DropShape(before: seq<Candidate>, c: Candidate, after: seq<Candidate>, j: nat)
    requires j < |before + after|
    ensures (before + after)[j] == (before + [c] + after)[if j < |before| then j else j + 1]
  {
  }

  lemma TrackedAfterDrop(cfg: Config, t: Traced, c: Candidate, other: Candidate, s': Pallet)
    requires Tracked(cfg, t, other) && other.who != c.who
    requires s'.now == t.pallet.now && s'.lastAuthored == t.pallet.lastAuthored - {c.who}
    requires s'.ledger == Unreserve(t.pallet.ledger, c.who, c.deposit)
    ensures Tracked(cfg, t.(pallet := s'), other)
  {
  }

  lemma UnreservedAfterDrop(cfg: Config, t: Traced, before: seq<Candidate>, c: Candidate, after: seq<Candidate>, a: Account)
    requires OthersUnreserved(t.pallet) && t.pallet.candidates == before + [c] + after && Tracked(cfg, t, c)
    requires !IsCandidate(before + after, a)
    ensures Reserved(Unreserve(t.pallet.ledger, c.who, c.deposit), a) == 0
  {
    if a != c.who && IsCandidate(t.pallet.candidates, a) {
      var j :| 0 <= j < |t.pallet.candidates| && t.pallet.candidates[j].who == a;
      DropShape(before, c, after, if j < |before| then j else j - 1);
    }
  }

  /** Removing one candidate keeps the invariant. */
  lemma RemoveKeeps(cfg: Config, t: Traced, who: Account)
    requires Inv(cfg, t)
    ensures Inv(cfg, t.(pallet := TryRemove(t.pallet, who).pallet))
  {
    hide Tracked, Reserved, Unreserve;
    var s := t.pallet;
    if !IsCandidate(s.candidates, who) {
      assert t.(pallet := s) == t;
    } else {
      var i := PositionOf(s.candidates, who);
      var c, before, after := s.candidates[i], s.candidates[..i], s.candidates[i + 1..];
      InOrderDistinct(t);
      assert s.candidates == before + [c] + after;
      RemoveMiddle(s, before, c, after);
      DropKeeps(cfg, t, before, c, after, TryRemove(s, who).pallet);
    }
  }

  lemma DropKeeps(cfg: Config, t: Traced, before: seq<Candidate>, c: Candidate, after: seq<Candidate>, s': Pallet)
    requires Inv(cfg, t) && t.pallet.candidates == before + [c] + after
    requires s'.now == t.pallet.now && s'.lastAuthored == t.pallet.lastAuthored - {c.who}
    requires s'.ledger == Unreserve(t.pallet.ledger, c.who, c.deposit) && s'.candidates == before + after
    ensures Inv(cfg, t.(pallet := s'))
  {
    hide Tracked, Reserved, Unreserve;
    var all := before + [c] + after;
    assert all[|before|] == c && Tracked(cfg, t, c);
    InOrderDistinct(t);
    forall j | 0 <= j < |before + after|
      ensures Tracked(cfg, t.(pallet := s'), (before + after)[j])
      ensures (before + after)[j] == all[if j < |before| then j else j + 1]
    {
      DropShape(before, c, after, j);
      var j' := if j < |before| then j else j + 1;
      assert Tracked(cfg, t, all[j']);
      assert all[j'].who != c.who;
      TrackedAfterDrop(cfg, t, c, all[j'], s');
    }
    forall a | !IsCandidate(before + after, a) ensures Reserved(s'.ledger, a) == 0 {
      UnreservedAfterDrop(cfg, t, before, c, after, a);
    }
  }

  lemma {:induction false} KickKeeps(cfg: Config, t: Traced, snapshot: seq<Candidate>)
    requires Inv(cfg, t)
    ensures Inv(cfg, t.(pallet := KickStale(cfg, t.pallet, snapshot).pallet))
    ensures KickStale(cfg, t.pallet, snapshot).pallet.now == t.pallet.now
    decreases |snapshot|
  {
    hide Inv, Stale, TryRemove;
    if snapshot == [] {
      assert t.(pallet := t.pallet) == t;
    } else if !Stale(cfg, t.pallet, snapshot[0].who) || |t.pallet.candidates| <= cfg.minCandidates {
      KickKeeps(cfg, t, snapshot[1..]);
    } else {
      RemoveKeeps(cfg, t, snapshot[0].who);
      RemoveSameTime(t.pallet, snapshot[0].who);
      KickKeeps(cfg, t.(pallet := TryRemove(t.pallet, snapshot[0].who).pallet), snapshot[1..]);
    }
  }

  lemma RemoveSameTime(s: Pallet, who: Account)
    ensures TryRemove(s, who).pallet.now == s.now
  {
  }

  lemma ObserveKeeps(cfg: Config, t: Traced, call: Call)
    requires Inv(cfg, t)
    ensures Inv(cfg, Observe(cfg, t, call))
  {
    match call
    case RegisterAs(_, _) => RegisterKeeps(cfg, t, call);
    case Author(_) => AuthorKeeps(cfg, t, call);
    case LeaveAs(who) =>
      RemoveKeeps(cfg, t, who);
      LeaveShape(cfg, t, call);
    case Session =>
      KickKeeps(cfg, t, t.pallet.candidates);
      CountOn(cfg, t.(pallet := Execute(cfg, t.pallet, call)), Observe(cfg, t, call));
    case _ => SameStorageKeeps(cfg, t, Observe(cfg, t, call));
  }

  lemma LeaveShape(cfg: Config, t: Traced, call: Call)
    requires call.LeaveAs? && Inv(cfg, t) && Inv(cfg, t.(pallet := TryRemove(t.pallet, call.who).pallet))
    ensures Inv(cfg, Observe(cfg, t, call))
  {
    hide TryRemove;
    if |t.pallet.candidates| <= cfg.minCandidates {
      SameStorageKeeps(cfg, t, Observe(cfg, t, call));
    } else {
      CountOn(cfg, t.(pallet := TryRemove(t.pallet, call.who).pallet), Observe(cfg, t, call));
    }
  }

  lemma CountOn(cfg: Config, t: Traced, t': Traced)
    requires Inv(cfg, t) && t' == t.(calls := t.calls + 1)
    ensures Inv(cfg, t')
  {
    SameStorageKeeps(cfg, t, t');
  }

  /**
   Bond ledger over all runs from genesis, whatever the bond setting does meanwhile: candidates are
   in registration order, each account's reserved balance is its recorded deposit if it is a
   candidate and zero otherwise, and the last authored block is what was observed.
   */
  lemma {:induction false} RunInvariant(cfg: Config, invulnerables: seq<Account>, bond: nat, desired: nat, free: map<Account, nat>, calls: seq<Call>)
    ensures Inv(cfg, Run(cfg, Genesis(invulnerables, bond, desired, free), calls))
    decreases |calls|
  {
    hide Observe;
    if calls != [] {
      RunInvariant(cfg, invulnerables, bond, desired, free, calls[..|calls| - 1]);
      ObserveKeeps(cfg, Run(cfg, Genesis(invulnerables, bond, desired, free), calls[..|calls| - 1]), calls[|calls| - 1]);
    }
  }

  // ---------------------------------------------------------------- money

  function Wealth(s: Pallet, a: Account): nat { Free(s.ledger, a) + Reserved(s.ledger, a) }

  lemma RemoveConserves(s: Pallet, who: Account, a: Account)
    ensures Wealth(TryRemove(s, who).pallet, a) == Wealth(s, a)
    ensures Total(TryRemove(s, who).pallet.ledger) == Total(s.ledger)
  {
    if IsCandidate(s.candidates, who) {
      UnreserveConserves(s.ledger, who, s.candidates[PositionOf(s.candidates, who)].deposit);
    }
  }

  lemma {:induction false} KickConserves(cfg: Config, s: Pallet, snapshot: seq<Candidate>, a: Account)
    ensures Wealth(KickStale(cfg, s, snapshot).pallet, a) == Wealth(s, a)
    ensures Total(KickStale(cfg, s, snapshot).pallet.ledger) == Total(s.ledger)
    decreases |snapshot|
  {
    hide TryRemove, Wealth, Stale;
    if snapshot != [] {
      if !Stale(cfg, s, snapshot[0].who) || |s.candidates| <= cfg.minCandidates {
        KickConserves(cfg, s, snapshot[1..], a);
      } else {
        RemoveConserves(s, snapshot[0].who, a);
        KickConserves(cfg, TryRemove(s, snapshot[0].who).pallet, snapshot[1..], a);
      }
    }
  }

  /** No call creates or destroys money, and only an author's reward moves any between accounts. */
  lemma MoneyConserved(cfg: Config, s: Pallet, call: Call, a: Account)
    ensures Total(Execute(cfg, s, call).ledger) == Total(s.ledger)
    ensures !call.Author? ==> Wealth(Execute(cfg, s, call), a) == Wealth(s, a)
  {
    match call
    case RegisterAs(who, liquid) => ReserveConserves(s.ledger, who, s.bond, liquid);
    case LeaveAs(who) => RemoveConserves(s, who, a);
    case Author(who) => TransferConserves(s.ledger, cfg.pot, who, Reward(cfg, s), cfg.existentialDeposit);
    case Session => KickConserves(cfg, s, s.candidates, a);
    case _ =>
  }

  /**
   The refund is exact: a candidate that leaves or is kicked gets back, as free balance, the deposit
   recorded when it registered, and keeps nothing reserved.
   */
  lemma RefundExact(cfg: Config, t: Traced, call: Call, c: Candidate)
    requires Inv(cfg, t) && (call.LeaveAs? || call.Session?)
    requires c in t.pallet.candidates && !IsCandidate(Execute(cfg, t.pallet, call).candidates, c.who)
    ensures var s' := Execute(cfg, t.pallet, call);
            Free(s'.ledger, c.who) == Free(t.pallet.ledger, c.who) + c.deposit && Reserved(s'.ledger, c.who) == 0
  {
    hide Execute;
    MoneyConserved(cfg, t.pallet, call, c.who);
    ObserveKeeps(cfg, t, call);
    var t' := Observe(cfg, t, call);
    assert OthersUnreserved(t'.pallet);
    var i :| 0 <= i < |t.pallet.candidates| && t.pallet.candidates[i] == c;
    assert Tracked(cfg, t, t.pallet.candidates[i]);
  }

  /** Leaving and kicking never take the count below the minimum. */
  lemma MinimumKept(cfg: Config, s: Pallet, call: Call)
    requires DistinctWhos(s.candidates) && |s.candidates| >= cfg.minCandidates
    ensures |Execute(cfg, s, call).candidates| >= cfg.minCandidates
  {
    match call
    case Session =>
      SessionIsGreedy(cfg, s);
      GreedyCount(cfg, s, s.candidates, Budget(cfg, |s.candidates|));
    case _ =>
  }

  // ---------------------------------------------------------------- liveness grace

  /**
   Whoever a session kicks at block n either authored since its latest registration, last at most
   at n - KickThreshold, or has not authored since, and registered at most at n - 2 KickThreshold.
   */
  lemma LivenessGrace(cfg: Config, t: Traced, who: Account)
    requires Inv(cfg, t) && IsCandidate(t.pallet.candidates, who)
    requires !IsCandidate(AssembleSession(cfg, t.pallet).0.candidates, who)
    ensures if who in t.authoredAt then t.authoredAt[who] + cfg.kickThreshold <= t.pallet.now
            else who in t.registeredAt && t.registeredAt[who] + 2 * cfg.kickThreshold <= t.pallet.now
  {
    var s := t.pallet;
    InOrderDistinct(t);
    SessionIsGreedy(cfg, s);
    var i :| 0 <= i < |s.candidates| && s.candidates[i].who == who;
    assert Tracked(cfg, t, s.candidates[i]);
    if !Stale(cfg, s, who) {
      FreshStays(cfg, s, s.candidates, Budget(cfg, |s.candidates|), i);
    }
  }

  /** The same of every run from genesis, through leaving, being kicked and registering again. */
  lemma GraceOverRuns(cfg: Config, invulnerables: seq<Account>, bond: nat, desired: nat, free: map<Account, nat>, calls: seq<Call>, who: Account)
    requires var s := Run(cfg, Genesis(invulnerables, bond, desired, free), calls).pallet;
             IsCandidate(s.candidates, who) && !IsCandidate(AssembleSession(cfg, s).0.candidates, who)
    ensures var t := Run(cfg, Genesis(invulnerables, bond, desired, free), calls);
            if who in t.authoredAt then t.authoredAt[who] + cfg.kickThreshold <= t.pallet.now
            else who in t.registeredAt && t.registeredAt[who] + 2 * cfg.kickThreshold <= t.pallet.now
  {
    hide *;
    RunInvariant(cfg, invulnerables, bond, desired, free, calls);
    LivenessGrace(cfg, Run(cfg, Genesis(invulnerables, bond, desired, free), calls), who);
  }

  lemma {:induction false} FreshStays(cfg: Config, s: Pallet, cs: seq<Candidate>, budget: nat, i: nat)
    requires i < |cs| && !Stale(cfg, s, cs[i].who)
    ensures exists j :: 0 <= j < |Greedy(cfg, s, cs, budget)| && Greedy(cfg, s, cs, budget)[j] == cs[i]
    decreases |cs|
  {
    hide Stale;
    var g := Greedy(cfg, s, cs, budget);
    var b := if budget > 0 && Stale(cfg, s, cs[0].who) then budget - 1 else budget;
    if i == 0 {
      assert g[0] == cs[0];
    } else {
      FreshStays(cfg, s, cs[1..], b, i - 1);
      var h := Greedy(cfg, s, cs[1..], b);
      var j :| 0 <= j < |h| && h[j] == cs[1..][i - 1];
      assert g[if b == budget then j + 1 else j] == cs[i];
    }
  }

  // ---------------------------------------------------------------- the pot

  function CeilDiv(e: nat, d: nat): nat
    requires d > 0
  {
    (e + d - 1) / d
  }

  /** Halving and rounding up k times is dividing by 2^k and rounding up once. */
  lemma CeilHalf(e: nat, d: nat)
    requires d > 0
    ensures CeilDiv(CeilDiv(e, 2), d) == CeilDiv(e, 2 * d)
  {
    var h := CeilDiv(e, 2);
    assert 2 * h == e || 2 * h == e + 1;
    var q := CeilDiv(h, d);
    var r := (h + d - 1) % d;
    assert h + d - 1 == d * q + r;
    assert 2 * d * q == 2 * (d * q);
    Quotient(e + 2 * d - 1, 2 * d, q, if 2 * h == e then 2 * r + 1 else 2 * r);
  }

  function RewardAll(cfg: Config, s: Pallet, authors: seq<Account>): Pallet
    decreases |authors|
  {
    if authors == [] then s else RewardAll(cfg, RewardAuthor(cfg, s, authors[0]), authors[1..])
  }

  /** What the authors were paid, in total. */
  function Paid(cfg: Config, s: Pallet, authors: seq<Account>): nat
    decreases |authors|
  {
    if authors == [] then 0 else Reward(cfg, s) + Paid(cfg, RewardAuthor(cfg, s, authors[0]), authors[1..])
  }

  /** An existing account other than the pot. */
  ghost predicate Payable(cfg: Config, s: Pallet, a: Account) {
    a != cfg.pot && Wealth(s, a) >= cfg.existentialDeposit
  }

  lemma RewardStep(cfg: Config, s: Pallet, author: Account, e: nat)
    requires Free(s.ledger, cfg.pot) == cfg.existentialDeposit + e && Payable(cfg, s, author)
    ensures var s' := RewardAuthor(cfg, s, author);
            && Free(s'.ledger, cfg.pot) == cfg.existentialDeposit + CeilDiv(e, 2)
            && Reward(cfg, s) == e / 2 && CeilDiv(e, 2) + e / 2 == e
            && Free(s'.ledger, author) == Free(s.ledger, author) + e / 2
            && forall a :: Payable(cfg, s, a) ==> Payable(cfg, s', a)
  {
  }

  /**
   Pot decay. From the existential deposit plus e, after k rewards to existing accounts other than
   the pot the excess is exactly e / 2^k rounded up; the rest of e is what they were paid.
   */
  lemma {:induction false} PotDecay(cfg: Config, s: Pallet, authors: seq<Account>, e: nat)
    requires Free(s.ledger, cfg.pot) == cfg.existentialDeposit + e
    requires forall i :: 0 <= i < |authors| ==> Payable(cfg, s, authors[i])
    ensures Free(RewardAll(cfg, s, authors).ledger, cfg.pot) == cfg.existentialDeposit + CeilDiv(e, Pow2(|authors|))
    ensures Paid(cfg, s, authors) + CeilDiv(e, Pow2(|authors|)) == e
    decreases |authors|
  {
    if authors != [] {
      hide RewardAuthor, Payable, CeilDiv, Reward;
      RewardStep(cfg, s, authors[0], e);
      PotDecay(cfg, RewardAuthor(cfg, s, authors[0]), authors[1..], CeilDiv(e, 2));
      CeilHalf(e, Pow2(|authors| - 1));
    }
  }

  /** Whoever authors, and however often, a pot at or above the existential deposit stays there. */
  lemma {:induction false} PotFloor(cfg: Config, s: Pallet, authors: seq<Account>)
    requires Free(s.ledger, cfg.pot) >= cfg.existentialDeposit
    ensures Free(RewardAll(cfg, s, authors).ledger, cfg.pot) >= cfg.existentialDeposit
    decreases |authors|
  {
    if authors != [] {
      PotFloor(cfg, RewardAuthor(cfg, s, authors[0]), authors[1..]);
    }
  }
}
