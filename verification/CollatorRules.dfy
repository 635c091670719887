/** Who becomes a candidate, who stays one and who is paid, told from the calls alone. */
module CollatorRules {
  import opened Texts
  import opened Balances
  import opened CollatorSelection
  import opened CollatorRuns

  // ---------------------------------------------------------------- registering

  predicate Registered(cfg: Config, who: Account) {
    cfg.validatorId(who).Some? && cfg.isRegistered(cfg.validatorId(who).value)
  }

  predicate Affords(s: Pallet, who: Account, liquid: bool) {
    s.bond == 0 || (liquid && Free(s.ledger, who) >= s.bond)
  }

  /** A place is free, the account is neither invulnerable nor a candidate, has a registered validator and affords the bond. */
  predicate MayRegister(cfg: Config, s: Pallet, who: Account, liquid: bool) {
    && |s.candidates| < s.desired
    && (forall i :: 0 <= i < |s.invulnerables| ==> s.invulnerables[i] != who)
    && (forall i :: 0 <= i < |s.candidates| ==> s.candidates[i].who != who)
    && Registered(cfg, who) && Affords(s, who, liquid)
  }

  /** Balances other than this account's are as before. */
  ghost predicate OthersKeep(l: Ledger, l': Ledger, who: Account) {
    forall a :: a != who ==> Free(l', a) == Free(l, a) && Reserved(l', a) == Reserved(l, a)
  }

  /** Exactly those who may register become candidates, last in the list, under the bond of the day; a refusal changes nothing. */
  lemma RegisterExactly(cfg: Config, s: Pallet, who: Account, liquid: bool)
    ensures var s' := Execute(cfg, s, RegisterAs(who, liquid));
            && (!IsCandidate(s.candidates, who) && IsCandidate(s'.candidates, who) <==> MayRegister(cfg, s, who, liquid))
            && if !MayRegister(cfg, s, who, liquid) then s' == s
               else
                 && s' == s.(candidates := s.candidates + [Candidate(who, s.bond)], ledger := s'.ledger,
                             lastAuthored := s.lastAuthored[who := s.now + cfg.kickThreshold])
                 && Free(s'.ledger, who) == Free(s.ledger, who) - s.bond
                 && Reserved(s'.ledger, who) == Reserved(s.ledger, who) + s.bond
                 && OthersKeep(s.ledger, s'.ledger, who)
  {
    if MayRegister(cfg, s, who, liquid) { assert (s.candidates + [Candidate(who, s.bond)])[|s.candidates|].who == who; }
  }

  /** Which refusal: each only where the ones before it do not apply. */
  lemma RefusalExactly(cfg: Config, s: Pallet, who: Account, liquid: bool)
    ensures var r := Register(cfg, s, who, liquid).outcome;
            && (r == Err(TooManyCandidates) <==> |s.candidates| >= s.desired)
            && (|s.candidates| < s.desired ==>
                  && (r == Err(AlreadyInvulnerable) <==> who in s.invulnerables)
                  && (who !in s.invulnerables ==>
                        && (r == Err(NoAssociatedValidatorId) <==> cfg.validatorId(who).None?)
                        && (r == Err(ValidatorNotRegistered) <==> cfg.validatorId(who).Some? && !Registered(cfg, who))
                        && (Registered(cfg, who) ==>
                              && (r == Err(AlreadyCandidate) <==> IsCandidate(s.candidates, who))
                              && (r == Err(ReserveFailed) <==> !IsCandidate(s.candidates, who) && !Affords(s, who, liquid)))))
            && (MayRegister(cfg, s, who, liquid) ==> r == Ok(|s.candidates| + 1))
  {
  }

  // ---------------------------------------------------------------- leaving

  /** The first entry of the account is taken out of the list. */
  ghost predicate TakenOut(cs: seq<Candidate>, who: Account, deposit: nat, cs': seq<Candidate>) {
    exists i :: 0 <= i < |cs| && cs[i] == Candidate(who, deposit) && cs' == cs[..i] + cs[i + 1..]
      && forall j :: 0 <= j < i ==> cs[j].who != who
  }

  /** A candidate leaves exactly if there are more than the minimum, with its deposit; a refusal changes nothing. */
  lemma LeaveExactly(cfg: Config, s: Pallet, who: Account)
    ensures var (r, s') := (Leave(cfg, s, who).outcome, Execute(cfg, s, LeaveAs(who)));
            && (r == Err(TooFewCandidates) <==> |s.candidates| <= cfg.minCandidates)
            && (r == Err(NotCandidate) <==> |s.candidates| > cfg.minCandidates && !IsCandidate(s.candidates, who))
            && (r.Err? ==> s' == s)
            && (|s.candidates| > cfg.minCandidates && IsCandidate(s.candidates, who) ==>
                  && r == Ok(|s.candidates| - 1)
                  && s' == s.(candidates := s'.candidates, ledger := s'.ledger, lastAuthored := s.lastAuthored - {who})
                  && exists deposit: nat ::
                       && TakenOut(s.candidates, who, deposit, s'.candidates)
                       && OthersKeep(s.ledger, s'.ledger, who)
                       && (Reserved(s.ledger, who) >= deposit ==>
                             && Reserved(s'.ledger, who) == Reserved(s.ledger, who) - deposit
                             && Free(s'.ledger, who) == Free(s.ledger, who) + deposit))
  {
    if |s.candidates| > cfg.minCandidates && IsCandidate(s.candidates, who) {
      var i := PositionOf(s.candidates, who);
      var deposit := s.candidates[i].deposit;
      assert s.candidates[i] == Candidate(who, deposit);
      assert TakenOut(s.candidates, who, deposit, Execute(cfg, s, LeaveAs(who)).candidates);
    }
  }

  // ---------------------------------------------------------------- settings

  function InvulnerablesAfter(s: Pallet, calls: seq<Call>): seq<Account> {
    if calls == [] then s.invulnerables
    else
      var last := calls[|calls| - 1];
      if last.SetInvulnerables? then last.new_ else InvulnerablesAfter(s, calls[..|calls| - 1])
  }

  function DesiredAfter(s: Pallet, calls: seq<Call>): nat {
    if calls == [] then s.desired
    else
      var last := calls[|calls| - 1];
      if last.SetDesired? then last.max else DesiredAfter(s, calls[..|calls| - 1])
  }

  function BondAfter(s: Pallet, calls: seq<Call>): nat {
    if calls == [] then s.bond
    else
      var last := calls[|calls| - 1];
      if last.SetBond? then last.bond else BondAfter(s, calls[..|calls| - 1])
  }

  function BlockAfter(s: Pallet, calls: seq<Call>): nat {
    if calls == [] then s.now
    else
      var last := calls[|calls| - 1];
      BlockAfter(s, calls[..|calls| - 1]) + if last.Blocks? then last.n else 0
  }

  /** A session kicks, and changes nothing else. */
  lemma {:induction false} KickOnlyKicks(cfg: Config, s: Pallet, snapshot: seq<Candidate>)
    ensures var s' := KickStale(cfg, s, snapshot).pallet;
            s' == s.(candidates := s'.candidates, ledger := s'.ledger, lastAuthored := s'.lastAuthored)
            && |s'.candidates| <= |s.candidates|
            && forall who :: IsCandidate(s'.candidates, who) ==> IsCandidate(s.candidates, who)
    decreases |snapshot|
  {
    hide Stale, TryRemove, IsCandidate;
    if snapshot != [] {
      if !Stale(cfg, s, snapshot[0].who) || |s.candidates| <= cfg.minCandidates {
        KickOnlyKicks(cfg, s, snapshot[1..]);
      } else {
        RemoveOnlyRemoves(s, snapshot[0].who);
        KickOnlyKicks(cfg, TryRemove(s, snapshot[0].who).pallet, snapshot[1..]);
      }
    }
  }

  lemma RemoveOnlyRemoves(s: Pallet, who: Account)
    ensures var s' := TryRemove(s, who).pallet;
            s' == s.(candidates := s'.candidates, ledger := s'.ledger, lastAuthored := s'.lastAuthored)
            && |s'.candidates| <= |s.candidates|
            && forall a :: IsCandidate(s'.candidates, a) ==> IsCandidate(s.candidates, a)
  {
    var s' := TryRemove(s, who).pallet;
    if IsCandidate(s.candidates, who) {
      var i := PositionOf(s.candidates, who);
      forall a | IsCandidate(s'.candidates, a) ensures IsCandidate(s.candidates, a) {
        var j :| 0 <= j < |s'.candidates| && s'.candidates[j].who == a;
        assert s.candidates[if j < i then j else j + 1].who == a;
      }
    }
  }

  /** No call but a registration adds a candidate, and no call but the setters and time changes a setting. */
  lemma CallKeeps(cfg: Config, s: Pallet, call: Call)
    ensures var s' := Execute(cfg, s, call);
            && s'.invulnerables == (if call.SetInvulnerables? then call.new_ else s.invulnerables)
            && s'.desired == (if call.SetDesired? then call.max else s.desired)
            && s'.bond == (if call.SetBond? then call.bond else s.bond)
            && s'.now == s.now + (if call.Blocks? then call.n else 0)
            && (!call.RegisterAs? ==> |s'.candidates| <= |s.candidates|)
            && (!call.RegisterAs? ==> forall a :: IsCandidate(s'.candidates, a) ==> IsCandidate(s.candidates, a))
  {
    hide IsCandidate;
    match call
    case Session => KickOnlyKicks(cfg, s, s.candidates);
    case LeaveAs(who) => RemoveOnlyRemoves(s, who);
    case _ =>
  }

  /** The settings are what was set last, and the block is as many later as passed, in any run from any state. */
  lemma {:induction false} SettingsAre(cfg: Config, s: Pallet, calls: seq<Call>)
    ensures var t := Run(cfg, s, calls).pallet;
            && t.invulnerables == InvulnerablesAfter(s, calls) && t.desired == DesiredAfter(s, calls)
            && t.bond == BondAfter(s, calls) && t.now == BlockAfter(s, calls)
    decreases |calls|
  {
    hide Execute;
    if calls != [] {
      var before := calls[..|calls| - 1];
      SettingsAre(cfg, s, before);
      CallKeeps(cfg, Run(cfg, s, before).pallet, calls[|calls| - 1]);
    }
  }

  // ---------------------------------------------------------------- how many candidates, and which

  /** The greatest desired number so far. */
  function MostDesired(s: Pallet, calls: seq<Call>): nat {
    if calls == [] then s.desired
    else
      var most, last := MostDesired(s, calls[..|calls| - 1]), calls[|calls| - 1];
      if last.SetDesired? && last.max > most then last.max else most
  }

  lemma {:induction false} DesiredBelowMost(s: Pallet, calls: seq<Call>)
    ensures DesiredAfter(s, calls) <= MostDesired(s, calls)
  {
    if calls != [] { DesiredBelowMost(s, calls[..|calls| - 1]); }
  }

  /** There are never more candidates than the greatest number ever desired. */
  lemma {:induction false} CountBounded(cfg: Config, invulnerables: seq<Account>, bond: nat, desired: nat, free: map<Account, nat>, calls: seq<Call>)
    ensures var s := Genesis(invulnerables, bond, desired, free);
            |Run(cfg, s, calls).pallet.candidates| <= MostDesired(s, calls)
    decreases |calls|
  {
    hide Execute, MayRegister;
    if calls != [] {
      var s, before, last := Genesis(invulnerables, bond, desired, free), calls[..|calls| - 1], calls[|calls| - 1];
      var t := Run(cfg, s, before).pallet;
      CountBounded(cfg, invulnerables, bond, desired, free, before);
      CallKeeps(cfg, t, last);
      SettingsAre(cfg, s, before);
      DesiredBelowMost(s, before);
      if last.RegisterAs? {
        RegisterExactly(cfg, t, last.who, last.liquid);
        if MayRegister(cfg, t, last.who, last.liquid) { NeedsPlace(cfg, t, last.who, last.liquid); }
      }
    }
  }

  lemma NeedsPlace(cfg: Config, s: Pallet, who: Account, liquid: bool)
    requires MayRegister(cfg, s, who, liquid)
    ensures |s.candidates| < s.desired && who !in s.invulnerables && !IsCandidate(s.candidates, who)
  {
  }

  ghost predicate Apart(s: Pallet) {
    Distinct(s.invulnerables) && forall a :: a in s.invulnerables ==> !IsCandidate(s.candidates, a)
  }

  /** Every list of invulnerables that is set is distinct and names nobody who is a candidate then. */
  ghost predicate Careful(cfg: Config, s: Pallet, calls: seq<Call>) {
    forall j :: 0 <= j < |calls| && calls[j].SetInvulnerables? ==>
      Distinct(calls[j].new_) && forall a :: a in calls[j].new_ ==> !IsCandidate(Run(cfg, s, calls[..j]).pallet.candidates, a)
  }

  /** Registering never makes a candidate of an invulnerable; only setting the invulnerables can. */
  lemma {:induction false} StaysApart(cfg: Config, s: Pallet, calls: seq<Call>)
    requires Apart(s) && Careful(cfg, s, calls)
    ensures Apart(Run(cfg, s, calls).pallet)
    decreases |calls|
  {
    hide Execute, MayRegister, IsCandidate;
    if calls != [] {
      var before, last := calls[..|calls| - 1], calls[|calls| - 1];
      var t := Run(cfg, s, before).pallet;
      CarefulBefore(cfg, s, calls);
      StaysApart(cfg, s, before);
      CallKeeps(cfg, t, last);
      if last.RegisterAs? { RegisterApart(cfg, t, last.who, last.liquid); }
    }
  }

  lemma CarefulBefore(cfg: Config, s: Pallet, calls: seq<Call>)
    requires Careful(cfg, s, calls) && calls != []
    ensures Careful(cfg, s, calls[..|calls| - 1])
  {
    hide Run, IsCandidate, Distinct;
    var before := calls[..|calls| - 1];
    forall j | 0 <= j < |before| && before[j].SetInvulnerables?
      ensures Distinct(before[j].new_) && forall a :: a in before[j].new_ ==> !IsCandidate(Run(cfg, s, before[..j]).pallet.candidates, a)
    {
      assert before[j] == calls[j] && before[..j] == calls[..j];
    }
  }

  lemma RegisterApart(cfg: Config, s: Pallet, who: Account, liquid: bool)
    requires Apart(s)
    ensures Apart(Execute(cfg, s, RegisterAs(who, liquid)))
  {
    hide Execute, MayRegister, IsCandidate;
    RegisterExactly(cfg, s, who, liquid);
    if MayRegister(cfg, s, who, liquid) {
      NeedsPlace(cfg, s, who, liquid);
      forall a | a in s.invulnerables ensures !IsCandidate(s.candidates + [Candidate(who, s.bond)], a) {
        CandidateOfMore(s.candidates, Candidate(who, s.bond), a);
      }
    }
  }

  /** So with such settings, or none after genesis, the collators of every session are distinct. */
  lemma SessionsDistinct(cfg: Config, invulnerables: seq<Account>, bond: nat, desired: nat, free: map<Account, nat>, calls: seq<Call>)
    requires Distinct(invulnerables) && Careful(cfg, Genesis(invulnerables, bond, desired, free), calls)
    ensures var s := Run(cfg, Genesis(invulnerables, bond, desired, free), calls).pallet;
            && (forall a :: a in s.invulnerables ==> !IsCandidate(s.candidates, a))
            && Distinct(AssembleSession(cfg, s).1)
  {
    hide Run, Careful, AssembleSession;
    var s := Genesis(invulnerables, bond, desired, free);
    StaysApart(cfg, s, calls);
    RunInvariant(cfg, invulnerables, bond, desired, free, calls);
    InOrderDistinct(Run(cfg, s, calls));
    CollatorsDistinct(cfg, Run(cfg, s, calls).pallet);
  }

  // ---------------------------------------------------------------- when an account was seen

  /** In which call and at which block it last became a candidate, and when it authored since. */
  datatype Seen = Seen(entered: Option<(nat, nat)>, authored: Option<nat>)

  function SeenAfter(cfg: Config, s: Pallet, calls: seq<Call>, who: Account): Seen {
    if calls == [] then Seen(None, None)
    else
      var before, last := calls[..|calls| - 1], calls[|calls| - 1];
      var seen := SeenAfter(cfg, s, before, who);
      if !IsCandidate(Run(cfg, s, before).pallet.candidates, who) && IsCandidate(Run(cfg, s, calls).pallet.candidates, who) then
        Seen(Some((|before|, BlockAfter(s, before))), None)
      else if last == Author(who) then seen.(authored := Some(BlockAfter(s, before)))
      else seen
  }

  /** What the trace remembers of an account is when it was seen. */
  ghost predicate Remembers(t: Traced, seen: Seen, who: Account) {
    && (who in t.turn <==> seen.entered.Some?) && (who in t.registeredAt <==> seen.entered.Some?)
    && (seen.entered.Some? ==> t.turn[who] == seen.entered.value.0 && t.registeredAt[who] == seen.entered.value.1)
    && (who in t.authoredAt <==> seen.authored.Some?)
    && (seen.authored.Some? ==> t.authoredAt[who] == seen.authored.value)
  }

  lemma {:induction false} TraceRemembers(cfg: Config, s: Pallet, calls: seq<Call>, who: Account)
    ensures Remembers(Run(cfg, s, calls), SeenAfter(cfg, s, calls, who), who) && Run(cfg, s, calls).calls == |calls|
    decreases |calls|
  {
    hide Execute, IsCandidate, MayRegister, BlockAfter;
    if calls != [] {
      var before, last := calls[..|calls| - 1], calls[|calls| - 1];
      TraceRemembers(cfg, s, before, who);
      SettingsAre(cfg, s, before);
      ObserveRemembers(cfg, Run(cfg, s, before), last, who);
    }
  }

  /** A call is observed as a registration of an account exactly if it makes it a candidate. */
  lemma ObserveRemembers(cfg: Config, t: Traced, call: Call, who: Account)
    ensures var t' := Observe(cfg, t, call);
            if !IsCandidate(t.pallet.candidates, who) && IsCandidate(t'.pallet.candidates, who) then
              && who in t'.turn && t'.turn[who] == t.calls && who in t'.registeredAt && t'.registeredAt[who] == t.pallet.now
              && who !in t'.authoredAt
            else
              && (who in t'.turn <==> who in t.turn) && (who in t.turn ==> t'.turn[who] == t.turn[who])
              && (who in t'.registeredAt <==> who in t.registeredAt) && (who in t.registeredAt ==> t'.registeredAt[who] == t.registeredAt[who])
              && (who in t'.authoredAt <==> who in t.authoredAt || call == Author(who))
              && (who in t'.authoredAt ==> t'.authoredAt[who] == if call == Author(who) then t.pallet.now else t.authoredAt[who])
  {
    CallKeeps(cfg, t.pallet, call);
    if call.RegisterAs? {
      RegisterExactly(cfg, t.pallet, call.who, call.liquid);
      RefusalExactly(cfg, t.pallet, call.who, call.liquid);
      RegisterEnters(cfg, t.pallet, call.who, call.liquid, who);
    }
    hide Execute, MayRegister, IsCandidate, Affords, Registered;
  }

  lemma RegisterEnters(cfg: Config, s: Pallet, who: Account, liquid: bool, a: Account)
    ensures var r := Register(cfg, s, who, liquid);
            !IsCandidate(s.candidates, a) && IsCandidate(r.pallet.candidates, a) <==> r.outcome.Ok? && a == who
  {
    var r := Register(cfg, s, who, liquid);
    if r.outcome.Ok? { CandidateOfMore(s.candidates, Candidate(who, s.bond), a); }
  }

  /** Candidates stand in the order in which they became candidates. */
  lemma InOrderOfEntry(cfg: Config, invulnerables: seq<Account>, bond: nat, desired: nat, free: map<Account, nat>, calls: seq<Call>, i: nat, j: nat)
    requires i < j < |Run(cfg, Genesis(invulnerables, bond, desired, free), calls).pallet.candidates|
    ensures var s := Genesis(invulnerables, bond, desired, free);
            var cs := Run(cfg, s, calls).pallet.candidates;
            var (a, b) := (SeenAfter(cfg, s, calls, cs[i].who).entered, SeenAfter(cfg, s, calls, cs[j].who).entered);
            a.Some? && b.Some? && a.value.0 < b.value.0
  {
    hide Run, SeenAfter;
    var s := Genesis(invulnerables, bond, desired, free);
    var t := Run(cfg, s, calls);
    RunInvariant(cfg, invulnerables, bond, desired, free, calls);
    TraceRemembers(cfg, s, calls, t.pallet.candidates[i].who);
    TraceRemembers(cfg, s, calls, t.pallet.candidates[j].who);
  }

  // ---------------------------------------------------------------- who is kicked

  /** Not seen for long enough: one threshold since it authored, or two since it became a candidate and has not authored. */
  predicate Idle(cfg: Config, seen: Seen, now: nat) {
    match seen.authored
    case Some(at) => at + cfg.kickThreshold <= now
    case None => seen.entered.Some? && seen.entered.value.1 + 2 * cfg.kickThreshold <= now
  }

  function IdleCount(cfg: Config, s: Pallet, calls: seq<Call>, cs: seq<Candidate>): nat {
    if cs == [] then 0
    else (if Idle(cfg, SeenAfter(cfg, s, calls, cs[0].who), BlockAfter(s, calls)) then 1 else 0) + IdleCount(cfg, s, calls, cs[1..])
  }

  lemma StaleIsIdle(cfg: Config, t: Traced, seen: Seen, c: Candidate)
    requires Tracked(cfg, t, c) && Remembers(t, seen, c.who)
    ensures Stale(cfg, t.pallet, c.who) <==> Idle(cfg, seen, t.pallet.now)
  {
  }

  lemma {:induction false} StaleCountIsIdleCount(cfg: Config, s: Pallet, calls: seq<Call>, cs: seq<Candidate>)
    requires forall i :: 0 <= i < |cs| ==> Tracked(cfg, Run(cfg, s, calls), cs[i])
    ensures StaleCount(cfg, Run(cfg, s, calls).pallet, cs) == IdleCount(cfg, s, calls, cs)
    decreases |cs|
  {
    hide Run, SeenAfter, Stale, Idle, Tracked, BlockAfter;
    if cs != [] {
      TraceRemembers(cfg, s, calls, cs[0].who);
      SettingsAre(cfg, s, calls);
      StaleIsIdle(cfg, Run(cfg, s, calls), SeenAfter(cfg, s, calls, cs[0].who), cs[0]);
      StaleCountIsIdleCount(cfg, s, calls, cs[1..]);
    }
  }

  /**
   Who is kicked, in every run from genesis: a session takes the i-th candidate out exactly if it is
   idle, and taking out the idle ones before it has left more than the minimum.
   */
  lemma KickedExactly(cfg: Config, invulnerables: seq<Account>, bond: nat, desired: nat, free: map<Account, nat>, calls: seq<Call>, i: nat)
    requires i < |Run(cfg, Genesis(invulnerables, bond, desired, free), calls).pallet.candidates|
    ensures var s := Genesis(invulnerables, bond, desired, free);
            var t := Run(cfg, s, calls).pallet;
            var cs := t.candidates;
            !IsCandidate(Execute(cfg, t, Session).candidates, cs[i].who)
            <==> Idle(cfg, SeenAfter(cfg, s, calls, cs[i].who), BlockAfter(s, calls))
                 && |cs| - IdleCount(cfg, s, calls, cs[..i]) > cfg.minCandidates
  {
    var s := Genesis(invulnerables, bond, desired, free);
    var t := Run(cfg, s, calls);
    var cs := t.pallet.candidates;
    hide Run, SeenAfter, BlockAfter, Stale, Idle, Tracked, Greedy, StaleCount, IdleCount, Remembers, IsCandidate, AssembleSession, KickStale;
    RunInvariant(cfg, invulnerables, bond, desired, free, calls);
    InOrderDistinct(t);
    SessionIsGreedy(cfg, t.pallet);
    var budget := Budget(cfg, |cs|);
    StaysExactly(cfg, t.pallet, cs, budget, cs[i].who);
    SettingsAre(cfg, s, calls);
    TraceRemembers(cfg, s, calls, cs[i].who);
    StaleIsIdle(cfg, t, SeenAfter(cfg, s, calls, cs[i].who), cs[i]);
    StaleCountIsIdleCount(cfg, s, calls, cs[..i]);
    assert forall j: nat :: j < |cs| && cs[j].who == cs[i].who ==> j == i;
    assert IsCandidate(Greedy(cfg, t.pallet, cs, budget), cs[i].who) <==> !Goes(cfg, t.pallet, cs, i, budget);
  }

  // ---------------------------------------------------------------- who is paid

  /** An author is paid half of what the pot has above its deposit, if that leaves the author at its own; nobody else is touched. */
  lemma RewardExactly(cfg: Config, s: Pallet, author: Account)
    ensures var s' := Execute(cfg, s, Author(author));
            var half := if Free(s.ledger, cfg.pot) <= cfg.existentialDeposit then 0 else (Free(s.ledger, cfg.pot) - cfg.existentialDeposit) / 2;
            var paid := if author != cfg.pot && Wealth(s, author) + half >= cfg.existentialDeposit then half else 0;
            && s' == s.(ledger := s'.ledger, lastAuthored := s.lastAuthored[author := s.now])
            && forall a ::
                 && Reserved(s'.ledger, a) == Reserved(s.ledger, a)
                 && Free(s'.ledger, a) + (if a == cfg.pot then paid else 0) == Free(s.ledger, a) + (if a == author then paid else 0)
  {
  }

  /** The payment can fail: with a deposit of 10 and 14 in the pot, an author that has nothing gets nothing. */
  lemma RewardLost(cfg: Config, author: Account)
    requires cfg.existentialDeposit == 10 && author != cfg.pot
    ensures var s := Genesis([], 0, 0, map[cfg.pot := 14]);
            var s' := Execute(cfg, s, Author(author));
            Reward(cfg, s) == 2 && Free(s'.ledger, author) == 0 && Free(s'.ledger, cfg.pot) == 14
  {
    var s := Genesis([], 0, 0, map[cfg.pot := 14]);
    RewardExactly(cfg, s, author);
  }
}
