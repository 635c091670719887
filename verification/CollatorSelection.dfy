/** The collator-selection pallet: candidates with bonds, last authored blocks, sessions and the reward pot. */
module CollatorSelection {
  import opened Texts
  import opened Balances

  datatype Candidate = Candidate(who: Account, deposit: nat)

  /** The pallet's constants; `validatorId` and `isRegistered` are the session pallet's answers. */
  datatype Config = Config(
    minCandidates: nat,
    kickThreshold: nat,
    existentialDeposit: nat,
    pot: Account,
    validatorId: Account -> Option<nat>,
    isRegistered: nat -> bool)

  datatype Error =
    | TooManyCandidates | TooFewCandidates | AlreadyCandidate | NotCandidate
    | AlreadyInvulnerable | NoAssociatedValidatorId | ValidatorNotRegistered | ReserveFailed

  datatype Outcome = Ok(count: nat) | Err(error: Error)

  datatype Pallet = Pallet(
    now: nat,
    candidates: seq<Candidate>,
    lastAuthored: map<Account, nat>,
    invulnerables: seq<Account>,
    desired: nat,
    bond: nat,
    ledger: Ledger)

  datatype Reply = Reply(outcome: Outcome, pallet: Pallet)

  predicate IsCandidate(cs: seq<Candidate>, who: Account) {
    exists i :: 0 <= i < |cs| && cs[i].who == who
  }

  /** `LastAuthoredBlock` is a ValueQuery: a missing entry reads as zero. */
  function LastAuthored(s: Pallet, who: Account): nat { Amount(s.lastAuthored, who) }

  function Whos(cs: seq<Candidate>): (r: seq<Account>)
    ensures |r| == |cs| && forall i :: 0 <= i < |cs| ==> r[i] == cs[i].who
  {
    seq(|cs|, i requires 0 <= i < |cs| => cs[i].who)
  }

  // ---------------------------------------------------------------- calls

  function Register(cfg: Config, s: Pallet, who: Account, liquid: bool): Reply {
    if |s.candidates| >= s.desired then Reply(Err(TooManyCandidates), s)
    else if who in s.invulnerables then Reply(Err(AlreadyInvulnerable), s)
    else if cfg.validatorId(who).None? then Reply(Err(NoAssociatedValidatorId), s)
    else if !cfg.isRegistered(cfg.validatorId(who).value) then Reply(Err(ValidatorNotRegistered), s)
    else if IsCandidate(s.candidates, who) then Reply(Err(AlreadyCandidate), s)
    else
      match Reserve(s.ledger, who, s.bond, liquid)
      case None => Reply(Err(ReserveFailed), s)
      case Some(l) =>
        Reply(Ok(|s.candidates| + 1),
              s.(ledger := l,
                 candidates := s.candidates + [Candidate(who, s.bond)],
                 lastAuthored := s.lastAuthored[who := s.now + cfg.kickThreshold]))
  }

  function PositionOf(cs: seq<Candidate>, who: Account): (i: nat)
    requires IsCandidate(cs, who)
    ensures i < |cs| && cs[i].who == who && forall j :: 0 <= j < i ==> cs[j].who != who
  {
    if cs[0].who == who then 0
    else
      assert IsCandidate(cs[1..], who) by {
        var i :| 0 <= i < |cs| && cs[i].who == who;
        assert cs[1..][i - 1].who == who;
      }
      1 + PositionOf(cs[1..], who)
  }

  function TryRemove(s: Pallet, who: Account): Reply {
    if !IsCandidate(s.candidates, who) then Reply(Err(NotCandidate), s)
    else
      var i := PositionOf(s.candidates, who);
      Reply(Ok(|s.candidates| - 1),
            s.(ledger := Unreserve(s.ledger, who, s.candidates[i].deposit),
               candidates := s.candidates[..i] + s.candidates[i + 1..],
               lastAuthored := s.lastAuthored - {who}))
  }

  function Leave(cfg: Config, s: Pallet, who: Account): Reply {
    if |s.candidates| <= cfg.minCandidates then Reply(Err(TooFewCandidates), s) else TryRemove(s, who)
  }

  /** The candidate produced no block for at least the kick threshold (subtraction saturates at zero). */
  predicate Stale(cfg: Config, s: Pallet, who: Account) {
    (if s.now >= LastAuthored(s, who) then s.now - LastAuthored(s, who) else 0) >= cfg.kickThreshold
  }

  datatype Kicked = Kicked(pallet: Pallet, kept: seq<Account>, failures: nat)

  /** The walk over a snapshot of the candidates that removes from storage as it goes. */
  function KickStale(cfg: Config, s: Pallet, snapshot: seq<Candidate>): Kicked
    decreases |snapshot|
  {
    if snapshot == [] then Kicked(s, [], 0)
    else
      var who := snapshot[0].who;
      if !Stale(cfg, s, who) || |s.candidates| <= cfg.minCandidates then
        var k := KickStale(cfg, s, snapshot[1..]);
        Kicked(k.pallet, [who] + k.kept, k.failures)
      else
        var r := TryRemove(s, who);
        var k := KickStale(cfg, r.pallet, snapshot[1..]);
        Kicked(k.pallet, k.kept, k.failures + if r.outcome.Err? then 1 else 0)
  }

  /** `new_session`: the state after it and the collators it returns. */
  function AssembleSession(cfg: Config, s: Pallet): (Pallet, seq<Account>) {
    var k := KickStale(cfg, s, s.candidates);
    (k.pallet, k.pallet.invulnerables + k.kept)
  }

  function Reward(cfg: Config, s: Pallet): nat {
    if Free(s.ledger, cfg.pot) >= cfg.existentialDeposit then (Free(s.ledger, cfg.pot) - cfg.existentialDeposit) / 2 else 0
  }

  function RewardAuthor(cfg: Config, s: Pallet, author: Account): Pallet {
    var paid := Transfer(s.ledger, cfg.pot, author, Reward(cfg, s), cfg.existentialDeposit);
    s.(ledger := if paid.Some? then paid.value else s.ledger, lastAuthored := s.lastAuthored[author := s.now])
  }

  // ---------------------------------------------------------------- genesis

  ghost predicate Distinct<T>(s: seq<T>) {
    forall i, j :: 0 <= i < j < |s| ==> s[i] != s[j]
  }

  /** The storage at genesis over given balances that no pallet has reserved. */
  function Genesis(invulnerables: seq<Account>, bond: nat, desired: nat, free: map<Account, nat>): Pallet {
    Pallet(0, [], map[], invulnerables, desired, bond, Ledger(free, map[]))
  }

  // ---------------------------------------------------------------- the pallet as it updates its storage

  class Storage {
    const cfg: Config
    var now: nat
    var candidates: seq<Candidate>
    var lastAuthored: map<Account, nat>
    var invulnerables: seq<Account>
    var desired: nat
    var bond: nat
    var ledger: Ledger

    ghost function Now(): Pallet
      reads this
    {
      Pallet(now, candidates, lastAuthored, invulnerables, desired, bond, ledger)
    }

    /** Genesis: refuses duplicate invulnerables and figures above the configured maxima. */
    constructor (cfg: Config, maxInvulnerables: nat, maxCandidates: nat, invulnerables: seq<Account>, bond: nat, desired: nat, free: map<Account, nat>)
      requires Distinct(invulnerables) && |invulnerables| <= maxInvulnerables && desired <= maxCandidates
      ensures this.cfg == cfg && now == 0 && candidates == [] && lastAuthored == map[]
      ensures this.invulnerables == invulnerables && this.desired == desired && this.bond == bond && ledger == Ledger(free, map[])
      ensures Now() == Genesis(invulnerables, bond, desired, free)
    {
      this.cfg := cfg;
      now, candidates, lastAuthored := 0, [], map[];
      this.invulnerables, this.desired, this.bond, ledger := invulnerables, desired, bond, Ledger(free, map[]);
    }

    method SetInvulnerables(new_: seq<Account>)
      modifies this`invulnerables
      ensures Now() == old(Now()).(invulnerables := new_)
    {
      invulnerables := new_;
    }

    method SetDesiredCandidates(max: nat)
      modifies this`desired
      ensures Now() == old(Now()).(desired := max)
    {
      desired := max;
    }

    method SetCandidacyBond(b: nat)
      modifies this`bond
      ensures Now() == old(Now()).(bond := b)
    {
      bond := b;
    }

    method RegisterAsCandidate(who: Account, liquid: bool) returns (r: Outcome)
      modifies this
      ensures Reply(r, Now()) == Register(cfg, old(Now()), who, liquid)
    {
      if |candidates| >= desired { return Err(TooManyCandidates); }
      if who in invulnerables { return Err(AlreadyInvulnerable); }
      var key := cfg.validatorId(who);
      if key.None? { return Err(NoAssociatedValidatorId); }
      if !cfg.isRegistered(key.value) { return Err(ValidatorNotRegistered); }
      var deposit := bond;
      if IsCandidate(candidates, who) { return Err(AlreadyCandidate); }
      var l := Reserve(ledger, who, deposit, liquid);
      if l.None? { return Err(ReserveFailed); }
      ledger := l.value;
      candidates := candidates + [Candidate(who, deposit)];
      lastAuthored := lastAuthored[who := now + cfg.kickThreshold];
      r := Ok(|candidates|);
    }

    method LeaveIntent(who: Account) returns (r: Outcome)
      modifies this
      ensures Reply(r, Now()) == Leave(cfg, old(Now()), who)
    {
      if |candidates| <= cfg.minCandidates { return Err(TooFewCandidates); }
      r := TryRemoveCandidate(who);
    }

    method TryRemoveCandidate(who: Account) returns (r: Outcome)
      modifies this
      ensures Reply(r, Now()) == TryRemove(old(Now()), who)
    {
      var index := 0;
      while index < |candidates| && candidates[index].who != who
        invariant index <= |candidates|
        invariant forall j :: 0 <= j < index ==> candidates[j].who != who
      {
        index := index + 1;
      }
      if index == |candidates| { return Err(NotCandidate); }
      assert index == PositionOf(candidates, who);
      ledger := Unreserve(ledger, who, candidates[index].deposit);
      candidates := candidates[..index] + candidates[index + 1..];
      lastAuthored := lastAuthored - {who};
      r := Ok(|candidates|);
    }

    /** `kick_stale_candidates`: storage changes while the snapshot is walked. */
    method KickStaleCandidates(snapshot: seq<Candidate>) returns (kept: seq<Account>, failures: nat)
      modifies this
      ensures Kicked(Now(), kept, failures) == KickStale(cfg, old(Now()), snapshot)
    {
      kept, failures := [], 0;
      ghost var start := Now();
      assert snapshot[0..] == snapshot;
      for i := 0 to |snapshot|
        invariant var k := KickStale(cfg, Now(), snapshot[i..]);
                  KickStale(cfg, start, snapshot) == Kicked(k.pallet, kept + k.kept, failures + k.failures)
      {
        hide TryRemove, Stale;
        var who := snapshot[i].who;
        assert snapshot[i..][0] == snapshot[i] && snapshot[i..][1..] == snapshot[i + 1..];
        ghost var rest := snapshot[i + 1..];
        var lastBlock := if who in lastAuthored then lastAuthored[who] else 0;
        var sinceLast := if now >= lastBlock then now - lastBlock else 0;
        StaleMeans(cfg, Now(), who);
        if sinceLast < cfg.kickThreshold || |candidates| <= cfg.minCandidates {
          ghost var k := KickStale(cfg, Now(), rest);
          assert kept + ([who] + k.kept) == kept + [who] + k.kept;
          kept := kept + [who];
        } else {
          var outcome := TryRemoveCandidate(who);
          if outcome.Err? { failures := failures + 1; }
        }
      }
      assert snapshot[|snapshot|..] == [];
      assert kept + [] == kept;
    }

    method NewSession() returns (collators: seq<Account>)
      modifies this
      ensures (Now(), collators) == AssembleSession(cfg, old(Now()))
    {
      var active, _ := KickStaleCandidates(candidates);
      collators := invulnerables + active;
    }

    method NoteAuthor(author: Account)
      modifies this
      ensures Now() == RewardAuthor(cfg, old(Now()), author)
    {
      var pot := cfg.pot;
      var reward := if Free(ledger, pot) >= cfg.existentialDeposit then (Free(ledger, pot) - cfg.existentialDeposit) / 2 else 0;
      var success := Transfer(ledger, pot, author, reward, cfg.existentialDeposit);
      if success.Some? { ledger := success.value; }
      lastAuthored := lastAuthored[author := now];
    }
  }

  lemma StaleMeans(cfg: Config, s: Pallet, who: Account)
    ensures var last := if who in s.lastAuthored then s.lastAuthored[who] else 0;
            Stale(cfg, s, who) <==> (if s.now >= last then s.now - last else 0) >= cfg.kickThreshold
  {
  }
}
