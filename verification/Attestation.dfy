/**
 The attestation protocol as a whole: the chain, the workers, and a message pool that anyone may add
 to, and that delivers messages late, repeatedly and in any order.
 */
module Attestation {
  import opened Texts
  import opened VerifierPallet

  datatype Asked = Asked(block: nat, who: Account, evidence: Bytes)

  /** A call that was carried out, at which block, and the keys then registered. */
  datatype Accepted = Accepted(call: Submission, at: nat, keys: seq<Key>)

  /** The chain, the pool, and a record of requests, worker signatures and accepted calls. */
  datatype World = World(
    storage: Storage,
    pool: set<Submission>,
    requests: seq<Asked>,
    signed: seq<Signing>,
    accepted: seq<Accepted>)

  datatype Step =
    | Ask(who: Account, evidence: Bytes)
    | Register(key: Key)
    | Work(n: nat, order: seq<Account>, around: Surroundings)
    | Inject(call: Submission)
    | Include(call: Submission)
    | NextBlock

  function Init(): World {
    World(Storage(0, map[], map[], []), {}, [], [], [])
  }

  ghost predicate SignedPayload(w: World, p: Payload) {
    exists i :: 0 <= i < |w.signed| && w.signed[i].record.payload == p
  }

  /**
   A worker runs for a block no later than the present one, as often as it likes. Only honest keys
   are registered, and nobody can make a signature of an honest key on a payload the worker has not signed.
   */
  ghost predicate Legal(cfg: Config, w: World, step: Step) {
    match step
    case Ask(_, _) => true
    case Register(key) => cfg.honest(key)
    case Work(n, order, around) =>
      n <= w.storage.now && Enumerates(w.storage, n, order) && |around.answers| == |around.signatures| == |order|
    case Inject(call) =>
      cfg.verify(call.record) && cfg.honest(call.record.payload.public) ==> SignedPayload(w, call.record.payload)
    case Include(call) => call in w.pool && ValidateUnsigned(cfg, w.storage, call).None?
    case NextBlock => true
  }

  ghost function Made(w: World, n: nat, order: seq<Account>, around: Surroundings): seq<Signing>
    requires Enumerates(w.storage, n, order) && |around.answers| == |around.signatures| == |order|
  {
    WorkerRun(Values(w.storage, n, order), n, around, w.storage.now, 0)
  }

  ghost function Apply(cfg: Config, w: World, step: Step): World
    requires Legal(cfg, w, step)
  {
    match step
    case Ask(who, evidence) =>
      w.(storage := RequestVerification(cfg, w.storage, who, evidence),
         requests := w.requests + [Asked(w.storage.now, who, evidence)])
    case Register(key) => w.(storage := RegisterNewPubkey(w.storage, key))
    case Work(n, order, around) =>
      var made := Made(w, n, order, around);
      w.(signed := w.signed + made, pool := w.pool + set c | c in Calls(made))
    case Inject(call) => w.(pool := w.pool + {call})
    case Include(call) =>
      var r := SubmitResult(cfg, w.storage, call.record);
      w.(storage := r.storage,
         accepted := if r.error.None? then w.accepted + [Accepted(call, w.storage.now, w.storage.keys)] else w.accepted)
    case NextBlock => w.(storage := w.storage.(now := w.storage.now + 1))
  }

  ghost predicate AllLegal(cfg: Config, w: World, steps: seq<Step>)
    decreases |steps|
  {
    steps == [] || (Legal(cfg, w, steps[0]) && AllLegal(cfg, Apply(cfg, w, steps[0]), steps[1..]))
  }

  ghost function Run(cfg: Config, w: World, steps: seq<Step>): World
    requires AllLegal(cfg, w, steps)
    decreases |steps|
  {
    if steps == [] then w else Run(cfg, Apply(cfg, w, steps[0]), steps[1..])
  }

  // ---------------------------------------------------------------- the queue

  function QueueAt(s: Storage, n: nat, a: Account): Option<(Account, Bytes)> {
    if (n, a) in s.queue then Some(s.queue[(n, a)]) else None
  }

  /** The last evidence an account asked about in a block. */
  function LastAsked(requests: seq<Asked>, block: nat, who: Account): Option<Bytes> {
    if requests == [] then None
    else
      var last := requests[|requests| - 1];
      if last.block == block && last.who == who then Some(last.evidence) else LastAsked(requests[..|requests| - 1], block, who)
  }

  /** What should be queued: the last evidence of that account VerifyDelay blocks earlier, under its own name. */
  function Due(cfg: Config, requests: seq<Asked>, n: nat, a: Account): Option<(Account, Bytes)> {
    if n < cfg.verifyDelay then None
    else
      match LastAsked(requests, n - cfg.verifyDelay, a)
      case None => None
      case Some(evidence) => Some((a, evidence))
  }

  ghost predicate QueueExact(cfg: Config, w: World) {
    forall n: nat, a: Account :: QueueAt(w.storage, n, a) == Due(cfg, w.requests, n, a)
  }

  // ---------------------------------------------------------------- what every step keeps

  /** A worker's signature is on what the resolver said of evidence that was asked about VerifyDelay blocks before. */
  ghost predicate SigningGood(cfg: Config, w: World, g: Signing) {
    && cfg.verifyDelay <= g.block <= g.at <= w.storage.now
    && g.answer.Resolved?
    && g.record.payload.code == g.answer.code
    && g.record.payload.who == g.answer.who
    && g.record.payload.pubkey == g.answer.pubkey
    && Asked(g.block - cfg.verifyDelay, g.applier, g.evidence) in w.requests
  }

  ghost predicate MadeFor(w: World, p: Payload, at: nat) {
    exists i :: 0 <= i < |w.signed| && w.signed[i].record.payload == p && w.signed[i].at <= at
  }

  ghost predicate AcceptedGood(cfg: Config, w: World, a: Accepted) {
    && cfg.verify(a.call.record)
    && a.call.record.payload.public in a.keys
    && a.keys <= w.storage.keys
    && a.call.block <= a.at <= a.call.block + cfg.evidenceLifetime
    && a.at <= w.storage.now
    && MadeFor(w, a.call.record.payload, a.at)
  }

  ghost predicate PoolGood(cfg: Config, w: World, c: Submission) {
    cfg.verify(c.record) && cfg.honest(c.record.payload.public) ==> SignedPayload(w, c.record.payload)
  }

  /** The accepted records for one account and public key, oldest first. */
  function Picked(accepted: seq<Accepted>, who: Account, pubkey: Bytes): seq<Record> {
    if accepted == [] then []
    else
      var last := accepted[|accepted| - 1].call.record;
      Picked(accepted[..|accepted| - 1], who, pubkey) + if last.payload.who == who && last.payload.pubkey == pubkey then [last] else []
  }

  ghost predicate ResultsExact(w: World) {
    forall who: Account, pubkey: Bytes :: ResultsOf(w.storage, who, pubkey) == Picked(w.accepted, who, pubkey)
  }

  ghost predicate AllSigningsGood(cfg: Config, w: World) { GoodSignings(cfg, w, w.signed) }

  ghost predicate AllAcceptedGood(cfg: Config, w: World) {
    forall i :: 0 <= i < |w.accepted| ==> AcceptedGood(cfg, w, w.accepted[i])
  }

  ghost predicate HonestKeys(cfg: Config, w: World) {
    forall k :: k in w.storage.keys ==> cfg.honest(k)
  }

  ghost predicate Inv(cfg: Config, w: World) {
    && QueueExact(cfg, w)
    && (forall i :: 0 <= i < |w.requests| ==> w.requests[i].block <= w.storage.now)
    && AllSigningsGood(cfg, w)
    && (forall c :: c in w.pool ==> PoolGood(cfg, w, c))
    && HonestKeys(cfg, w)
    && AllAcceptedGood(cfg, w)
    && ResultsExact(w)
  }

  lemma InitInv(cfg: Config)
    ensures Inv(cfg, Init())
  {
  }

  lemma LastAskedOne(requests: seq<Asked>, r: Asked, block: nat, who: Account)
    ensures LastAsked(requests + [r], block, who)
            == if r.block == block && r.who == who then Some(r.evidence) else LastAsked(requests, block, who)
  {
    assert (requests + [r])[..|requests|] == requests;
  }

  lemma QueueKept(cfg: Config, w: World, step: Step)
    requires QueueExact(cfg, w) && Legal(cfg, w, step)
    ensures QueueExact(cfg, Apply(cfg, w, step))
  {
    var w' := Apply(cfg, w, step);
    if step.Ask? {
      forall n: nat, a: Account ensures QueueAt(w'.storage, n, a) == Due(cfg, w'.requests, n, a) {
        assert QueueAt(w.storage, n, a) == Due(cfg, w.requests, n, a);
        if n >= cfg.verifyDelay {
          LastAskedOne(w.requests, Asked(w.storage.now, step.who, step.evidence), n - cfg.verifyDelay, a);
        }
      }
    } else {
      assert w'.requests == w.requests && w'.storage.queue == w.storage.queue;
      forall n: nat, a: Account ensures QueueAt(w'.storage, n, a) == Due(cfg, w'.requests, n, a) {
        assert QueueAt(w.storage, n, a) == Due(cfg, w.requests, n, a);
      }
    }
  }

  lemma {:induction false} WasAsked(requests: seq<Asked>, block: nat, who: Account)
    requires LastAsked(requests, block, who).Some?
    ensures Asked(block, who, LastAsked(requests, block, who).value) in requests
  {
    var last := requests[|requests| - 1];
    if !(last.block == block && last.who == who) {
      WasAsked(requests[..|requests| - 1], block, who);
    }
  }

  ghost predicate GoodSignings(cfg: Config, w: World, made: seq<Signing>) {
    forall k :: 0 <= k < |made| ==> SigningGood(cfg, w, made[k])
  }

  lemma OneGood(cfg: Config, w: World, n: nat, order: seq<Account>, around: Surroundings, i: nat)
    requires Inv(cfg, w) && Legal(cfg, w, Work(n, order, around)) && i < |order|
    ensures GoodSignings(cfg, w, SignOne(Values(w.storage, n, order)[i], n, around.answers[i], around.key, around.signatures[i], w.storage.now))
  {
    hide LastAsked, AllSigningsGood, AllAcceptedGood, HonestKeys, ResultsExact, PoolGood;
    assert QueueAt(w.storage, n, order[i]) == Due(cfg, w.requests, n, order[i]);
    WasAsked(w.requests, n - cfg.verifyDelay, order[i]);
  }

  lemma BothGood(cfg: Config, w: World, a: seq<Signing>, b: seq<Signing>)
    requires GoodSignings(cfg, w, a) && GoodSignings(cfg, w, b)
    ensures GoodSignings(cfg, w, a + b)
  {
  }

  /** Every signature of a worker run is good. */
  lemma {:induction false} RunGood(cfg: Config, w: World, n: nat, order: seq<Account>, around: Surroundings, i: nat)
    requires Inv(cfg, w) && Legal(cfg, w, Work(n, order, around))
    ensures GoodSignings(cfg, w, WorkerRun(Values(w.storage, n, order), n, around, w.storage.now, i))
    decreases |order| - i
  {
    hide Inv, Enumerates, SigningGood, SignOne;
    if i < |order| {
      OneGood(cfg, w, n, order, around, i);
      RunGood(cfg, w, n, order, around, i + 1);
      var entries := Values(w.storage, n, order);
      BothGood(cfg, w, SignOne(entries[i], n, around.answers[i], around.key, around.signatures[i], w.storage.now),
               WorkerRun(entries, n, around, w.storage.now, i + 1));
    }
  }

  /** What was good stays good as the world goes on. */
  ghost predicate Grows(w: World, w': World) {
    && w.storage.now <= w'.storage.now && w.storage.keys <= w'.storage.keys
    && w.requests <= w'.requests && w.signed <= w'.signed && w.accepted <= w'.accepted
  }

  lemma StepGrows(cfg: Config, w: World, step: Step)
    requires Legal(cfg, w, step)
    ensures Grows(w, Apply(cfg, w, step))
  {
  }

  lemma SignedStays(w: World, w': World, p: Payload, at: nat)
    requires Grows(w, w')
    ensures SignedPayload(w, p) ==> SignedPayload(w', p)
    ensures MadeFor(w, p, at) ==> MadeFor(w', p, at)
  {
    if SignedPayload(w, p) {
      var i :| 0 <= i < |w.signed| && w.signed[i].record.payload == p;
      assert w'.signed[i].record.payload == p;
    }
    if MadeFor(w, p, at) {
      var i :| 0 <= i < |w.signed| && w.signed[i].record.payload == p && w.signed[i].at <= at;
      assert w'.signed[i].record.payload == p;
    }
  }

  lemma SigningsKept(cfg: Config, w: World, step: Step)
    requires Inv(cfg, w) && Legal(cfg, w, step)
    ensures AllSigningsGood(cfg, Apply(cfg, w, step))
  {
    hide QueueExact, AllAcceptedGood, HonestKeys, ResultsExact, PoolGood, WorkerRun, Enumerates, Values;
    var w' := Apply(cfg, w, step);
    if step.Work? { RunGood(cfg, w, step.n, step.order, step.around, 0); }
    forall i | 0 <= i < |w'.signed| ensures SigningGood(cfg, w', w'.signed[i]) {
      if i < |w.signed| {
        assert SigningGood(cfg, w, w.signed[i]);
      } else {
        var made := Made(w, step.n, step.order, step.around);
        assert w'.signed == w.signed + made;
        assert SigningGood(cfg, w, made[i - |w.signed|]);
      }
    }
  }

  lemma PoolKept(cfg: Config, w: World, step: Step)
    requires Legal(cfg, w, step) && forall c :: c in w.pool ==> PoolGood(cfg, w, c)
    ensures forall c :: c in Apply(cfg, w, step).pool ==> PoolGood(cfg, Apply(cfg, w, step), c)
  {
    hide WorkerRun, Enumerates, Values;
    var w' := Apply(cfg, w, step);
    StepGrows(cfg, w, step);
    forall c | c in w'.pool ensures PoolGood(cfg, w', c) {
      SignedStays(w, w', c.record.payload, 0);
      if step.Work? && c !in w.pool {
        var made := Made(w, step.n, step.order, step.around);
        var i :| 0 <= i < |made| && Calls(made)[i] == c;
        assert w'.signed[|w.signed| + i] == made[i];
      }
    }
  }

  lemma AcceptedStays(cfg: Config, w: World, w': World, a: Accepted)
    requires Grows(w, w') && AcceptedGood(cfg, w, a)
    ensures AcceptedGood(cfg, w', a)
  {
    SignedStays(w, w', a.call.record.payload, a.at);
  }

  /** A call taken from the pool is good if it is accepted. */
  lemma IncludeGood(cfg: Config, w: World, call: Submission)
    requires Inv(cfg, w) && Legal(cfg, w, Include(call)) && SubmitResult(cfg, w.storage, call.record).error.None?
    ensures AcceptedGood(cfg, w, Accepted(call, w.storage.now, w.storage.keys))
  {
    hide QueueExact, AllAcceptedGood, ResultsExact, MadeFor;
    assert PoolGood(cfg, w, call);
    var p := call.record.payload;
    var i :| 0 <= i < |w.signed| && w.signed[i].record.payload == p;
    assert SigningGood(cfg, w, w.signed[i]);
    MadeForBy(w, p, i, w.storage.now);
  }

  lemma MadeForBy(w: World, p: Payload, i: nat, at: nat)
    requires i < |w.signed| && w.signed[i].record.payload == p && w.signed[i].at <= at
    ensures MadeFor(w, p, at)
  {
  }

  lemma AcceptedKept(cfg: Config, w: World, step: Step)
    requires Inv(cfg, w) && Legal(cfg, w, step)
    ensures AllAcceptedGood(cfg, Apply(cfg, w, step))
  {
    hide QueueExact, AllSigningsGood, HonestKeys, ResultsExact, PoolGood, AcceptedGood, Enumerates, Values, WorkerRun;
    var w' := Apply(cfg, w, step);
    StepGrows(cfg, w, step);
    forall i | 0 <= i < |w'.accepted| ensures AcceptedGood(cfg, w', w'.accepted[i]) {
      if i < |w.accepted| {
        AcceptedStays(cfg, w, w', w.accepted[i]);
      } else {
        IncludeGood(cfg, w, step.call);
        AcceptedStays(cfg, w, w', w'.accepted[i]);
      }
    }
  }

  lemma PickedOne(accepted: seq<Accepted>, a: Accepted, who: Account, pubkey: Bytes)
    ensures var p := a.call.record.payload;
            Picked(accepted + [a], who, pubkey)
            == Picked(accepted, who, pubkey) + if p.who == who && p.pubkey == pubkey then [a.call.record] else []
  {
    assert (accepted + [a])[..|accepted|] == accepted;
  }

  lemma ResultsKept(cfg: Config, w: World, step: Step)
    requires ResultsExact(w) && Legal(cfg, w, step)
    ensures ResultsExact(Apply(cfg, w, step))
  {
    hide Picked, Enumerates, WorkerRun, Values;
    var w' := Apply(cfg, w, step);
    forall who: Account, pubkey: Bytes ensures ResultsOf(w'.storage, who, pubkey) == Picked(w'.accepted, who, pubkey) {
      assert ResultsOf(w.storage, who, pubkey) == Picked(w.accepted, who, pubkey);
      if step.Include? {
        PickedOne(w.accepted, Accepted(step.call, w.storage.now, w.storage.keys), who, pubkey);
      }
    }
  }

  lemma StepKeeps(cfg: Config, w: World, step: Step)
    requires Inv(cfg, w) && Legal(cfg, w, step)
    ensures Inv(cfg, Apply(cfg, w, step))
  {
    QueueKept(cfg, w, step);
    SigningsKept(cfg, w, step);
    PoolKept(cfg, w, step);
    AcceptedKept(cfg, w, step);
    ResultsKept(cfg, w, step);
    hide QueueExact, AllSigningsGood, AllAcceptedGood, ResultsExact, PoolGood, Enumerates, WorkerRun, Values;
  }

  lemma {:induction false} RunKeeps(cfg: Config, w: World, steps: seq<Step>)
    requires Inv(cfg, w) && AllLegal(cfg, w, steps)
    ensures Inv(cfg, Run(cfg, w, steps))
    decreases |steps|
  {
    hide Inv, Legal, Apply;
    if steps != [] {
      StepKeeps(cfg, w, steps[0]);
      RunKeeps(cfg, Apply(cfg, w, steps[0]), steps[1..]);
    }
  }

  // ---------------------------------------------------------------- the main results

  ghost predicate Reaches(cfg: Config, steps: seq<Step>, w: World) {
    AllLegal(cfg, Init(), steps) && Run(cfg, Init(), steps) == w
  }

  lemma ReachedInv(cfg: Config, steps: seq<Step>, w: World)
    requires Reaches(cfg, steps, w)
    ensures Inv(cfg, w)
  {
    hide Inv;
    InitInv(cfg);
    RunKeeps(cfg, Init(), steps);
  }

  /** Every stored record is one of the accepted ones, filed under its own account and key. */
  lemma {:induction false} PickedFrom(accepted: seq<Accepted>, who: Account, pubkey: Bytes, i: nat) returns (j: nat)
    requires i < |Picked(accepted, who, pubkey)|
    ensures j < |accepted| && accepted[j].call.record == Picked(accepted, who, pubkey)[i]
    ensures accepted[j].call.record.payload.who == who && accepted[j].call.record.payload.pubkey == pubkey
  {
    var init := accepted[..|accepted| - 1];
    if i < |Picked(init, who, pubkey)| {
      j := PickedFrom(init, who, pubkey, i);
    } else {
      j := |accepted| - 1;
    }
  }

  /**
   Attestation provenance. However messages are reordered, repeated, delayed or made up: a stored
   result is what the resolver answered a worker run for some block n, about evidence asked about
   by a request at block n - VerifyDelay, and it was stored no earlier than n.
   */
  lemma Provenance(cfg: Config, steps: seq<Step>, w: World, who: Account, pubkey: Bytes, i: nat) returns (a: Accepted, g: Signing)
    requires Reaches(cfg, steps, w) && i < |ResultsOf(w.storage, who, pubkey)|
    ensures a in w.accepted && a.call.record == ResultsOf(w.storage, who, pubkey)[i]
    ensures g in w.signed && g.record.payload == a.call.record.payload && g.block <= g.at <= a.at
    ensures g.answer == Resolved(pubkey, a.call.record.payload.code, who)
    ensures cfg.verifyDelay <= g.block && Asked(g.block - cfg.verifyDelay, g.applier, g.evidence) in w.requests
  {
    ReachedInv(cfg, steps, w);
    hide QueueExact, PoolGood, HonestKeys, Picked;
    assert ResultsOf(w.storage, who, pubkey) == Picked(w.accepted, who, pubkey);
    var j := PickedFrom(w.accepted, who, pubkey, i);
    a := w.accepted[j];
    assert AcceptedGood(cfg, w, a);
    var k :| 0 <= k < |w.signed| && w.signed[k].record.payload == a.call.record.payload && w.signed[k].at <= a.at;
    g := w.signed[k];
    assert SigningGood(cfg, w, g);
  }

  /**
   Every entry under (who, pubkey) names that account and key, carries a signature that verifies, and was
   accepted within EvidenceLifetime of the block in its call, with a signing key that was and is registered.
   */
  lemma VerifiedRecord(cfg: Config, steps: seq<Step>, w: World, who: Account, pubkey: Bytes, i: nat) returns (a: Accepted)
    requires Reaches(cfg, steps, w) && i < |ResultsOf(w.storage, who, pubkey)|
    ensures a in w.accepted && a.call.record == ResultsOf(w.storage, who, pubkey)[i]
    ensures a.call.record.payload.who == who && a.call.record.payload.pubkey == pubkey && cfg.verify(a.call.record)
    ensures a.call.record.payload.public in a.keys && a.keys <= w.storage.keys
    ensures a.call.block <= a.at <= a.call.block + cfg.evidenceLifetime
  {
    ReachedInv(cfg, steps, w);
    hide QueueExact, PoolGood, HonestKeys, Picked;
    assert ResultsOf(w.storage, who, pubkey) == Picked(w.accepted, who, pubkey);
    var j := PickedFrom(w.accepted, who, pubkey, i);
    a := w.accepted[j];
    assert AcceptedGood(cfg, w, a);
  }

  /** Result lists and the key list only ever grow at the end, in any run from any state. */
  lemma {:induction false} OnlyAppends(cfg: Config, w: World, steps: seq<Step>, who: Account, pubkey: Bytes)
    requires AllLegal(cfg, w, steps)
    ensures w.storage.keys <= Run(cfg, w, steps).storage.keys
    ensures ResultsOf(w.storage, who, pubkey) <= ResultsOf(Run(cfg, w, steps).storage, who, pubkey)
    decreases |steps|
  {
    if steps != [] {
      hide Enumerates, Values, WorkerRun;
      OnlyAppends(cfg, Apply(cfg, w, steps[0]), steps[1..], who, pubkey);
    }
  }

  // ---------------------------------------------------------------- the work queue is frozen

  /** Once VerifyDelay blocks short of n have passed, the queue for block n does not change. */
  lemma {:induction false} FrozenQueue(cfg: Config, w: World, steps: seq<Step>, n: nat, a: Account)
    requires AllLegal(cfg, w, steps) && n < w.storage.now + cfg.verifyDelay
    ensures QueueAt(Run(cfg, w, steps).storage, n, a) == QueueAt(w.storage, n, a)
    decreases |steps|
  {
    if steps != [] {
      hide Enumerates, Values, WorkerRun;
      FrozenQueue(cfg, Apply(cfg, w, steps[0]), steps[1..], n, a);
    }
  }

  /** It holds one entry for each account that asked in block n - VerifyDelay: its last evidence, under its name. */
  lemma QueueHoldsLast(cfg: Config, steps: seq<Step>, w: World, n: nat, a: Account)
    requires Reaches(cfg, steps, w)
    ensures QueueAt(w.storage, n, a) == Due(cfg, w.requests, n, a)
    ensures QueueAt(w.storage, n, a).Some? <==> n >= cfg.verifyDelay && AskedIn(w.requests, n - cfg.verifyDelay, a)
  {
    ReachedInv(cfg, steps, w);
    if n >= cfg.verifyDelay { AskedIsFound(w.requests, n - cfg.verifyDelay, a); }
  }

  predicate AskedIn(requests: seq<Asked>, block: nat, who: Account) {
    exists i :: 0 <= i < |requests| && requests[i].block == block && requests[i].who == who
  }

  lemma {:induction false} AskedIsFound(requests: seq<Asked>, block: nat, who: Account)
    ensures LastAsked(requests, block, who).Some? <==> AskedIn(requests, block, who)
  {
    if requests != [] {
      var last, init := requests[|requests| - 1], requests[..|requests| - 1];
      if !(last.block == block && last.who == who) {
        AskedIsFound(init, block, who);
        if AskedIn(requests, block, who) {
          var i :| 0 <= i < |requests| && requests[i].block == block && requests[i].who == who;
          assert init[i] == requests[i];
        }
        if AskedIn(init, block, who) {
          var i :| 0 <= i < |init| && init[i].block == block && init[i].who == who;
          assert init[i] == requests[i];
        }
      }
    }
  }

  /** With a delay of at least one block, a worker run for block n that is repeated or late finds the same work. */
  lemma SameWork(cfg: Config, w: World, steps: seq<Step>, n: nat, order: seq<Account>)
    requires cfg.verifyDelay >= 1 && n <= w.storage.now && AllLegal(cfg, w, steps)
    ensures Enumerates(w.storage, n, order) <==> Enumerates(Run(cfg, w, steps).storage, n, order)
    ensures Enumerates(w.storage, n, order) ==> Values(Run(cfg, w, steps).storage, n, order) == Values(w.storage, n, order)
  {
    hide Legal, Apply, Run;
    var w' := Run(cfg, w, steps);
    forall a: Account ensures QueueAt(w'.storage, n, a) == QueueAt(w.storage, n, a) { FrozenQueue(cfg, w, steps, n, a); }
    forall a: Account ensures (n, a) in w.storage.queue <==> (n, a) in w'.storage.queue {
      assert QueueAt(w'.storage, n, a) == QueueAt(w.storage, n, a);
    }
    if Enumerates(w.storage, n, order) {
      forall i | 0 <= i < |order| ensures w'.storage.queue[(n, order[i])] == w.storage.queue[(n, order[i])] {
        assert QueueAt(w'.storage, n, order[i]) == QueueAt(w.storage, n, order[i]);
      }
    }
  }

  // ---------------------------------------------------------------- the window of a call

  ghost predicate WasAccepted(w: World, call: Submission, at: nat) {
    exists i :: 0 <= i < |w.accepted| && w.accepted[i].call == call && w.accepted[i].at == at
  }

  /** A run accepts the call at block `at`. */
  ghost predicate Accepts(cfg: Config, w: World, steps: seq<Step>, call: Submission, at: nat) {
    AllLegal(cfg, w, steps) && WasAccepted(Run(cfg, w, steps), call, at)
  }

  lemma OneStepFirst(cfg: Config, w: World, step: Step, steps: seq<Step>)
    requires Legal(cfg, w, step) && AllLegal(cfg, Apply(cfg, w, step), steps)
    ensures AllLegal(cfg, w, [step] + steps) && Run(cfg, w, [step] + steps) == Run(cfg, Apply(cfg, w, step), steps)
  {
    assert ([step] + steps)[1..] == steps;
  }

  lemma IncludeNow(cfg: Config, w: World, call: Submission)
    requires call in w.pool && cfg.verify(call.record) && call.record.payload.public in w.storage.keys
    requires call.block <= w.storage.now <= call.block + cfg.evidenceLifetime
    ensures Accepts(cfg, w, [Include(call)], call, w.storage.now)
  {
    OneStepFirst(cfg, w, Include(call), []);
    var w' := Run(cfg, w, [Include(call)]);
    assert w'.accepted[|w.accepted|].call == call;
  }

  /** A call in the pool can be included at any later block of its window. */
  lemma {:induction false} IncludeAt(cfg: Config, w: World, call: Submission, at: nat) returns (steps: seq<Step>)
    requires call in w.pool && cfg.verify(call.record) && call.record.payload.public in w.storage.keys
    requires w.storage.now <= at && call.block <= at <= call.block + cfg.evidenceLifetime
    ensures Accepts(cfg, w, steps, call, at)
    decreases at - w.storage.now
  {
    if w.storage.now == at {
      IncludeNow(cfg, w, call);
      steps := [Include(call)];
    } else {
      var next := Apply(cfg, w, NextBlock);
      steps := IncludeAt(cfg, next, call, at);
      OneStepFirst(cfg, w, NextBlock, steps);
      steps := [NextBlock] + steps;
    }
  }

  /**
   A record that verifies under a registered key, and whose payload a worker has signed, can be
   accepted from now on exactly at the blocks of the window of the number in the call, whatever
   that number is: the worker's block is no part of the condition.
   */
  lemma WindowExactly(cfg: Config, w: World, r: Record, block: nat, at: nat)
    requires Inv(cfg, w) && cfg.verify(r) && r.payload.public in w.storage.keys && SignedPayload(w, r.payload)
    requires w.storage.now <= at
    ensures (exists steps: seq<Step> :: Accepts(cfg, w, steps, Submission(block, r), at))
            <==> block <= at <= block + cfg.evidenceLifetime
  {
    hide Inv;
    var call := Submission(block, r);
    if steps: seq<Step> :| Accepts(cfg, w, steps, call, at) {
      RunKeeps(cfg, w, steps);
      InWindow(cfg, Run(cfg, w, steps), call, at);
    }
    if block <= at <= block + cfg.evidenceLifetime {
      var steps := IncludeAt(cfg, Apply(cfg, w, Inject(call)), call, at);
      OneStepFirst(cfg, w, Inject(call), steps);
      assert Accepts(cfg, w, [Inject(call)] + steps, call, at);
    }
  }

  lemma InWindow(cfg: Config, w: World, call: Submission, at: nat)
    requires Inv(cfg, w) && WasAccepted(w, call, at)
    ensures call.block <= at <= call.block + cfg.evidenceLifetime
  {
    hide QueueExact, AllSigningsGood, HonestKeys, ResultsExact, PoolGood;
    var i :| 0 <= i < |w.accepted| && w.accepted[i].call == call && w.accepted[i].at == at;
    assert AcceptedGood(cfg, w, w.accepted[i]);
  }

  /** So EvidenceLifetime bounds a result's age since block `n` if and only if the number in the call is no later than `n`. */
  lemma AgeExactly(cfg: Config, w: World, r: Record, n: nat, block: nat)
    requires Inv(cfg, w) && cfg.verify(r) && r.payload.public in w.storage.keys && SignedPayload(w, r.payload)
    requires w.storage.now <= block + cfg.evidenceLifetime
    ensures (forall steps: seq<Step>, at: nat :: w.storage.now <= at && Accepts(cfg, w, steps, Submission(block, r), at) ==> at <= n + cfg.evidenceLifetime)
            <==> block <= n
  {
    hide Inv, Accepts, SignedPayload;
    var latest := block + cfg.evidenceLifetime;
    WindowExactly(cfg, w, r, block, latest);
    var steps: seq<Step> :| Accepts(cfg, w, steps, Submission(block, r), latest);
    forall steps: seq<Step>, at: nat | w.storage.now <= at && Accepts(cfg, w, steps, Submission(block, r), at)
      ensures at <= latest
    {
      WindowExactly(cfg, w, r, block, at);
    }
  }

  // ---------------------------------------------------------------- a result that is accepted late

  const EXAMPLE := Config(0, 1, _ => true, _ => true)
  const EXAMPLE_RECORD := Record(Payload("code", 5, "pubkey", 1), 0)

  /** One request, and one worker run for its block, block zero. */
  function ExampleSteps(): seq<Step> {
    [Register(1), Ask(5, "evidence"), Work(0, [5], Surroundings(true, [Resolved("pubkey", "code", 5)], Some(1), [0]))]
  }

  lemma ThreeSteps(cfg: Config, w: World, a: Step, b: Step, c: Step)
    requires Legal(cfg, w, a) && Legal(cfg, Apply(cfg, w, a), b) && Legal(cfg, Apply(cfg, Apply(cfg, w, a), b), c)
    ensures AllLegal(cfg, w, [a, b, c]) && Run(cfg, w, [a, b, c]) == Apply(cfg, Apply(cfg, Apply(cfg, w, a), b), c)
  {
    hide Legal, Apply;
    var w1 := Apply(cfg, w, a);
    var w2 := Apply(cfg, w1, b);
    assert [c] + [] == [c] && [b] + [c] == [b, c] && [a] + [b, c] == [a, b, c];
    OneStepFirst(cfg, w2, c, []);
    OneStepFirst(cfg, w1, b, [c]);
    OneStepFirst(cfg, w, a, [b, c]);
  }

  const KEYED := World(Storage(0, map[], map[], [1]), {}, [], [], [])
  const ASKED := World(Storage(0, map[(0, 5) := (5, "evidence")], map[], [1]), {}, [Asked(0, 5, "evidence")], [], [])

  lemma ExampleAsked()
    ensures Legal(EXAMPLE, Init(), Register(1)) && Apply(EXAMPLE, Init(), Register(1)) == KEYED
    ensures Legal(EXAMPLE, KEYED, Ask(5, "evidence")) && Apply(EXAMPLE, KEYED, Ask(5, "evidence")) == ASKED
    ensures Enumerates(ASKED.storage, 0, [5]) && Values(ASKED.storage, 0, [5]) == [(5, "evidence")]
  {
    hide WorkerRun;
  }

  lemma ExampleSigned() returns (w: World)
    ensures Reaches(EXAMPLE, ExampleSteps(), w) && w.storage.now == 0 && w.storage.keys == [1]
    ensures w.signed == [Signing(0, 5, "evidence", Resolved("pubkey", "code", 5), EXAMPLE_RECORD, 0)]
  {
    hide WorkerRun, AllLegal, Run, Enumerates, Values, Init;
    var steps := ExampleSteps();
    ExampleAsked();
    ExampleRun([(5, "evidence")], steps[2].around);
    w := Apply(EXAMPLE, ASKED, steps[2]);
    ThreeSteps(EXAMPLE, Init(), steps[0], steps[1], steps[2]);
  }

  lemma ExampleRun(entries: seq<(Account, Bytes)>, around: Surroundings)
    requires entries == [(5, "evidence")] && around == ExampleSteps()[2].around
    ensures WorkerRun(entries, 0, around, 0, 0) == [Signing(0, 5, "evidence", Resolved("pubkey", "code", 5), EXAMPLE_RECORD, 0)]
  {
    assert WorkerRun(entries, 0, around, 0, 1) == [];
  }

  /** Signed for block 0 with a lifetime of one block, submitted with the number 3, and accepted at block 4. */
  lemma AcceptedLate() returns (w: World, steps: seq<Step>)
    ensures Reaches(EXAMPLE, ExampleSteps(), w) && EXAMPLE.evidenceLifetime == 1
    ensures |w.signed| == 1 && w.signed[0].block == 0 && w.signed[0].record == EXAMPLE_RECORD
    ensures Accepts(EXAMPLE, w, steps, Submission(3, EXAMPLE_RECORD), 4)
  {
    hide Inv, Reaches, Accepts;
    w := ExampleSigned();
    ReachedInv(EXAMPLE, ExampleSteps(), w);
    assert w.signed[0].record.payload == EXAMPLE_RECORD.payload;
    WindowExactly(EXAMPLE, w, EXAMPLE_RECORD, 3, 4);
    steps :| Accepts(EXAMPLE, w, steps, Submission(3, EXAMPLE_RECORD), 4);
  }
}
