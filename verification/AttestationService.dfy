/** What the protocol does for those who use it: whatever is registered, asked and signed has its effect. */
module AttestationService {
  import opened Texts
  import opened VerifierPallet
  import opened Attestation

  // ---------------------------------------------------------------- what the steps say

  /** The keys registered, oldest first. */
  function Keys(steps: seq<Step>): seq<Key>
    decreases |steps|
  {
    if steps == [] then [] else (if steps[0].Register? then [steps[0].key] else []) + Keys(steps[1..])
  }

  /** The requests made from block `now` on, each with its block. */
  function Asks(steps: seq<Step>, now: nat): seq<Asked>
    decreases |steps|
  {
    if steps == [] then []
    else
      (if steps[0].Ask? then [Asked(now, steps[0].who, steps[0].evidence)] else [])
      + Asks(steps[1..], if steps[0].NextBlock? then now + 1 else now)
  }

  function Blocks(steps: seq<Step>): nat
    decreases |steps|
  {
    if steps == [] then 0 else (if steps[0].NextBlock? then 1 else 0) + Blocks(steps[1..])
  }

  /**
   In any run from any state: the keys are those there were and those registered, in order; the
   block is as many later as blocks were begun; and the requests are those made, each at its block.
   */
  lemma {:induction false} StateOfSteps(cfg: Config, w: World, steps: seq<Step>)
    requires AllLegal(cfg, w, steps)
    ensures var t := Run(cfg, w, steps);
            && t.storage.keys == w.storage.keys + Keys(steps)
            && t.storage.now == w.storage.now + Blocks(steps)
            && t.requests == w.requests + Asks(steps, w.storage.now)
    decreases |steps|
  {
    hide Legal, Apply;
    if steps != [] {
      var step, w' := steps[0], Apply(cfg, w, steps[0]);
      OneStep(cfg, w, step);
      StateOfSteps(cfg, w', steps[1..]);
      var keys := if step.Register? then [step.key] else [];
      var asks := if step.Ask? then [Asked(w.storage.now, step.who, step.evidence)] else [];
      assert w.storage.keys + keys + Keys(steps[1..]) == w.storage.keys + (keys + Keys(steps[1..]));
      assert w.requests + asks + Asks(steps[1..], w'.storage.now) == w.requests + (asks + Asks(steps[1..], w'.storage.now));
    }
  }

  lemma OneStep(cfg: Config, w: World, step: Step)
    requires Legal(cfg, w, step)
    ensures var t := Apply(cfg, w, step);
            && t.storage.keys == w.storage.keys + (if step.Register? then [step.key] else [])
            && t.storage.now == (if step.NextBlock? then w.storage.now + 1 else w.storage.now)
            && t.requests == w.requests + (if step.Ask? then [Asked(w.storage.now, step.who, step.evidence)] else [])
  {
    hide Enumerates, Values, WorkerRun, SignedPayload;
  }

  // ---------------------------------------------------------------- the hostile pool

  /** Anybody can put any call into the pool, again and at any time, unless it would take an honest key's signature that was not made. */
  lemma PoolIsOpen(cfg: Config, w: World, call: Submission)
    ensures Legal(cfg, w, Inject(call)) <==> !cfg.verify(call.record) || !cfg.honest(call.record.payload.public) || SignedPayload(w, call.record.payload)
    ensures Legal(cfg, w, Inject(call)) ==> Apply(cfg, w, Inject(call)) == w.(pool := w.pool + {call})
    ensures Legal(cfg, w, Include(call)) <==>
              call in w.pool && cfg.verify(call.record) && call.block <= w.storage.now && w.storage.now - call.block <= cfg.evidenceLifetime
  {
  }

  // ---------------------------------------------------------------- accepting and refusing

  /** Nobody may submit under a key that is not registered, or with a signature that does not verify. */
  lemma SubmitExactly(cfg: Config, w: World, r: Record)
    ensures var reply := SubmitResult(cfg, w.storage, r);
            && (reply.error == Some(InvalidPublic) <==> !exists i :: 0 <= i < |w.storage.keys| && w.storage.keys[i] == r.payload.public)
            && (reply.error == Some(InvalidSignature) <==> r.payload.public in w.storage.keys && !cfg.verify(r))
            && (reply.error.Some? ==> reply.storage == w.storage)
            && (reply.error.None? ==> reply.storage == w.storage.(results := reply.storage.results))
            && forall who, pubkey :: ResultsOf(reply.storage, who, pubkey)
                 == ResultsOf(w.storage, who, pubkey)
                    + (if reply.error.None? && who == r.payload.who && pubkey == r.payload.pubkey then [r] else [])
  {
  }

  /** The pool refuses first what does not verify, then what is from the future, then what is too old. */
  lemma ValidateExactly(cfg: Config, s: Storage, c: Submission)
    ensures ValidateUnsigned(cfg, s, c) == Some(BadProof) <==> !cfg.verify(c.record)
    ensures ValidateUnsigned(cfg, s, c) == Some(Future) <==> cfg.verify(c.record) && c.block > s.now
    ensures ValidateUnsigned(cfg, s, c) == Some(OutdatedRequest) <==> cfg.verify(c.record) && s.now - c.block > cfg.evidenceLifetime
  {
  }

  /** As soon as a key is registered, calls signed by it are accepted, whatever was registered before. */
  lemma KeyAccepted(cfg: Config, w: World, key: Key, call: Submission)
    requires cfg.honest(key) && call in w.pool && cfg.verify(call.record) && call.record.payload.public == key
    requires call.block <= w.storage.now <= call.block + cfg.evidenceLifetime
    ensures Accepts(cfg, w, [Register(key), Include(call)], call, w.storage.now)
  {
    var next := Apply(cfg, w, Register(key));
    assert next.storage.keys[|w.storage.keys|] == key;
    IncludeNow(cfg, next, call);
    OneStepFirst(cfg, w, Register(key), [Include(call)]);
    assert [Register(key)] + [Include(call)] == [Register(key), Include(call)];
  }

  // ---------------------------------------------------------------- the worker always can run

  lemma ListOf(xs: set<Account>) returns (order: seq<Account>)
    ensures forall a :: a in order <==> a in xs
    ensures forall i, j :: 0 <= i < j < |order| ==> order[i] != order[j]
    decreases |xs|
  {
    if xs == {} {
      order := [];
    } else {
      var x :| x in xs;
      var rest := ListOf(xs - {x});
      order := [x] + rest;
      assert forall i :: 0 <= i < |rest| ==> rest[i] in rest;
      forall a ensures a in order <==> a in xs { assert a in order <==> a == x || a in rest; }
    }
  }

  /** For every block there is an order in which its entries are visited, each once. */
  lemma OrderExists(s: Storage, n: nat) returns (order: seq<Account>)
    ensures Enumerates(s, n, order)
  {
    var askers := set k | k in s.queue && k.0 == n :: k.1;
    order := ListOf(askers);
    forall a: Account ensures a in askers <==> (n, a) in s.queue {
      if (n, a) in s.queue { assert (n, a).1 in askers; }
    }
    assert forall i :: 0 <= i < |order| ==> order[i] in order;
  }

  /** So in every state the worker may run for every block up to the present one, whatever its surroundings answer. */
  lemma WorkMayRun(cfg: Config, w: World, n: nat) returns (order: seq<Account>)
    requires n <= w.storage.now
    ensures forall around: Surroundings :: |around.answers| == |around.signatures| == |order| ==> Legal(cfg, w, Work(n, order, around))
  {
    order := OrderExists(w.storage, n);
  }

  // ---------------------------------------------------------------- the worker signs all it can

  /** The worker gets as far as entry `i`, and has all it needs to sign the answer. */
  predicate Signs(around: Surroundings, i: nat) {
    && around.isValidator && around.key.Some? && i < |around.answers| && around.answers[i].Resolved?
    && forall j :: 0 <= j < i ==> !around.answers[j].Trapped?
  }

  /** What it signs for entry `i`. */
  function Signed(s: Storage, n: nat, order: seq<Account>, around: Surroundings, i: nat): Signing
    requires i < |order| && (n, order[i]) in s.queue && |around.answers| == |around.signatures| == |order| && Signs(around, i)
  {
    var (applier, evidence) := s.queue[(n, order[i])];
    var answer := around.answers[i];
    Signing(n, applier, evidence, answer,
            Record(Payload(answer.code, answer.who, answer.pubkey, around.key.value), around.signatures[i]), s.now)
  }

  /** `at` lists, in order, exactly the entries from the i-th on that are signed, and `made` the signatures. */
  ghost predicate Covers(s: Storage, n: nat, order: seq<Account>, around: Surroundings, i: nat, made: seq<Signing>, at: seq<nat>)
    requires |around.answers| == |around.signatures| == |order|
  {
    && |at| == |made|
    && (forall k :: 0 <= k < |at| ==>
          && i <= at[k] < |order| && Signs(around, at[k])
          && (n, order[at[k]]) in s.queue && made[k] == Signed(s, n, order, around, at[k]))
    && (forall j, k :: 0 <= j < k < |at| ==> at[j] < at[k])
    && (forall m: nat :: i <= m && Signs(around, m) ==> m in at)
  }

  lemma {:induction false} RunCovers(s: Storage, n: nat, order: seq<Account>, around: Surroundings, i: nat) returns (at: seq<nat>)
    requires Enumerates(s, n, order) && |around.answers| == |around.signatures| == |order| && i <= |order|
    requires forall j :: 0 <= j < i ==> !around.answers[j].Trapped?
    ensures Covers(s, n, order, around, i, WorkerRun(Values(s, n, order), n, around, s.now, i), at)
    decreases |order| - i
  {
    hide Enumerates, Covers, Signs, WorkerRun, Values;
    Turns(s, n, order, around, i);
    if !around.isValidator || i == |order| || around.answers[i].Trapped? {
      at := [];
      NoneSigned(s, n, order, around, i);
    } else {
      at := RunCovers(s, n, order, around, i + 1);
      var rest := WorkerRun(Values(s, n, order), n, around, s.now, i + 1);
      if Signs(around, i) {
        OneMore(s, n, order, around, i, rest, at);
        at := [i] + at;
      } else {
        NoneMore(s, n, order, around, i, rest, at);
      }
    }
  }

  /** One turn of the worker's loop. */
  lemma Turns(s: Storage, n: nat, order: seq<Account>, around: Surroundings, i: nat)
    requires Enumerates(s, n, order) && |around.answers| == |around.signatures| == |order| && i <= |order|
    requires forall j :: 0 <= j < i ==> !around.answers[j].Trapped?
    ensures var run := WorkerRun(Values(s, n, order), n, around, s.now, i);
            if !around.isValidator || i == |order| || around.answers[i].Trapped? then run == []
            else
              && (i < |order| ==> (n, order[i]) in s.queue)
              && var rest := WorkerRun(Values(s, n, order), n, around, s.now, i + 1);
                 run == if Signs(around, i) then [Signed(s, n, order, around, i)] + rest else rest
  {
  }

  lemma NoneSigned(s: Storage, n: nat, order: seq<Account>, around: Surroundings, i: nat)
    requires Enumerates(s, n, order) && |around.answers| == |around.signatures| == |order|
    requires !around.isValidator || i == |order| || (i < |order| && around.answers[i].Trapped?)
    ensures Covers(s, n, order, around, i, [], [])
  {
    hide Enumerates;
  }

  lemma NoneMore(s: Storage, n: nat, order: seq<Account>, around: Surroundings, i: nat, rest: seq<Signing>, at: seq<nat>)
    requires Enumerates(s, n, order) && |around.answers| == |around.signatures| == |order| && i < |order| && !Signs(around, i)
    requires Covers(s, n, order, around, i + 1, rest, at)
    ensures Covers(s, n, order, around, i, rest, at)
  {
    hide Enumerates, Signs, Signed;
  }

  lemma OneMore(s: Storage, n: nat, order: seq<Account>, around: Surroundings, i: nat, rest: seq<Signing>, at: seq<nat>)
    requires Enumerates(s, n, order) && |around.answers| == |around.signatures| == |order| && i < |order| && Signs(around, i)
    requires (n, order[i]) in s.queue && Covers(s, n, order, around, i + 1, rest, at)
    ensures Covers(s, n, order, around, i, [Signed(s, n, order, around, i)] + rest, [i] + at)
  {
    hide Enumerates, Signs, Signed;
    var all, made := [i] + at, [Signed(s, n, order, around, i)] + rest;
    forall k | 0 <= k < |all|
      ensures i <= all[k] < |order| && Signs(around, all[k])
      ensures (n, order[all[k]]) in s.queue && made[k] == Signed(s, n, order, around, all[k])
      ensures k > 0 ==> all[k] > i
    {
      if k > 0 { assert all[k] == at[k - 1] && made[k] == rest[k - 1]; }
    }
    forall j, k | 0 <= j < k < |all| ensures all[j] < all[k] {
      if j > 0 { assert all[j] == at[j - 1] && all[k] == at[k - 1]; }
    }
    forall m: nat | i <= m && Signs(around, m) ensures m in all {
      if m > i { assert m in at; }
    }
  }

  /**
   A worker run signs every entry whose evidence the resolver resolves, up to the first trap, once and in
   the iterator's order, nothing else, and sends each signature to the pool under the run's block.
   */
  lemma WorkSigns(cfg: Config, w: World, n: nat, order: seq<Account>, around: Surroundings) returns (made: seq<Signing>, at: seq<nat>)
    requires Legal(cfg, w, Work(n, order, around))
    ensures Apply(cfg, w, Work(n, order, around)).signed == w.signed + made
    ensures Covers(w.storage, n, order, around, 0, made, at)
    ensures Apply(cfg, w, Work(n, order, around)).pool == w.pool + set k | 0 <= k < |made| :: Submission(n, made[k].record)
    ensures Apply(cfg, w, Work(n, order, around)).storage == w.storage
  {
    hide Enumerates, Signs, WorkerRun;
    made := Made(w, n, order, around);
    at := RunCovers(w.storage, n, order, around, 0);
    var calls := Calls(made);
    assert forall k :: 0 <= k < |made| ==> made[k].block == n;
    assert (set c | c in calls) == set k | 0 <= k < |made| :: Submission(n, made[k].record) by {
      forall k | 0 <= k < |made| ensures calls[k] == Submission(n, made[k].record) && calls[k] in calls {}
    }
  }

  // ---------------------------------------------------------------- a request is served

  /** The account does not ask again before the next block. */
  predicate AsksOnce(steps: seq<Step>, who: Account)
    decreases |steps|
  {
    steps == [] || steps[0].NextBlock? || (!(steps[0].Ask? && steps[0].who == who) && AsksOnce(steps[1..], who))
  }

  lemma QueueStays(cfg: Config, w: World, step: Step, n: nat, who: Account)
    requires Legal(cfg, w, step) && !(step.Ask? && step.who == who && w.storage.now + cfg.verifyDelay == n)
    ensures QueueAt(Apply(cfg, w, step).storage, n, who) == QueueAt(w.storage, n, who)
  {
    hide Enumerates, WorkerRun, Values;
  }

  lemma {:induction false} StaysQueued(cfg: Config, w: World, steps: seq<Step>, who: Account)
    requires AllLegal(cfg, w, steps) && AsksOnce(steps, who)
    ensures var n := w.storage.now + cfg.verifyDelay;
            QueueAt(Run(cfg, w, steps).storage, n, who) == QueueAt(w.storage, n, who)
    decreases |steps|
  {
    hide Legal, Apply, QueueAt;
    if steps != [] {
      var n := w.storage.now + cfg.verifyDelay;
      OneStep(cfg, w, steps[0]);
      QueueStays(cfg, w, steps[0], n, who);
      var next := Apply(cfg, w, steps[0]);
      if steps[0].NextBlock? { FrozenQueue(cfg, next, steps[1..], n, who); } else { StaysQueued(cfg, next, steps[1..], who); }
    }
  }

  /** A request is in the queue for the block VerifyDelay later, whatever happens until then. */
  lemma RequestQueued(cfg: Config, w: World, who: Account, evidence: Bytes, more: seq<Step>)
    requires AllLegal(cfg, w, [Ask(who, evidence)] + more) && AsksOnce(more, who)
    ensures var n := w.storage.now + cfg.verifyDelay;
            QueueAt(Run(cfg, w, [Ask(who, evidence)] + more).storage, n, who) == Some((who, evidence))
  {
    hide Enumerates, Values, WorkerRun, SignedPayload;
    var next := Apply(cfg, w, Ask(who, evidence));
    assert ([Ask(who, evidence)] + more)[1..] == more;
    StaysQueued(cfg, next, more, who);
  }

  /**
   A request is served. Whatever else goes on: a worker run for the block it is due at finds it,
   and if the resolver resolves its evidence and the worker has a registered key, the result can be
   stored at once under the account and key that the resolver named, behind what is there.
   */
  lemma RequestServed(cfg: Config, w: World, who: Account, evidence: Bytes, more: seq<Step>, v: World,
                      order: seq<Account>, around: Surroundings) returns (i: nat)
    requires AllLegal(cfg, w, [Ask(who, evidence)] + more) && v == Run(cfg, w, [Ask(who, evidence)] + more) && AsksOnce(more, who)
    requires Legal(cfg, v, Work(w.storage.now + cfg.verifyDelay, order, around))
    requires v.storage.now <= w.storage.now + cfg.verifyDelay + cfg.evidenceLifetime
    ensures i < |order| && order[i] == who && v.storage.queue[(w.storage.now + cfg.verifyDelay, who)] == (who, evidence)
    ensures Signs(around, i) && around.key.value in v.storage.keys ==>
              var n := w.storage.now + cfg.verifyDelay;
              var a := around.answers[i];
              var r := Record(Payload(a.code, a.who, a.pubkey, around.key.value), around.signatures[i]);
              cfg.verify(r) ==>
                && Accepts(cfg, v, [Work(n, order, around), Include(Submission(n, r))], Submission(n, r), v.storage.now)
                && ResultsOf(Run(cfg, v, [Work(n, order, around), Include(Submission(n, r))]).storage, a.who, a.pubkey)
                   == ResultsOf(v.storage, a.who, a.pubkey) + [r]
  {
    hide WorkerRun, AllLegal, Run, Covers, ResultsOf;
    var n := w.storage.now + cfg.verifyDelay;
    RequestQueued(cfg, w, who, evidence, more);
    i :| 0 <= i < |order| && order[i] == who;
    if Signs(around, i) && around.key.value in v.storage.keys {
      var a := around.answers[i];
      var r := Record(Payload(a.code, a.who, a.pubkey, around.key.value), around.signatures[i]);
      if cfg.verify(r) { SignedIsStored(cfg, v, n, order, around, i, r); }
    }
  }

  lemma SignedIsStored(cfg: Config, v: World, n: nat, order: seq<Account>, around: Surroundings, i: nat, r: Record)
    requires Legal(cfg, v, Work(n, order, around)) && v.storage.now <= n + cfg.evidenceLifetime
    requires i < |order| && Signs(around, i) && around.key.value in v.storage.keys && cfg.verify(r)
    requires var a := around.answers[i]; r == Record(Payload(a.code, a.who, a.pubkey, around.key.value), around.signatures[i])
    ensures var call := Submission(n, r);
            && Accepts(cfg, v, [Work(n, order, around), Include(call)], call, v.storage.now)
            && ResultsOf(Run(cfg, v, [Work(n, order, around), Include(call)]).storage, r.payload.who, r.payload.pubkey)
               == ResultsOf(v.storage, r.payload.who, r.payload.pubkey) + [r]
  {
    hide WorkerRun, Accepts, Apply, ResultsOf, Signs;
    var work, call := Work(n, order, around), Submission(n, r);
    var made, at := WorkSigns(cfg, v, n, order, around);
    var k :| 0 <= k < |at| && at[k] == i;
    assert made[k].record == r;
    var next := Apply(cfg, v, work);
    assert call in next.pool;
    IncludeNow(cfg, next, call);
    IncludeStores(cfg, next, call);
    WorkThenInclude(cfg, v, work, call);
  }

  lemma IncludeStores(cfg: Config, w: World, call: Submission)
    requires Legal(cfg, w, Include(call)) && call.record.payload.public in w.storage.keys
    ensures var p := call.record.payload;
            ResultsOf(Apply(cfg, w, Include(call)).storage, p.who, p.pubkey) == ResultsOf(w.storage, p.who, p.pubkey) + [call.record]
  {
  }

  lemma WorkThenInclude(cfg: Config, v: World, work: Step, call: Submission)
    requires Legal(cfg, v, work) && Accepts(cfg, Apply(cfg, v, work), [Include(call)], call, v.storage.now)
    ensures Accepts(cfg, v, [work, Include(call)], call, v.storage.now)
    ensures Legal(cfg, Apply(cfg, v, work), Include(call))
    ensures Run(cfg, v, [work, Include(call)]) == Apply(cfg, Apply(cfg, v, work), Include(call))
  {
    hide Legal, Apply;
    OneStepFirst(cfg, v, work, [Include(call)]);
    assert [work] + [Include(call)] == [work, Include(call)];
    assert [Include(call)][1..] == [];
  }
}
