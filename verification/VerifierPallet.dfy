/** The verifier pallet: a queue of evidence, the off-chain worker that resolves it, and the recorded results. */
module VerifierPallet {
  import opened Texts

  type Account = nat
  type Key = nat
  type Signature = nat
  type Bytes = string

  /** What the worker signs; the block number of the call is not part of it. */
  datatype Payload = Payload(code: Bytes, who: Account, pubkey: Bytes, public: Key)

  datatype Record = Record(payload: Payload, signature: Signature)

  /** A call of `submit_result_unsigned_with_signed_payload`. */
  datatype Submission = Submission(block: nat, record: Record)

  /** `verify` is the signature scheme; `honest` holds of the keys that sign only inside the worker. */
  datatype Config = Config(
    verifyDelay: nat,
    evidenceLifetime: nat,
    verify: Record -> bool,
    honest: Key -> bool)

  datatype Storage = Storage(
    now: nat,
    queue: map<(nat, Account), (Account, Bytes)>,
    results: map<(Account, Bytes), seq<Record>>,
    keys: seq<Key>)

  datatype Error = InvalidPublic | InvalidSignature

  datatype Reply = Reply(error: Option<Error>, storage: Storage)

  datatype Invalid = BadProof | Future | OutdatedRequest

  function RequestVerification(cfg: Config, s: Storage, who: Account, evidence: Bytes): Storage {
    s.(queue := s.queue[(s.now + cfg.verifyDelay, who) := (who, evidence)])
  }

  function RegisterNewPubkey(s: Storage, key: Key): Storage {
    s.(keys := s.keys + [key])
  }

  /** `VerificationResults` reads as the empty list where nothing is stored. */
  function ResultsOf(s: Storage, who: Account, pubkey: Bytes): seq<Record> {
    if (who, pubkey) in s.results then s.results[(who, pubkey)] else []
  }

  function SubmitResult(cfg: Config, s: Storage, r: Record): Reply {
    if r.payload.public !in s.keys then Reply(Some(InvalidPublic), s)
    else if !cfg.verify(r) then Reply(Some(InvalidSignature), s)
    else
      var (who, pubkey) := (r.payload.who, r.payload.pubkey);
      Reply(None, s.(results := s.results[(who, pubkey) := ResultsOf(s, who, pubkey) + [r]]))
  }

  /** None when the pool may take the call. */
  function ValidateUnsigned(cfg: Config, s: Storage, c: Submission): Option<Invalid> {
    if !cfg.verify(c.record) then Some(BadProof)
    else if s.now < c.block then Some(Future)
    else if s.now > c.block + cfg.evidenceLifetime then Some(OutdatedRequest)
    else None
  }

  // ---------------------------------------------------------------- the off-chain worker

  /** What became of one piece of evidence: an error, a failed `unwrap`, or the three fields of the message. */
  datatype Answer = Refused | Trapped | Resolved(pubkey: Bytes, code: Bytes, who: Account)

  /** One signature made by the worker, and what it was made from. */
  datatype Signing = Signing(block: nat, applier: Account, evidence: Bytes, answer: Answer, record: Record, at: nat)

  /** The storage iterator visits every entry of the prefix once, in an order of its own. */
  ghost predicate Enumerates(s: Storage, n: nat, order: seq<Account>) {
    && (forall i :: 0 <= i < |order| ==> (n, order[i]) in s.queue)
    && (forall a :: (n, a) in s.queue ==> a in order)
    && (forall i, j :: 0 <= i < j < |order| ==> order[i] != order[j])
  }

  /** The outside of one worker run: a resolver's answers, the local key if any, and its signatures. */
  datatype Surroundings = Surroundings(isValidator: bool, answers: seq<Answer>, key: Option<Key>, signatures: seq<Signature>)

  function SignOne(entry: (Account, Bytes), n: nat, answer: Answer, key: Option<Key>, signature: Signature, at: nat): seq<Signing> {
    if answer.Resolved? && key.Some? then
      [Signing(n, entry.0, entry.1, answer, Record(Payload(answer.code, answer.who, answer.pubkey, key.value), signature), at)]
    else []
  }

  function Values(s: Storage, n: nat, order: seq<Account>): (r: seq<(Account, Bytes)>)
    requires Enumerates(s, n, order)
    ensures |r| == |order| && forall i :: 0 <= i < |r| ==> r[i] == s.queue[(n, order[i])]
  {
    seq(|order|, i requires 0 <= i < |order| => s.queue[(n, order[i])])
  }

  /** The worker's signatures, entry by entry from the i-th on; a trap ends the run. */
  function WorkerRun(entries: seq<(Account, Bytes)>, n: nat, world: Surroundings, at: nat, i: nat): seq<Signing>
    requires |world.answers| == |world.signatures| == |entries|
    decreases |entries| - i
  {
    if !world.isValidator || i >= |entries| || world.answers[i].Trapped? then []
    else
      SignOne(entries[i], n, world.answers[i], world.key, world.signatures[i], at)
      + WorkerRun(entries, n, world, at, i + 1)
  }

  lemma WorkerStep(entries: seq<(Account, Bytes)>, n: nat, world: Surroundings, at: nat, i: nat)
    requires |world.answers| == |world.signatures| == |entries| && i < |entries| && world.isValidator
    ensures WorkerRun(entries, n, world, at, i)
            == if world.answers[i].Trapped? then []
               else SignOne(entries[i], n, world.answers[i], world.key, world.signatures[i], at) + WorkerRun(entries, n, world, at, i + 1)
  {
  }

  function Calls(signings: seq<Signing>): (r: seq<Submission>)
    ensures |r| == |signings|
    ensures forall i :: 0 <= i < |r| ==> r[i] == Submission(signings[i].block, signings[i].record)
  {
    seq(|signings|, i requires 0 <= i < |signings| => Submission(signings[i].block, signings[i].record))
  }

  lemma CallsMore(made: seq<Signing>, entry: (Account, Bytes), n: nat, answer: Answer, key: Option<Key>, signature: Signature, at: nat)
    ensures Calls(made + SignOne(entry, n, answer, key, signature, at))
            == Calls(made) + if answer.Resolved? && key.Some?
                             then [Submission(n, Record(Payload(answer.code, answer.who, answer.pubkey, key.value), signature))]
                             else []
  {
  }

  // ---------------------------------------------------------------- the pallet as it updates its storage

  class Verifier {
    const cfg: Config
    var blockNumber: nat
    var waitingQueue: map<(nat, Account), (Account, Bytes)>
    var verificationResults: map<(Account, Bytes), seq<Record>>
    var publicKeys: seq<Key>

    ghost function Now(): Storage
      reads this
    {
      Storage(blockNumber, waitingQueue, verificationResults, publicKeys)
    }

    constructor (cfg: Config)
      ensures this.cfg == cfg && blockNumber == 0 && waitingQueue == map[] && verificationResults == map[] && publicKeys == []
    {
      this.cfg := cfg;
      blockNumber, waitingQueue, verificationResults, publicKeys := 0, map[], map[], [];
    }

    method Request(who: Account, evidence: Bytes)
      modifies this`waitingQueue
      ensures Now() == RequestVerification(cfg, old(Now()), who, evidence)
    {
      var due := blockNumber + cfg.verifyDelay;
      waitingQueue := waitingQueue[(due, who) := (who, evidence)];
    }

    method SubmitResultUnsignedWithSignedPayload(r: Record) returns (error: Option<Error>)
      modifies this`verificationResults
      ensures Reply(error, Now()) == SubmitResult(cfg, old(Now()), r)
    {
      if r.payload.public !in publicKeys { return Some(InvalidPublic); }
      var signatureValid := cfg.verify(r);
      if !signatureValid { return Some(InvalidSignature); }
      var place := (r.payload.who, r.payload.pubkey);
      var results := if place in verificationResults then verificationResults[place] else [];
      verificationResults := verificationResults[place := results + [r]];
      return None;
    }

    method AddPubkey(key: Key)
      modifies this`publicKeys
      ensures Now() == RegisterNewPubkey(old(Now()), key)
    {
      publicKeys := publicKeys + [key];
    }

    /** The loop over the queue prefix; `order` is the iterator's order. */
    method OffchainWorker(n: nat, order: seq<Account>, world: Surroundings) returns (sent: seq<Submission>)
      requires Enumerates(Now(), n, order) && |world.answers| == |world.signatures| == |order|
      ensures sent == Calls(WorkerRun(Values(Now(), n, order), n, world, blockNumber, 0))
    {
      hide WorkerRun, SignOne, Calls, Values;
      sent := [];
      ghost var entries, made := Values(Now(), n, order), [];
      WorkerStops(entries, n, world, blockNumber);
      if !world.isValidator { return; }
      for i := 0 to |order|
        invariant sent == Calls(made)
        invariant made + WorkerRun(entries, n, world, blockNumber, i) == WorkerRun(entries, n, world, blockNumber, 0)
      {
        var (applier, evidence) := waitingQueue[(n, order[i])];
        assert entries[i] == (applier, evidence);
        var answer := world.answers[i];
        WorkerStep(entries, n, world, blockNumber, i);
        if answer.Trapped? { return; }
        if answer.Resolved? && world.key.Some? {
          var payload := Payload(answer.code, answer.who, answer.pubkey, world.key.value);
          sent := sent + [Submission(n, Record(payload, world.signatures[i]))];
        }
        ghost var signing := SignOne(entries[i], n, answer, world.key, world.signatures[i], blockNumber);
        CallsMore(made, entries[i], n, answer, world.key, world.signatures[i], blockNumber);
        Associates(made, signing, WorkerRun(entries, n, world, blockNumber, i + 1));
        made := made + signing;
      }
    }
  }

  lemma Associates<T>(a: seq<T>, b: seq<T>, c: seq<T>)
    ensures a + (b + c) == a + b + c && a + [] == a && [] + a == a
  {
  }

  lemma WorkerStops(entries: seq<(Account, Bytes)>, n: nat, world: Surroundings, at: nat)
    requires |world.answers| == |world.signatures| == |entries|
    ensures WorkerRun(entries, n, world, at, |entries|) == [] && Calls([]) == []
    ensures !world.isValidator ==> WorkerRun(entries, n, world, at, 0) == []
  {
  }
}
