/** Ordered objects over whole histories: the order in which iterating the sorted map lists the keys. */
module OrderedHistories {
  import opened Escapes
  import opened OrderedObjects

  // ---------------------------------------------------------------- whole histories

  datatype Op<+V> = Set(key: string, val: V) | Delete(key: string)

  function Do<V>(m: Maps<V>, op: Op<V>, dflt: V): Maps<V> {
    match op
    case Set(k, v) => AssignMaps(m, k, v, dflt)
    case Delete(k) => EraseMaps(m, k)
  }

  function Run<V>(ops: seq<Op<V>>, dflt: V): Maps<V> {
    if ops == [] then Empty() else Do(Run(ops[..|ops| - 1], dflt), ops[|ops| - 1], dflt)
  }

  /** `k` was set and not deleted since. */
  predicate Alive<V>(ops: seq<Op<V>>, k: string) {
    ops != [] &&
    var last := ops[|ops| - 1];
    if last.key == k then last.Set? else Alive(ops[..|ops| - 1], k)
  }

  /** The position of the operation that last made `k` alive. */
  function BornAt<V>(ops: seq<Op<V>>, k: string): (p: nat)
    requires Alive(ops, k)
    ensures p < |ops| && ops[p].Set? && ops[p].key == k && !Alive(ops[..p], k)
  {
    var before := ops[..|ops| - 1];
    if Alive(before, k) then
      var p := BornAt(before, k);
      assert before[..p] == ops[..p];
      p
    else |ops| - 1
  }

  /** The value `k` was last set to. */
  function LatestValue<V>(ops: seq<Op<V>>, k: string): (v: V)
    requires Alive(ops, k)
    ensures Set(k, v) in ops
  {
    var last := ops[|ops| - 1];
    if last.key == k then last.val else LatestValue(ops[..|ops| - 1], k)
  }

  /** A key is set again or deleted while it is alive only if escaping leaves it alone. */
  ghost predicate CleanOps<V>(ops: seq<Op<V>>) {
    forall j :: 0 <= j < |ops| ==> (Alive(ops[..j], ops[j].key) ==> Clean(ops[j].key))
  }

  lemma CleanBefore<V>(ops: seq<Op<V>>)
    requires CleanOps(ops) && ops != []
    ensures var before, op := ops[..|ops| - 1], ops[|ops| - 1];
            CleanOps(before) && (Alive(before, op.key) ==> Clean(op.key)) && before + [op] == ops
  {
    hide Alive;
    var before := ops[..|ops| - 1];
    forall j | 0 <= j < |before| && Alive(before[..j], before[j].key) ensures Clean(before[j].key) {
      assert before[..j] == ops[..j];
    }
  }

  /** The slots hold exactly the live keys with their latest values, in the order they were born. */
  ghost predicate History<V>(ops: seq<Op<V>>, slots: seq<Slot<V>>) {
    && (forall i :: 0 <= i < |slots| ==> Alive(ops, slots[i].key) && slots[i].val == LatestValue(ops, slots[i].key))
    && (forall k :: Alive(ops, k) ==> Live(slots, k))
    && (forall i, j :: 0 <= i < j < |slots| ==> BornAt(ops, slots[i].key) < BornAt(ops, slots[j].key))
  }

  function SlotsAfter<V>(slots: seq<Slot<V>>, op: Op<V>): seq<Slot<V>> {
    if !Live(slots, op.key) then
      if op.Set? then slots + [Slot(NextNumber(slots), op.key, op.val)] else slots
    else
      var i := PositionOf(slots, op.key);
      if op.Set? then slots[i := slots[i].(val := op.val)] else slots[..i] + slots[i + 1..]
  }

  function PositionOf<V>(slots: seq<Slot<V>>, key: string): (i: nat)
    requires Live(slots, key)
    ensures i < |slots| && slots[i].key == key
  {
    if slots[0].key == key then 0
    else
      assert Live(slots[1..], key) by {
        var i :| 0 <= i < |slots| && slots[i].key == key;
        assert slots[1..][i - 1].key == key;
      }
      1 + PositionOf(slots[1..], key)
  }

  lemma StepRep<V>(m: Maps<V>, slots: seq<Slot<V>>, op: Op<V>, dflt: V)
    requires Rep(m, slots) && (Live(slots, op.key) ==> Clean(op.key))
    ensures Rep(Do(m, op, dflt), SlotsAfter(slots, op))
  {
    if Live(slots, op.key) {
      var i := PositionOf(slots, op.key);
      if op.Set? { AssignOld(m, slots, i, op.val, dflt); } else { EraseOld(m, slots, i); }
    } else if op.Set? {
      AssignNew(m, slots, op.key, op.val, dflt);
    }
  }

  lemma HistoryStep<V>(ops: seq<Op<V>>, op: Op<V>, k: string)
    ensures Alive(ops + [op], k) <==> if op.key == k then op.Set? else Alive(ops, k)
    ensures Alive(ops + [op], k) ==>
              && BornAt(ops + [op], k) == (if Alive(ops, k) then BornAt(ops, k) else |ops|)
              && LatestValue(ops + [op], k) == (if op.key == k then op.val else LatestValue(ops, k))
  {
    assert (ops + [op])[..|ops|] == ops;
  }

  lemma InsertHistory<V>(ops: seq<Op<V>>, slots: seq<Slot<V>>, n: nat, key: string, v: V)
    requires History(ops, slots) && !Live(slots, key)
    ensures History(ops + [Set(key, v)], slots + [Slot(n, key, v)])
  {
    var op := Set(key, v);
    var slots' := slots + [Slot(n, key, v)];
    forall i | 0 <= i < |slots'| ensures Alive(ops + [op], slots'[i].key) && slots'[i].val == LatestValue(ops + [op], slots'[i].key)
      && (i < |slots| ==> BornAt(ops + [op], slots'[i].key) == BornAt(ops, slots[i].key))
      && (i == |slots| ==> BornAt(ops + [op], slots'[i].key) == |ops|)
    {
      HistoryStep(ops, op, slots'[i].key);
    }
    forall k | Alive(ops + [op], k) ensures Live(slots', k) {
      HistoryStep(ops, op, k);
      if k == key {
        assert slots'[|slots|].key == k;
      } else {
        var i :| 0 <= i < |slots| && slots[i].key == k;
        assert slots'[i].key == k;
      }
    }
  }

  lemma UpdateHistory<V>(ops: seq<Op<V>>, slots: seq<Slot<V>>, p: nat, v: V)
    requires History(ops, slots) && DistinctKeys(slots) && p < |slots|
    ensures History(ops + [Set(slots[p].key, v)], slots[p := slots[p].(val := v)])
  {
    var op := Set(slots[p].key, v);
    var slots' := slots[p := slots[p].(val := v)];
    forall i | 0 <= i < |slots'| ensures Alive(ops + [op], slots'[i].key) && slots'[i].val == LatestValue(ops + [op], slots'[i].key)
      && BornAt(ops + [op], slots'[i].key) == BornAt(ops, slots[i].key)
    {
      HistoryStep(ops, op, slots'[i].key);
    }
    forall k | Alive(ops + [op], k) ensures Live(slots', k) {
      HistoryStep(ops, op, k);
      var i :| 0 <= i < |slots| && slots[i].key == k;
      assert slots'[i].key == k;
    }
  }

  /** Deleting one key changes nothing for the others. */
  lemma OtherKeyHistory<V>(ops: seq<Op<V>>, s: Slot<V>, key: string)
    requires Alive(ops, s.key) && s.val == LatestValue(ops, s.key) && s.key != key
    ensures Alive(ops + [Delete(key)], s.key) && s.val == LatestValue(ops + [Delete(key)], s.key)
    ensures BornAt(ops + [Delete(key)], s.key) == BornAt(ops, s.key)
  {
    HistoryStep(ops, Delete(key), s.key);
  }

  lemma DeleteHistory<V>(ops: seq<Op<V>>, slots: seq<Slot<V>>, p: nat)
    requires History(ops, slots) && DistinctKeys(slots) && p < |slots|
    ensures History(ops + [Delete(slots[p].key)], slots[..p] + slots[p + 1..])
  {
    hide Alive, LatestValue, BornAt;
    var key := slots[p].key;
    var slots' := slots[..p] + slots[p + 1..];
    forall i | 0 <= i < |slots'|
      ensures Alive(ops + [Delete(key)], slots'[i].key) && slots'[i].val == LatestValue(ops + [Delete(key)], slots'[i].key)
      ensures BornAt(ops + [Delete(key)], slots'[i].key) == BornAt(ops, slots[if i < p then i else i + 1].key)
    {
      OtherKeyHistory(ops, slots[if i < p then i else i + 1], key);
    }
    forall k | Alive(ops + [Delete(key)], k) ensures Live(slots', k) {
      HistoryStep(ops, Delete(key), k);
      LiveAfterDrop(slots, p, k);
    }
  }

  lemma IdleHistory<V>(ops: seq<Op<V>>, slots: seq<Slot<V>>, key: string)
    requires History(ops, slots) && !Live(slots, key)
    ensures History(ops + [Delete(key)], slots)
  {
    forall i | 0 <= i < |slots| ensures Alive(ops + [Delete(key)], slots[i].key) && slots[i].val == LatestValue(ops + [Delete(key)], slots[i].key)
      && BornAt(ops + [Delete(key)], slots[i].key) == BornAt(ops, slots[i].key)
    {
      HistoryStep(ops, Delete(key), slots[i].key);
    }
    forall k | Alive(ops + [Delete(key)], k) ensures Live(slots, k) {
      HistoryStep(ops, Delete(key), k);
    }
  }

  lemma StepHistory<V>(ops: seq<Op<V>>, slots: seq<Slot<V>>, op: Op<V>)
    requires History(ops, slots) && DistinctKeys(slots)
    ensures History(ops + [op], SlotsAfter(slots, op))
  {
    if Live(slots, op.key) {
      var p := PositionOf(slots, op.key);
      if op.Set? { UpdateHistory(ops, slots, p, op.val); } else { DeleteHistory(ops, slots, p); }
    } else if op.Set? {
      InsertHistory(ops, slots, NextNumber(slots), op.key, op.val);
    } else {
      IdleHistory(ops, slots, op.key);
    }
  }

  lemma EmptyInvariant<V>()
    ensures Rep(Empty<V>(), []) && History<V>([], [])
  {
  }

  lemma StepInvariant<V>(ops: seq<Op<V>>, m: Maps<V>, slots: seq<Slot<V>>, op: Op<V>, dflt: V)
    requires Rep(m, slots) && History(ops, slots) && (Alive(ops, op.key) ==> Clean(op.key))
    ensures Rep(Do(m, op, dflt), SlotsAfter(slots, op)) && History(ops + [op], SlotsAfter(slots, op))
  {
    if Live(slots, op.key) {
      var i :| 0 <= i < |slots| && slots[i].key == op.key;
      assert Alive(ops, slots[i].key);
    }
    StepRep(m, slots, op, dflt);
    assert DistinctKeys(slots);
    StepHistory(ops, slots, op);
  }

  lemma {:induction false} RunInvariant<V>(ops: seq<Op<V>>, dflt: V) returns (slots: seq<Slot<V>>)
    requires CleanOps(ops)
    ensures Rep(Run(ops, dflt), slots) && History(ops, slots)
  {
    hide Rep, History, SlotsAfter, Do, CleanOps, Alive;
    if ops == [] {
      slots := [];
      EmptyInvariant<V>();
    } else {
      var before, op := ops[..|ops| - 1], ops[|ops| - 1];
      CleanBefore(ops);
      var prev := RunInvariant(before, dflt);
      StepInvariant(before, Run(before, dflt), prev, op, dflt);
      slots := SlotsAfter(prev, op);
    }
  }

  /**
   Insertion order on a sorted map. After any sequence of assignments and erasures that touches a
   live key only if escaping leaves it alone, iterating the sorted map lists exactly the live keys with their latest
   values, in the order of their latest first insertion.
   */
  lemma InsertionOrder<V>(ops: seq<Op<V>>, dflt: V)
    requires CleanOps(ops)
    ensures var list := Listing(Run(ops, dflt).vals);
            && (forall i :: 0 <= i < |list| ==> Alive(ops, list[i].key) && list[i].val == LatestValue(ops, list[i].key))
            && (forall k :: Alive(ops, k) ==> exists i :: 0 <= i < |list| && list[i].key == k)
            && (forall i, j :: 0 <= i < j < |list| ==> BornAt(ops, list[i].key) < BornAt(ops, list[j].key))
  {
    hide Rep, Run;
    var slots := RunInvariant(ops, dflt);
    ListingIsEntries(Run(ops, dflt), slots);
    ListedHistory(ops, slots);
  }

  lemma ListedHistory<V>(ops: seq<Op<V>>, slots: seq<Slot<V>>)
    requires History(ops, slots)
    ensures var list := Entries(slots);
            && (forall i :: 0 <= i < |list| ==> Alive(ops, list[i].key) && list[i].val == LatestValue(ops, list[i].key))
            && (forall k :: Alive(ops, k) ==> exists i :: 0 <= i < |list| && list[i].key == k)
            && (forall i, j :: 0 <= i < j < |list| ==> BornAt(ops, list[i].key) < BornAt(ops, list[j].key))
  {
    var list := Entries(slots);
    forall k | Alive(ops, k) ensures exists i :: 0 <= i < |list| && list[i].key == k {
      var i :| 0 <= i < |slots| && slots[i].key == k;
      assert list[i].key == k;
    }
  }

  /** Without erasures the i-th live key carries the i-th tag. */
  lemma {:induction false} TagsWithoutErase<V>(ops: seq<Op<V>>, dflt: V, i: nat)
    requires CleanOps(ops) && forall j :: 0 <= j < |ops| ==> ops[j].Set?
    requires i < |Run(ops, dflt).vals|
    ensures var rkey := Run(ops, dflt).vals[i].key;
            rkey[..DashAt(rkey)] == Nines(i / 10) + [Digit(i % 10)]
  {
    var slots := NumberedWithoutErase(ops, dflt);
    RKeyParts(slots[i].n, slots[i].key);
    TagClosedForm(i);
  }

  lemma {:induction false} NumberedWithoutErase<V>(ops: seq<Op<V>>, dflt: V) returns (slots: seq<Slot<V>>)
    requires CleanOps(ops) && forall j :: 0 <= j < |ops| ==> ops[j].Set?
    ensures Rep(Run(ops, dflt), slots) && History(ops, slots)
    ensures forall i :: 0 <= i < |slots| ==> slots[i].n == i
  {
    hide Rep, Do, History, CleanOps, Alive;
    if ops == [] {
      slots := [];
      EmptyInvariant<V>();
    } else {
      var before := ops[..|ops| - 1];
      CleanBefore(ops);
      var prev := NumberedWithoutErase(before, dflt);
      StepInvariant(before, Run(before, dflt), prev, ops[|ops| - 1], dflt);
      slots := SlotsAfter(prev, ops[|ops| - 1]);
    }
  }
}
