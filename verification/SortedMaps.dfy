/**
 `std::map<std::string, V>` as its iteration sequence: entries with strictly increasing keys.
 Keys are compared as `std::string` compares them, byte by byte, a proper prefix coming first.
 */
module SortedMaps {

  datatype Entry<+V> = Entry(key: string, val: V)

  predicate Less(a: string, b: string) {
    && b != ""
    && (a == "" || a[0] < b[0] || (a[0] == b[0] && Less(a[1..], b[1..])))
  }

  lemma {:induction false} LessTrichotomy(a: string, b: string)
    ensures a == b || Less(a, b) || Less(b, a)
    ensures !(Less(a, b) && (a == b || Less(b, a)))
  {
    if a != "" && b != "" {
      LessTrichotomy(a[1..], b[1..]);
      assert a == [a[0]] + a[1..] && b == [b[0]] + b[1..];
    }
  }

  lemma {:induction false} LessTransitive(a: string, b: string, c: string)
    requires Less(a, b) && Less(b, c)
    ensures Less(a, c)
  {
    if a != "" && a[0] == b[0] && b[0] == c[0] {
      LessTransitive(a[1..], b[1..], c[1..]);
    }
  }

  ghost predicate Sorted<V>(m: seq<Entry<V>>) {
    forall i, j :: 0 <= i < j < |m| ==> Less(m[i].key, m[j].key)
  }

  predicate Has<V>(m: seq<Entry<V>>, k: string) {
    exists i :: 0 <= i < |m| && m[i].key == k
  }

  /** `m[k] = v`: overwrites the entry of `k`, or inserts one at its place in the order. */
  function Put<V>(m: seq<Entry<V>>, k: string, v: V): (r: seq<Entry<V>>)
  {
    if m == [] then [Entry(k, v)]
    else if m[0].key == k then [Entry(k, v)] + m[1..]
    else if Less(k, m[0].key) then [Entry(k, v)] + m
    else [m[0]] + Put(m[1..], k, v)
  }

  /** `m.erase(k)` */
  function Remove<V>(m: seq<Entry<V>>, k: string): (r: seq<Entry<V>>)
  {
    if m == [] then []
    else if m[0].key == k then m[1..]
    else [m[0]] + Remove(m[1..], k)
  }

  lemma {:induction false} PutKeys<V>(m: seq<Entry<V>>, k: string, v: V)
    ensures forall e :: e in Put(m, k, v) ==> e.key == k || e in m
    ensures exists i :: 0 <= i < |Put(m, k, v)| && Put(m, k, v)[i] == Entry(k, v)
  {
    if m == [] {
      assert Put(m, k, v)[0] == Entry(k, v);
    } else if m[0].key == k || Less(k, m[0].key) {
      assert Put(m, k, v)[0] == Entry(k, v);
    } else {
      PutKeys(m[1..], k, v);
      var i :| 0 <= i < |Put(m[1..], k, v)| && Put(m[1..], k, v)[i] == Entry(k, v);
      assert Put(m, k, v)[i + 1] == Entry(k, v);
    }
  }

  lemma {:induction false} PutSorted<V>(m: seq<Entry<V>>, k: string, v: V)
    requires Sorted(m)
    ensures Sorted(Put(m, k, v))
  {
    if m != [] {
      LessTrichotomy(k, m[0].key);
      if m[0].key == k {
      } else if Less(k, m[0].key) {
        forall j | 0 <= j < |m| ensures Less(k, m[j].key) {
          if j > 0 { LessTransitive(k, m[0].key, m[j].key); }
        }
      } else {
        PutSorted(m[1..], k, v);
        PutKeys(m[1..], k, v);
        forall j | 0 <= j < |Put(m[1..], k, v)| ensures Less(m[0].key, Put(m[1..], k, v)[j].key) {
          assert Put(m[1..], k, v)[j] in Put(m[1..], k, v);
        }
      }
    }
  }

  /** Putting a key above all others appends. */
  lemma {:induction false} PutLast<V>(m: seq<Entry<V>>, k: string, v: V)
    requires forall i :: 0 <= i < |m| ==> Less(m[i].key, k)
    ensures Put(m, k, v) == m + [Entry(k, v)]
  {
    if m != [] {
      LessTrichotomy(m[0].key, k);
      PutLast(m[1..], k, v);
    }
  }

  /** Putting a present key overwrites its entry and moves nothing. */
  lemma {:induction false} PutAt<V>(m: seq<Entry<V>>, i: nat, v: V)
    requires Sorted(m) && i < |m|
    ensures Put(m, m[i].key, v) == m[i := Entry(m[i].key, v)]
  {
    if i > 0 {
      LessTrichotomy(m[0].key, m[i].key);
      PutAt(m[1..], i - 1, v);
    }
  }

  lemma {:induction false} RemoveAt<V>(m: seq<Entry<V>>, i: nat)
    requires Sorted(m) && i < |m|
    ensures Remove(m, m[i].key) == m[..i] + m[i + 1..]
  {
    if i > 0 {
      LessTrichotomy(m[0].key, m[i].key);
      RemoveAt(m[1..], i - 1);
    }
  }

  /** The byte-wise order: at the first difference the smaller byte, or the end, comes first. */
  lemma {:induction false} LessExactly(a: string, b: string)
    ensures Less(a, b) <==> exists k: nat :: k <= |a| && k < |b| && a[..k] == b[..k] && (k == |a| || a[k] < b[k])
  {
    if b != "" {
      if a == "" || a[0] < b[0] { assert a[..0] == b[..0]; }
      if a != "" && a[0] == b[0] {
        LessExactly(a[1..], b[1..]);
        if k: nat :| k <= |a[1..]| && k < |b[1..]| && a[1..][..k] == b[1..][..k] && (k == |a[1..]| || a[1..][k] < b[1..][k]) {
          assert a[..k + 1] == [a[0]] + a[1..][..k] && b[..k + 1] == [b[0]] + b[1..][..k];
          assert a[..k + 1] == b[..k + 1];
        }
        if k: nat :| k <= |a| && k < |b| && a[..k] == b[..k] && (k == |a| || a[k] < b[k]) {
          assert k > 0;
          assert a[1..][..k - 1] == a[..k][1..] && b[1..][..k - 1] == b[..k][1..];
        }
      } else {
        forall k: nat | 0 < k <= |a| && k < |b| ensures a[..k] != b[..k] {
          assert a[..k][0] == a[0] && b[..k][0] == b[0];
        }
      }
    }
  }

  /** After a put the map is sorted and has the new entry and the old ones under other keys, and no more. */
  lemma {:induction false} PutExactly<V>(m: seq<Entry<V>>, k: string, v: V)
    requires Sorted(m)
    ensures Sorted(Put(m, k, v))
    ensures forall e :: e in Put(m, k, v) <==> e == Entry(k, v) || (e in m && e.key != k)
  {
    PutSorted(m, k, v);
    if m != [] {
      LessTrichotomy(k, m[0].key);
      assert forall e :: e in m <==> e == m[0] || e in m[1..];
      if m[0].key == k {
        assert forall e :: e in [Entry(k, v)] + m[1..] <==> e == Entry(k, v) || e in m[1..];
        forall e | e in m[1..] ensures e.key != k { LessTrichotomy(m[0].key, e.key); }
      } else if Less(k, m[0].key) {
        forall e | e in m ensures e.key != k { NotBelow(m, k, e); }
        assert forall e :: e in [Entry(k, v)] + m <==> e == Entry(k, v) || e in m;
      } else {
        PutExactly(m[1..], k, v);
        assert forall e :: e in [m[0]] + Put(m[1..], k, v) <==> e == m[0] || e in Put(m[1..], k, v);
      }
    }
  }

  lemma NotBelow<V>(m: seq<Entry<V>>, k: string, e: Entry<V>)
    requires Sorted(m) && m != [] && Less(k, m[0].key) && e in m
    ensures e.key != k
  {
    var i :| 0 <= i < |m| && m[i] == e;
    if i > 0 { LessTransitive(k, m[0].key, e.key); }
    LessTrichotomy(k, e.key);
  }

  /** An erasure takes out the entry of the key and nothing else. */
  lemma {:induction false} RemoveExactly<V>(m: seq<Entry<V>>, k: string)
    requires Sorted(m)
    ensures Sorted(Remove(m, k)) && |Remove(m, k)| == |m| - (if Has(m, k) then 1 else 0)
    ensures forall e :: e in Remove(m, k) <==> e in m && e.key != k
  {
    if i: nat :| i < |m| && m[i].key == k {
      RemoveAt(m, i);
      var r := m[..i] + m[i + 1..];
      forall j | 0 <= j < |m| && j != i ensures m[j] in r && m[j].key != k {
        assert r[if j < i then j else j - 1] == m[j];
        LessTrichotomy(m[i].key, m[j].key);
      }
    } else {
      RemoveNone(m, k);
    }
  }

  lemma {:induction false} RemoveNone<V>(m: seq<Entry<V>>, k: string)
    requires forall i :: 0 <= i < |m| ==> m[i].key != k
    ensures Remove(m, k) == m
  {
    if m != [] { RemoveNone(m[1..], k); }
  }
}
