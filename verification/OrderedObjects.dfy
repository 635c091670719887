/**
 The first-in-order object: insertion order simulated on a sorted map by a decimal tag in front
 of each key. `vals` is the sorted map FIO_VAL (stored key to value, in iteration order) and
 `keys` is FIO_KEY (user key to stored key).
 */
module OrderedObjects {
  import opened SortedMaps
  import opened Escapes

  // ---------------------------------------------------------------- stored keys

  const SEPARATOR := '-'

  predicate IsDigit(c: char) { '0' <= c <= '9' }

  predicate IsNumber(s: string) {
    s != "" && forall i :: 0 <= i < |s| ==> IsDigit(s[i])
  }

  /** `find_first_of("-")`, with the length standing for `npos`. */
  function DashAt(s: string): (p: nat)
    ensures p <= |s|
    ensures forall i :: 0 <= i < p ==> s[i] != SEPARATOR
    ensures p < |s| ==> s[p] == SEPARATOR
  {
    if s == "" || s[0] == SEPARATOR then 0 else 1 + DashAt(s[1..])
  }

  /** What iteration shows for a stored key: everything after the first dash. */
  function Strip(rkey: string): string {
    if DashAt(rkey) == |rkey| then rkey else rkey[DashAt(rkey) + 1..]
  }

  /** The successor of a tag: add one to the last digit, or append a zero after a nine. */
  function NextTag(tag: string): string
    requires tag != ""
  {
    var l := |tag| - 1;
    if tag[l] >= '9' then tag + "0"
    else tag[..l] + [(tag[l] as int + 1) as char]
  }

  predicate Tagged(rkey: string) {
    DashAt(rkey) < |rkey| && IsNumber(rkey[..DashAt(rkey)])
  }

  /** The stored key of a new user key: one above the last tagged entry. */
  function FreshKey<V>(vals: seq<Entry<V>>, key: string): string {
    if vals == [] then "0" + [SEPARATOR] + key
    else
      var last := vals[|vals| - 1].key;
      if Tagged(last) then NextTag(last[..DashAt(last)]) + [SEPARATOR] + key
      else FreshKey(vals[..|vals| - 1], key)
  }

  // ---------------------------------------------------------------- operations on the two maps

  datatype Maps<V> = Maps(keys: map<string, string>, vals: seq<Entry<V>>)

  function Empty<V>(): Maps<V> { Maps(map[], []) }

  /** The stored key that `operator[]` uses. A key found in FIO_KEY comes back through ToString, which escapes it. */
  function StoredKey<V>(m: Maps<V>, key: string): string {
    if key in m.keys then Escape(m.keys[key]) else FreshKey(m.vals, key)
  }

  /** `operator[](key)`, with `dflt` the value of a new slot. */
  function IndexMaps<V>(m: Maps<V>, key: string, dflt: V): Maps<V> {
    var rkey := StoredKey(m, key);
    Maps(if key in m.keys then m.keys else m.keys[key := rkey],
         if Has(m.vals, rkey) then m.vals else Put(m.vals, rkey, dflt))
  }

  /** `object[key] = v` */
  function AssignMaps<V>(m: Maps<V>, key: string, v: V, dflt: V): Maps<V> {
    Maps(IndexMaps(m, key, dflt).keys, Put(IndexMaps(m, key, dflt).vals, StoredKey(m, key), v))
  }

  /** `object.erase(key)` */
  function EraseMaps<V>(m: Maps<V>, key: string): Maps<V> {
    if key in m.keys then Maps(m.keys - {key}, Remove(m.vals, Escape(m.keys[key]))) else m
  }

  /** What FIOObjectRange lists. */
  function Listing<V>(vals: seq<Entry<V>>): (r: seq<Entry<V>>)
    ensures |r| == |vals|
    ensures forall i :: 0 <= i < |vals| ==> r[i] == Entry(Strip(vals[i].key), vals[i].val)
  {
    seq(|vals|, i requires 0 <= i < |vals| => Entry(Strip(vals[i].key), vals[i].val))
  }

  // ---------------------------------------------------------------- tags are numbers in disguise

  function Digit(d: nat): (c: char)
    requires d < 10
    ensures IsDigit(c) && c as int == '0' as int + d
  {
    (d + '0' as int) as char
  }

  /** The n-th tag: 0..9, 90..99, 990.. */
  function Tag(n: nat): (t: string)
    ensures IsNumber(t)
  {
    if n < 10 then [Digit(n)] else "9" + Tag(n - 10)
  }

  function Nines(n: nat): (s: string) {
    if n == 0 then "" else "9" + Nines(n - 1)
  }

  lemma {:induction false} TagClosedForm(n: nat)
    ensures Tag(n) == Nines(n / 10) + [Digit(n % 10)]
  {
    if n >= 10 {
      TagClosedForm(n - 10);
      assert (n - 10) / 10 == n / 10 - 1 && (n - 10) % 10 == n % 10;
      assert "9" + (Nines(n / 10 - 1) + [Digit(n % 10)]) == ("9" + Nines(n / 10 - 1)) + [Digit(n % 10)];
    }
  }

  lemma {:induction false} NextTagCounts(n: nat)
    ensures NextTag(Tag(n)) == Tag(n + 1)
  {
    if n >= 10 {
      NextTagCounts(n - 10);
      var t := Tag(n - 10);
      assert Tag(n) == "9" + t;
      assert n + 1 - 10 == (n - 10) + 1;
      assert NextTag("9" + t) == "9" + NextTag(t);
    } else if n == 9 {
      assert Tag(10) == "9" + Tag(0);
    }
  }

  function RKey(n: nat, key: string): string { Tag(n) + [SEPARATOR] + key }

  lemma {:induction false} LessSamePrefix(c: char, a: string, b: string)
    ensures Less([c] + a, [c] + b) <==> Less(a, b)
  {
    assert ([c] + a)[1..] == a && ([c] + b)[1..] == b;
  }

  /** Stored keys sort by tag number; this is where '-' < '0' matters. */
  lemma {:induction false} RKeyOrder(m: nat, n: nat, x: string, y: string)
    requires m < n
    ensures Less(RKey(m, x), RKey(n, y))
  {
    if m >= 10 {
      RKeyOrder(m - 10, n - 10, x, y);
      assert RKey(m, x) == ['9'] + RKey(m - 10, x);
      assert RKey(n, y) == ['9'] + RKey(n - 10, y);
      LessSamePrefix('9', RKey(m - 10, x), RKey(n - 10, y));
    } else if n >= 10 {
      assert RKey(n, y)[0] == '9';
      if m == 9 {
        assert IsDigit(Tag(n - 10)[0]);
        assert RKey(n, y)[1..][0] == Tag(n - 10)[0];
        assert RKey(m, x)[1..][0] == SEPARATOR;
      }
    }
  }

  lemma RKeyParts(n: nat, key: string)
    ensures DashAt(RKey(n, key)) == |Tag(n)|
    ensures RKey(n, key)[..|Tag(n)|] == Tag(n)
    ensures Strip(RKey(n, key)) == key
    ensures Tagged(RKey(n, key))
  {
    var r := RKey(n, key);
    assert forall i :: 0 <= i < |Tag(n)| ==> r[i] == Tag(n)[i] && IsDigit(r[i]);
    assert r[|Tag(n)|] == SEPARATOR;
  }

  lemma EscapeRKey(n: nat, key: string)
    ensures Escape(RKey(n, key)) == RKey(n, Escape(key))
  {
    var t := Tag(n) + [SEPARATOR];
    assert Clean(t) by {
      hide Tag;
      assert forall i :: 0 <= i < |Tag(n)| ==> t[i] == Tag(n)[i] && IsDigit(t[i]);
    }
    EscapeFixpoint(t);
    hide Escape;
    EscapeConcat(t, key);
    assert RKey(n, key) == t + key;
  }

  // ---------------------------------------------------------------- the abstract object

  /** One live key: its tag number, the key and its value. */
  datatype Slot<+V> = Slot(n: nat, key: string, val: V)

  function Stored<V>(s: Slot<V>): Entry<V> { Entry(RKey(s.n, s.key), s.val) }

  function StoredAll<V>(slots: seq<Slot<V>>): (r: seq<Entry<V>>)
    ensures |r| == |slots|
    ensures forall i :: 0 <= i < |slots| ==> r[i] == Stored(slots[i])
  {
    seq(|slots|, i requires 0 <= i < |slots| => Stored(slots[i]))
  }

  ghost predicate Increasing<V>(slots: seq<Slot<V>>) {
    forall i, j :: 0 <= i < j < |slots| ==> slots[i].n < slots[j].n
  }

  ghost predicate DistinctKeys<V>(slots: seq<Slot<V>>) {
    forall i, j :: 0 <= i < j < |slots| ==> slots[i].key != slots[j].key
  }

  ghost predicate ValsRep<V>(vals: seq<Entry<V>>, slots: seq<Slot<V>>) {
    vals == StoredAll(slots) && Increasing(slots)
  }

  ghost predicate KeysRep<V>(keys: map<string, string>, slots: seq<Slot<V>>) {
    && DistinctKeys(slots)
    && (forall i :: 0 <= i < |slots| ==> slots[i].key in keys && keys[slots[i].key] == RKey(slots[i].n, slots[i].key))
    && (forall k :: k in keys ==> Live(slots, k))
  }

  predicate Live<V>(slots: seq<Slot<V>>, key: string) {
    exists i :: 0 <= i < |slots| && slots[i].key == key
  }

  /** FIO_KEY and FIO_VAL are in bijection, and the tags increase along the list. */
  ghost predicate Rep<V>(m: Maps<V>, slots: seq<Slot<V>>) {
    ValsRep(m.vals, slots) && KeysRep(m.keys, slots)
  }

  lemma ValsSorted<V>(vals: seq<Entry<V>>, slots: seq<Slot<V>>)
    requires ValsRep(vals, slots)
    ensures Sorted(vals)
  {
    forall i, j | 0 <= i < j < |vals| ensures Less(vals[i].key, vals[j].key) {
      RKeyOrder(slots[i].n, slots[j].n, slots[i].key, slots[j].key);
    }
  }

  /** A new key gets the tag after the last live one, so it sorts above everything. */
  lemma FreshIsNext<V>(m: Maps<V>, slots: seq<Slot<V>>, key: string)
    requires Rep(m, slots)
    ensures FreshKey(m.vals, key) == RKey(if slots == [] then 0 else slots[|slots| - 1].n + 1, key)
  {
    if slots != [] {
      var s := slots[|slots| - 1];
      RKeyParts(s.n, s.key);
      NextTagCounts(s.n);
    }
  }

  /** The list that the object stands for: keys and values in order. */
  function Entries<V>(slots: seq<Slot<V>>): (r: seq<Entry<V>>)
    ensures |r| == |slots|
    ensures forall i :: 0 <= i < |slots| ==> r[i] == Entry(slots[i].key, slots[i].val)
  {
    seq(|slots|, i requires 0 <= i < |slots| => Entry(slots[i].key, slots[i].val))
  }

  /** Iterating the sorted map lists the live keys in slot order. */
  lemma ListingIsEntries<V>(m: Maps<V>, slots: seq<Slot<V>>)
    requires Rep(m, slots)
    ensures Listing(m.vals) == Entries(slots)
  {
    forall i | 0 <= i < |slots| ensures Listing(m.vals)[i] == Entries(slots)[i] {
      RKeyParts(slots[i].n, slots[i].key);
    }
  }

  function NextNumber<V>(slots: seq<Slot<V>>): nat {
    if slots == [] then 0 else slots[|slots| - 1].n + 1
  }

  // ---------------------------------------------------------------- one operation

  lemma InsertVals<V>(vals: seq<Entry<V>>, slots: seq<Slot<V>>, key: string, v: V, dflt: V)
    requires ValsRep(vals, slots)
    ensures var rkey := RKey(NextNumber(slots), key);
            && !Has(vals, rkey)
            && ValsRep(Put(Put(vals, rkey, dflt), rkey, v), slots + [Slot(NextNumber(slots), key, v)])
  {
    var n := NextNumber(slots);
    var rkey := RKey(n, key);
    forall i | 0 <= i < |vals| ensures Less(vals[i].key, rkey) && vals[i].key != rkey {
      RKeyOrder(slots[i].n, n, slots[i].key, key);
      LessTrichotomy(vals[i].key, rkey);
    }
    PutLast(vals, rkey, dflt);
    var put := vals + [Entry(rkey, dflt)];
    assert Sorted(put) by { ValsSorted(vals, slots); }
    PutAt(put, |vals|, v);
    assert put[|vals| := Entry(rkey, v)] == StoredAll(slots + [Slot(n, key, v)]);
  }

  lemma InsertKeys<V>(keys: map<string, string>, slots: seq<Slot<V>>, n: nat, key: string, v: V)
    requires KeysRep(keys, slots) && key !in keys
    ensures KeysRep(keys[key := RKey(n, key)], slots + [Slot(n, key, v)])
  {
    var slots' := slots + [Slot(n, key, v)];
    assert slots'[|slots|].key == key;
    forall k | k in keys ensures Live(slots', k) {
      var i :| 0 <= i < |slots| && slots[i].key == k;
      assert slots'[i].key == k;
    }
  }

  /** Inserting a new key, whatever its characters: it goes to the end of the list. */
  lemma AssignNew<V>(m: Maps<V>, slots: seq<Slot<V>>, key: string, v: V, dflt: V)
    requires Rep(m, slots) && key !in m.keys
    ensures Rep(AssignMaps(m, key, v, dflt), slots + [Slot(NextNumber(slots), key, v)])
  {
    FreshIsNext(m, slots, key);
    InsertVals(m.vals, slots, key, v, dflt);
    InsertKeys(m.keys, slots, NextNumber(slots), key, v);
  }

  /** A key without special characters is found again under its own stored key. */
  lemma CleanStoredKey<V>(m: Maps<V>, slots: seq<Slot<V>>, i: nat)
    requires Rep(m, slots) && i < |slots| && Clean(slots[i].key)
    ensures slots[i].key in m.keys && Escape(m.keys[slots[i].key]) == m.vals[i].key
    ensures Sorted(m.vals)
  {
    EscapeRKey(slots[i].n, slots[i].key);
    EscapeFixpoint(slots[i].key);
    ValsSorted(m.vals, slots);
  }

  lemma UpdateKeys<V>(keys: map<string, string>, slots: seq<Slot<V>>, i: nat, v: V)
    requires KeysRep(keys, slots) && i < |slots|
    ensures KeysRep(keys, slots[i := slots[i].(val := v)])
  {
    var slots' := slots[i := slots[i].(val := v)];
    forall k | k in keys ensures Live(slots', k) {
      var j :| 0 <= j < |slots| && slots[j].key == k;
      assert slots'[j].key == k;
    }
  }

  lemma UpdateVals<V>(vals: seq<Entry<V>>, slots: seq<Slot<V>>, i: nat, v: V)
    requires ValsRep(vals, slots) && i < |slots|
    ensures ValsRep(Put(vals, vals[i].key, v), slots[i := slots[i].(val := v)])
  {
    ValsSorted(vals, slots);
    hide RKey;
    PutAt(vals, i, v);
    assert vals[i := Entry(vals[i].key, v)] == StoredAll(slots[i := slots[i].(val := v)]);
  }

  /** Assigning to a live key without special characters overwrites in place. */
  lemma AssignOld<V>(m: Maps<V>, slots: seq<Slot<V>>, i: nat, v: V, dflt: V)
    requires Rep(m, slots) && i < |slots| && Clean(slots[i].key)
    ensures Rep(AssignMaps(m, slots[i].key, v, dflt), slots[i := slots[i].(val := v)])
  {
    CleanStoredKey(m, slots, i);
    UpdateVals(m.vals, slots, i, v);
    UpdateKeys(m.keys, slots, i, v);
  }

  lemma LiveAfterDrop<V>(slots: seq<Slot<V>>, p: nat, k: string)
    requires p < |slots| && Live(slots, k) && k != slots[p].key
    ensures Live(slots[..p] + slots[p + 1..], k)
  {
    var i :| 0 <= i < |slots| && slots[i].key == k;
    assert (slots[..p] + slots[p + 1..])[if i < p then i else i - 1].key == k;
  }

  lemma DropKeys<V>(keys: map<string, string>, slots: seq<Slot<V>>, i: nat)
    requires KeysRep(keys, slots) && i < |slots|
    ensures KeysRep(keys - {slots[i].key}, slots[..i] + slots[i + 1..])
  {
    hide RKey;
    var slots' := slots[..i] + slots[i + 1..];
    forall k | k in keys - {slots[i].key} ensures Live(slots', k) {
      LiveAfterDrop(slots, i, k);
    }
  }

  lemma DropVals<V>(vals: seq<Entry<V>>, slots: seq<Slot<V>>, i: nat)
    requires ValsRep(vals, slots) && i < |slots|
    ensures ValsRep(Remove(vals, vals[i].key), slots[..i] + slots[i + 1..])
  {
    ValsSorted(vals, slots);
    hide RKey;
    RemoveAt(vals, i);
    assert vals[..i] + vals[i + 1..] == StoredAll(slots[..i] + slots[i + 1..]);
  }

  lemma EraseOld<V>(m: Maps<V>, slots: seq<Slot<V>>, i: nat)
    requires Rep(m, slots) && i < |slots| && Clean(slots[i].key)
    ensures Rep(EraseMaps(m, slots[i].key), slots[..i] + slots[i + 1..])
  {
    CleanStoredKey(m, slots, i);
    DropVals(m.vals, slots, i);
    DropKeys(m.keys, slots, i);
  }

  lemma RKeyInjective(n: nat, m: nat, x: string, y: string)
    requires RKey(n, x) == RKey(m, y)
    ensures x == y
  {
    RKeyParts(n, x);
    RKeyParts(m, y);
  }

  /** Looking up a live key that escaping changes: the entry it adds, and where. */
  lemma OrphanAdded<V>(m: Maps<V>, slots: seq<Slot<V>>, i: nat, dflt: V) returns (p: nat)
    requires Rep(m, slots) && i < |slots| && !Clean(slots[i].key)
    ensures var key, m' := slots[i].key, IndexMaps(m, slots[i].key, dflt);
            && key in m.keys && m'.keys == m.keys
            && p < |m'.vals| && m'.vals[p].key == RKey(slots[i].n, Escape(key))
  {
    hide Escape, RKey, ValsRep;
    var key := slots[i].key;
    assert m.keys[key] == RKey(slots[i].n, key) && Live(slots, key);
    EscapeRKey(slots[i].n, key);
    PutKeys(m.vals, RKey(slots[i].n, Escape(key)), dflt);
    var m' := IndexMaps(m, key, dflt);
    p :| 0 <= p < |m'.vals| && m'.vals[p].key == RKey(slots[i].n, Escape(key));
  }

  /** A slot with that entry's stored key has its tag, and a key of its own. */
  lemma OrphanOwner<V>(slots: seq<Slot<V>>, p: nat, n: nat, key: string)
    requires p < |slots| && RKey(slots[p].n, slots[p].key) == RKey(n, key)
    ensures slots[p].key == key && slots[p].n == n
  {
    hide RKey;
    RKeyInjective(slots[p].n, n, slots[p].key, key);
    SameTag(slots[p].n, n, key, key);
  }

  lemma RepAt<V>(m: Maps<V>, slots: seq<Slot<V>>, p: nat)
    requires Rep(m, slots) && p < |m.vals|
    ensures p < |slots| && m.vals[p].key == RKey(slots[p].n, slots[p].key)
    ensures slots[p].key in m.keys && m.keys[slots[p].key] == m.vals[p].key
  {
    hide RKey;
  }

  lemma RepKey<V>(m: Maps<V>, slots: seq<Slot<V>>, key: string) returns (q: nat)
    requires Rep(m, slots) && key in m.keys
    ensures q < |slots| && slots[q].key == key && m.keys[key] == RKey(slots[q].n, key)
  {
    hide RKey;
    assert Live(slots, key);
    q :| 0 <= q < |slots| && slots[q].key == key;
  }

  /** So it leaves an entry in FIO_VAL that no key owns. */
  lemma LostBijection<V>(m: Maps<V>, slots: seq<Slot<V>>, i: nat, dflt: V, s: seq<Slot<V>>)
    requires Rep(m, slots) && i < |slots| && !Clean(slots[i].key)
    ensures !Rep(IndexMaps(m, slots[i].key, dflt), s)
  {
    hide Escape, RKey, IndexMaps;
    var key, m' := slots[i].key, IndexMaps(m, slots[i].key, dflt);
    var p := OrphanAdded(m, slots, i, dflt);
    EscapeFixpoint(key);
    if Rep(m', s) {
      RepAt(m', s, p);
      OrphanOwner(s, p, slots[i].n, Escape(key));
      var q := RepKey(m, slots, Escape(key));
      OrphanOwner(slots, q, slots[i].n, Escape(key));
    }
  }

  lemma SameTag(n: nat, m: nat, x: string, y: string)
    requires RKey(n, x) == RKey(m, y)
    ensures n == m
  {
    LessTrichotomy(RKey(n, x), RKey(m, y));
    if n < m { RKeyOrder(n, m, x, y); }
    if m < n { RKeyOrder(m, n, y, x); }
  }

  /**
   Looking up a live key again finds its own slot exactly when escaping leaves the key alone;
   otherwise no bijection describes the result any more.
   */
  lemma RepeatedLookup<V>(m: Maps<V>, slots: seq<Slot<V>>, i: nat, dflt: V)
    requires Rep(m, slots) && i < |slots|
    ensures Clean(slots[i].key) <==> IndexMaps(m, slots[i].key, dflt) == m
    ensures Clean(slots[i].key) <==> exists s: seq<Slot<V>> :: Rep(IndexMaps(m, slots[i].key, dflt), s)
  {
    if Clean(slots[i].key) {
      CleanStoredKey(m, slots, i);
      assert Rep(IndexMaps(m, slots[i].key, dflt), slots);
    } else {
      forall s: seq<Slot<V>> ensures !Rep(IndexMaps(m, slots[i].key, dflt), s) {
        LostBijection(m, slots, i, dflt, s);
      }
    }
  }

  /** The stored key that is looked for when the i-th key is erased is in FIO_VAL only if escaping leaves the key alone. */
  lemma EscapedNotStored<V>(m: Maps<V>, slots: seq<Slot<V>>, i: nat, p: nat)
    requires Rep(m, slots) && i < |slots| && !Clean(slots[i].key) && p < |m.vals|
    ensures m.vals[p].key != RKey(slots[i].n, Escape(slots[i].key))
  {
    hide RKey, Escape;
    var n, key := slots[i].n, slots[i].key;
    EscapeFixpoint(key);
    RepAt(m, slots, p);
    if m.vals[p].key == RKey(n, Escape(key)) { OrphanOwner(slots, p, n, Escape(key)); }
  }

  /** Erasing always forgets the key; its entry goes with it exactly if escaping leaves the key alone. */
  lemma EraseExactly<V>(m: Maps<V>, slots: seq<Slot<V>>, i: nat)
    requires Rep(m, slots) && i < |slots|
    ensures var key := slots[i].key;
            EraseMaps(m, key) == Maps(m.keys - {key}, if Clean(key) then m.vals[..i] + m.vals[i + 1..] else m.vals)
  {
    hide RKey, Escape;
    var n, key := slots[i].n, slots[i].key;
    assert m.keys[key] == RKey(n, key) && m.vals[i].key == RKey(n, key);
    EscapeRKey(n, key);
    EscapeFixpoint(key);
    if Clean(key) {
      ValsSorted(m.vals, slots);
      RemoveAt(m.vals, i);
    } else {
      forall p | 0 <= p < |m.vals| ensures m.vals[p].key != RKey(n, Escape(key)) { EscapedNotStored(m, slots, i, p); }
      RemoveNone(m.vals, RKey(n, Escape(key)));
    }
  }

  /** Erasing a key that is not live changes nothing. */
  lemma EraseNothing<V>(m: Maps<V>, slots: seq<Slot<V>>, key: string)
    requires Rep(m, slots) && !Live(slots, key)
    ensures EraseMaps(m, key) == m
  {
  }

  lemma QuoteEscapes()
    ensures Escape("0-\"") == "0-\\\"" && Less("0-\"", "0-\\\"") && !Less("0-\\\"", "0-\"")
  {
    EscapeConcat("0-", "\"");
    assert Escape("\"") == "\\\"" by { assert "\""[1..] == ""; }
    assert Escape("0-") == "0-" by { assert "0-"[1..] == "-" && "-"[1..] == ""; }
    assert "0-\"" == "0-" + "\"" && "0-\\\"" == "0-" + "\\\"";
    LessSamePrefix('-', "\"", "\\\"");
    LessSamePrefix('0', "-\"", "-\\\"");
    assert "0-\"" == ['0'] + "-\"" && "0-\\\"" == ['0'] + "-\\\"";
    assert "-\"" == ['-'] + "\"" && "-\\\"" == ['-'] + "\\\"";
    LessTrichotomy("0-\"", "0-\\\"");
  }

  /** A key that is a quotation mark, assigned and looked up again: one key, two entries. */
  lemma QuotedKeyDoubles<V>(v: V, dflt: V)
    ensures var m := AssignMaps(Empty(), "\"", v, dflt);
            var m' := IndexMaps(m, "\"", dflt);
            && m == Maps(map["\"" := "0-\""], [Entry("0-\"", v)])
            && m' == Maps(map["\"" := "0-\""], [Entry("0-\"", v), Entry("0-\\\"", dflt)])
  {
    hide Escape, Less;
    assert FreshKey<V>([], "\"") == "0-\"";
    assert [Entry("0-\"", dflt)][1..] == [];
    var m := AssignMaps(Empty(), "\"", v, dflt);
    assert m == Maps(map["\"" := "0-\""], [Entry("0-\"", v)]);
    QuoteEscapes();
    assert StoredKey(m, "\"") == "0-\\\"";
    assert [Entry("0-\"", v)][1..] == [] && "0-\"" != "0-\\\"";
    assert Put(m.vals, "0-\\\"", dflt) == [Entry("0-\"", v), Entry("0-\\\"", dflt)];
    assert !Has(m.vals, "0-\\\"");
  }

  lemma FreshStart<V>(vals: seq<Entry<V>>, key: string)
    ensures vals[..|vals|] == vals && FreshKey<V>([], key) == "0" + [SEPARATOR] + key
  {
  }

  /** One pass of the reverse walk. */
  lemma FreshStep<V>(vals: seq<Entry<V>>, r: nat, key: string)
    requires 0 < r <= |vals|
    ensures var last := vals[r - 1].key;
            FreshKey(vals[..r], key)
            == if DashAt(last) < |last| && IsNumber(last[..DashAt(last)]) then NextTag(last[..DashAt(last)]) + [SEPARATOR] + key
               else FreshKey(vals[..r - 1], key)
    ensures vals[..0] == []
  {
    hide DashAt, NextTag;
    assert vals[..r][..r - 1] == vals[..r - 1];
  }

  lemma NumberNotEmpty(tag: string)
    requires IsNumber(tag)
    ensures tag != "" && tag[|tag| - 1] as int < 128
  {
  }

  // ---------------------------------------------------------------- the object as the library updates it

  class OrderedObject<V> {
    var keys: map<string, string>
    var vals: seq<Entry<V>>

    ghost function State(): Maps<V>
      reads this
    {
      Maps(keys, vals)
    }

    constructor ()
      ensures State() == Empty<V>()
    {
      keys, vals := map[], [];
    }

    /** The reverse walk over FIO_VAL that picks the tag of a new key. */
    method NewStoredKey(key: string) returns (rkey: string)
      ensures rkey == FreshKey(vals, key)
    {
      hide FreshKey, DashAt, IsNumber;
      rkey := "0" + [SEPARATOR] + key;
      var r := |vals|;
      FreshStart(vals, key);
      while r > 0
        invariant 0 <= r <= |vals|
        invariant rkey == "0" + [SEPARATOR] + key
        invariant FreshKey(vals, key) == FreshKey(vals[..r], key)
      {
        FreshStep(vals, r, key);
        var tkey := vals[r - 1].key;
        var spos := DashAt(tkey);
        if spos != |tkey| {
          var tag := tkey[..spos];
          if IsNumber(tag) {
            NumberNotEmpty(tag);
            var lpos := |tag| - 1;
            if tag[lpos] >= '9' {
              tag := tag + "0";
            } else {
              tag := tag[lpos := (tag[lpos] as int + 1) as char];
            }
            rkey := tag + [SEPARATOR] + key;
            return;
          }
        }
        r := r - 1;
      }
    }

    /** `operator[]`: finds or creates the slot of `key` and returns its stored key. */
    method Index(key: string, dflt: V) returns (rkey: string)
      modifies this
      ensures rkey == StoredKey(old(State()), key)
      ensures State() == IndexMaps(old(State()), key, dflt)
    {
      if key in keys {
        rkey := JsonEscape(keys[key]);
      } else {
        rkey := NewStoredKey(key);
        keys := keys[key := rkey];
      }
      if !Has(vals, rkey) {
        vals := Put(vals, rkey, dflt);
      }
    }

    /** `object[key] = v` */
    method Assign(key: string, v: V, dflt: V)
      modifies this
      ensures State() == AssignMaps(old(State()), key, v, dflt)
    {
      var rkey := Index(key, dflt);
      vals := Put(vals, rkey, v);
    }

    method Erase(key: string)
      modifies this
      ensures State() == EraseMaps(old(State()), key)
    {
      if key in keys {
        var rkey := JsonEscape(keys[key]);
        keys := keys - {key};
        vals := Remove(vals, rkey);
      }
    }

    method FIOObjectRange() returns (list: seq<Entry<V>>)
      ensures list == Listing(vals)
    {
      list := [];
      for i := 0 to |vals|
        invariant list == Listing(vals)[..i]
      {
        var s := vals[i].key;
        var p := DashAt(s);
        s := if p == |s| then s else s[p + 1..];
        list := list + [Entry(s, vals[i].val)];
      }
    }
  }
}
