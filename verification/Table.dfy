/** Bucket arrays as values: what they hold, and how doubling redistributes them. */
module Table {
  import opened Bits
  import opened Hashing

  datatype Slot<K, V> = Empty | Full(partial: nat, key: K, value: V)

  type Bucket<K, V> = seq<Slot<K, V>>
  type Buckets<K, V> = seq<Bucket<K, V>>

  ghost predicate Shape<K, V>(bs: Buckets<K, V>, slots: nat, hp: nat) {
    |bs| == Pow2(hp) && forall b :: 0 <= b < |bs| ==> |bs[b]| == slots
  }

  /** Slot s of bucket b holds key k. */
  predicate HasKey<K(==), V>(bs: Buckets<K, V>, b: nat, s: nat, k: K) {
    b < |bs| && s < |bs[b]| && bs[b][s].Full? && bs[b][s].key == k
  }

  predicate OpenSlot<K, V>(bs: Buckets<K, V>, b: nat, s: nat) {
    HasAt(bs, b, s) && bs[b][s].Empty?
  }

  predicate HasAt<K, V>(bs: Buckets<K, V>, b: nat, s: nat) {
    b < |bs| && s < |bs[b]|
  }

  /** Every entry carries its key's partial and sits in a candidate bucket of its key. */
  ghost predicate Placed<K(!new), V>(h: K -> Hash, hp: nat, bs: Buckets<K, V>) {
    forall b: nat, s: nat, k: K :: HasKey(bs, b, s, k) ==>
      bs[b][s].partial == PartialKey(h(k)) && Candidate(hp, h(k), b)
  }

  /** No key occupies two slots. */
  ghost predicate Unique<K(!new), V>(bs: Buckets<K, V>) {
    forall b: nat, s: nat, c: nat, t: nat, k: K :: HasKey(bs, b, s, k) && HasKey(bs, c, t, k) ==> b == c && s == t
  }

  ghost predicate Good<K(!new), V>(h: K -> Hash, slots: nat, hp: nat, bs: Buckets<K, V>) {
    Shape(bs, slots, hp) && Placed(h, hp, bs) && Unique(bs)
  }

  /** The keys held, and the map of keys to values. */
  ghost function Keys<K, V>(bs: Buckets<K, V>): set<K> {
    set b, s | 0 <= b < |bs| && 0 <= s < |bs[b]| && bs[b][s].Full? :: bs[b][s].key
  }

  ghost function Contents<K, V>(bs: Buckets<K, V>): map<K, V> {
    map k | k in Keys(bs) :: ValueOf(bs, k)
  }

  ghost function ValueOf<K, V>(bs: Buckets<K, V>, k: K): V
    requires k in Keys(bs)
  {
    InKeys(bs, k);
    var b: nat, s: nat :| HasKey(bs, b, s, k);
    bs[b][s].value
  }

  /** bs stores exactly the pairs of m. */
  ghost predicate Represents<K(!new), V>(bs: Buckets<K, V>, m: map<K, V>) {
    && (forall b: nat, s: nat, k: K :: HasKey(bs, b, s, k) ==> k in m && m[k] == bs[b][s].value)
    && (forall k: K :: k in m ==> exists b: nat, s: nat :: HasKey(bs, b, s, k))
  }

  lemma {:induction false} InKeys<K, V>(bs: Buckets<K, V>, k: K)
    ensures k in Keys(bs) <==> exists b: nat, s: nat :: HasKey(bs, b, s, k)
  {
    if k in Keys(bs) {
      var b: nat, s: nat :| b < |bs| && s < |bs[b]| && bs[b][s].Full? && bs[b][s].key == k;
      assert HasKey(bs, b, s, k);
    }
    if b: nat, s: nat :| HasKey(bs, b, s, k) {
      assert bs[b][s].key in Keys(bs);
    }
  }

  lemma {:induction false} ContentsRepresents<K(!new), V>(bs: Buckets<K, V>)
    requires Unique(bs)
    ensures Represents(bs, Contents(bs))
  {
    forall k: K ensures k in Keys(bs) <==> exists b: nat, s: nat :: HasKey(bs, b, s, k) { InKeys(bs, k); }
    forall b: nat, s: nat, k: K | HasKey(bs, b, s, k)
      ensures k in Contents(bs) && Contents(bs)[k] == bs[b][s].value
    {
    }
  }

  lemma {:induction false} RepresentsPair<K(!new), V>(bs: Buckets<K, V>, m: map<K, V>, k: K, v: V)
    requires Represents(bs, m)
    ensures k in m && m[k] == v <==> exists b: nat, s: nat :: HasKey(bs, b, s, k) && bs[b][s].value == v
  {
    if k in m {
      var b: nat, s: nat :| HasKey(bs, b, s, k);
    }
  }

  /** Under uniqueness only one map is represented. */
  lemma {:induction false} RepresentsIsContents<K(!new), V>(bs: Buckets<K, V>, m: map<K, V>)
    requires Unique(bs) && Represents(bs, m)
    ensures m == Contents(bs)
  {
    ContentsRepresents(bs);
    var c := Contents(bs);
    forall k: K ensures k in c <==> k in m {
    }
    forall k: K | k in m ensures c[k] == m[k] {
      var b: nat, s: nat :| HasKey(bs, b, s, k);
    }
  }

  function Put<K, V>(bs: Buckets<K, V>, b: nat, s: nat, x: Slot<K, V>): (r: Buckets<K, V>)
    requires b < |bs| && s < |bs[b]|
    ensures |r| == |bs| && forall c :: 0 <= c < |bs| ==> |r[c]| == |bs[c]|
  {
    bs[b := bs[b][s := x]]
  }

  /** r agrees with bs everywhere except in slot (b, s), which now holds x. */
  ghost predicate Elsewhere<K(!new), V>(bs: Buckets<K, V>, r: Buckets<K, V>, b: nat, s: nat, x: Slot<K, V>) {
    && HasAt(bs, b, s) && HasAt(r, b, s) && r[b][s] == x
    && (forall c: nat, t: nat, k: K :: HasKey(r, c, t, k) && !(c == b && t == s) ==>
      HasKey(bs, c, t, k) && r[c][t] == bs[c][t])
    && (forall c: nat, t: nat, k: K :: HasKey(bs, c, t, k) && !(c == b && t == s) ==> HasKey(r, c, t, k))
  }

  lemma {:induction false} PutElsewhere<K(!new), V>(bs: Buckets<K, V>, b: nat, s: nat, x: Slot<K, V>)
    requires HasAt(bs, b, s)
    ensures Elsewhere(bs, Put(bs, b, s, x), b, s, x)
  {
  }

  /** A write keeps placement and uniqueness if the new entry is well placed and its key is nowhere else. */
  lemma {:induction false} WriteIsGood<K(!new), V>(h: K -> Hash, hp: nat, bs: Buckets<K, V>, r: Buckets<K, V>,
                                                   b: nat, s: nat, x: Slot<K, V>)
    requires Placed(h, hp, bs) && Unique(bs) && Elsewhere(bs, r, b, s, x)
    requires x.Full? ==> x.partial == PartialKey(h(x.key)) && Candidate(hp, h(x.key), b)
    requires x.Full? ==> forall c: nat, t: nat :: HasKey(bs, c, t, x.key) ==> c == b && t == s
    ensures Placed(h, hp, r) && Unique(r)
  {
    hide PartialKey, Candidate;
    forall c: nat, t: nat, k: K | HasKey(r, c, t, k)
      ensures r[c][t].partial == PartialKey(h(k)) && Candidate(hp, h(k), c)
    {
      if !(c == b && t == s) { assert HasKey(bs, c, t, k); }
    }
    forall c: nat, t: nat, d: nat, u: nat, k: K | HasKey(r, c, t, k) && HasKey(r, d, u, k) ensures c == d && t == u {
      if !(c == b && t == s) { assert HasKey(bs, c, t, k); }
      if !(d == b && u == s) { assert HasKey(bs, d, u, k); }
    }
  }

  /** A write changes the abstract map only at the old and the new key of its slot. */
  lemma {:induction false} WriteContents<K(!new), V>(bs: Buckets<K, V>, r: Buckets<K, V>, b: nat, s: nat,
      x: Slot<K, V>, m: map<K, V>)
    requires Unique(bs) && Unique(r) && Elsewhere(bs, r, b, s, x) && Represents(bs, m)
    ensures var rest := if bs[b][s].Full? then m - {bs[b][s].key} else m;
      Contents(r) == if x.Full? then rest[x.key := x.value] else rest
  {
    var rest := if bs[b][s].Full? then m - {bs[b][s].key} else m;
    var n := if x.Full? then rest[x.key := x.value] else rest;
    if bs[b][s].Full? { assert HasKey(bs, b, s, bs[b][s].key); }
    forall c: nat, t: nat, k: K | HasKey(r, c, t, k) ensures k in n && n[k] == r[c][t].value {
      if x.Full? { assert HasKey(r, b, s, x.key); }
      if !(c == b && t == s) { assert HasKey(bs, c, t, k); }
    }
    forall k: K | k in n ensures exists c: nat, t: nat :: HasKey(r, c, t, k) {
      if x.Full? && k == x.key {
        assert HasKey(r, b, s, k);
      } else {
        var c: nat, t: nat :| HasKey(bs, c, t, k);
        assert HasKey(r, c, t, k);
      }
    }
    RepresentsIsContents(r, n);
  }

  /** Filling an empty candidate slot adds one pair. */
  lemma {:induction false} AddEntry<K(!new), V>(h: K -> Hash, slots: nat, hp: nat, bs: Buckets<K, V>,
                                                b: nat, s: nat, k: K, v: V)
    requires Good(h, slots, hp, bs) && OpenSlot(bs, b, s)
    requires Candidate(hp, h(k), b) && k !in Contents(bs)
    ensures var r := Put(bs, b, s, Full(PartialKey(h(k)), k, v));
      Good(h, slots, hp, r) && Contents(r) == Contents(bs)[k := v] && |Contents(r)| == |Contents(bs)| + 1
  {
    hide Contents, PartialKey, Candidate, Elsewhere;
    var x := Full(PartialKey(h(k)), k, v);
    var r := Put(bs, b, s, x);
    ContentsRepresents(bs);
    PutElsewhere(bs, b, s, x);
    WriteIsGood(h, hp, bs, r, b, s, x);
    WriteContents(bs, r, b, s, x, Contents(bs));
  }

  lemma {:induction false} CountRemove<K, V>(m: map<K, V>, k: K)
    requires k in m
    ensures |m - {k}| == |m| - 1
  {
    assert (m - {k})[k := m[k]] == m;
  }

  /** Emptying a slot removes its key. */
  lemma {:induction false} EraseEntry<K(!new), V>(h: K -> Hash, slots: nat, hp: nat, bs: Buckets<K, V>,
                                                  b: nat, s: nat, k: K)
    requires Good(h, slots, hp, bs) && HasKey(bs, b, s, k)
    ensures var r := Put(bs, b, s, Empty);
      && Good(h, slots, hp, r) && k in Contents(bs)
      && Contents(r) == Contents(bs) - {k} && |Contents(r)| == |Contents(bs)| - 1
  {
    hide Contents, PartialKey, Candidate, Elsewhere;
    var r := Put(bs, b, s, Empty);
    ContentsRepresents(bs);
    PutElsewhere(bs, b, s, Empty);
    WriteIsGood(h, hp, bs, r, b, s, Empty);
    WriteContents(bs, r, b, s, Empty, Contents(bs));
    CountRemove(Contents(bs), k);
  }

  /** Overwriting the value of a present key. */
  lemma {:induction false} UpdateEntry<K(!new), V>(h: K -> Hash, slots: nat, hp: nat, bs: Buckets<K, V>,
                                                   b: nat, s: nat, k: K, v: V)
    requires Good(h, slots, hp, bs) && HasKey(bs, b, s, k)
    ensures var r := Put(bs, b, s, bs[b][s].(value := v));
      && Good(h, slots, hp, r) && k in Contents(bs)
      && Contents(r) == Contents(bs)[k := v] && |Contents(r)| == |Contents(bs)|
  {
    hide Contents, PartialKey, Candidate, Elsewhere;
    var x, m := bs[b][s].(value := v), Contents(bs);
    var r := Put(bs, b, s, x);
    ContentsRepresents(bs);
    PutElsewhere(bs, b, s, x);
    WriteIsGood(h, hp, bs, r, b, s, x);
    WriteContents(bs, r, b, s, x, m);
    CountRemove(m, k);
    assert (m - {k})[k := v] == m[k := v];
  }

  /** One displacement: the entry in slot s of bucket b goes to an empty slot t of bucket c. */
  function Displace<K, V>(bs: Buckets<K, V>, b: nat, s: nat, c: nat, t: nat): (r: Buckets<K, V>)
    requires b < |bs| && s < |bs[b]| && c < |bs| && t < |bs[c]|
    ensures |r| == |bs| && forall d :: 0 <= d < |bs| ==> |r[d]| == |bs[d]|
  {
    Put(Put(bs, c, t, bs[b][s]), b, s, Empty)
  }

  /** r is bs with the entry at (b, s) now at (c, t). */
  ghost predicate Moved<K(!new), V>(bs: Buckets<K, V>, r: Buckets<K, V>, b: nat, s: nat, c: nat, t: nat) {
    && HasAt(bs, b, s) && HasAt(bs, c, t) && bs[b][s].Full? && bs[c][t].Empty?
    && HasAt(r, c, t) && r[c][t] == bs[b][s]
    && (forall k: K :: !HasKey(r, b, s, k))
    && (forall d: nat, u: nat, k: K :: HasKey(r, d, u, k) && !(d == c && u == t) ==>
      HasKey(bs, d, u, k) && r[d][u] == bs[d][u])
    && (forall d: nat, u: nat, k: K :: HasKey(bs, d, u, k) && !(d == b && u == s) ==> HasKey(r, d, u, k))
  }

  lemma {:induction false} DisplaceMoves<K(!new), V>(bs: Buckets<K, V>, b: nat, s: nat, c: nat, t: nat)
    requires HasAt(bs, b, s) && bs[b][s].Full? && OpenSlot(bs, c, t)
    ensures Moved(bs, Displace(bs, b, s, c, t), b, s, c, t)
  {
    var mid := Put(bs, c, t, bs[b][s]);
    PutElsewhere(bs, c, t, bs[b][s]);
    PutElsewhere(mid, b, s, Empty);
    assert forall k: K :: !HasKey(Put(mid, b, s, Empty), b, s, k);
  }

  lemma {:induction false} MovedKeeps<K(!new), V>(h: K -> Hash, hp: nat, bs: Buckets<K, V>, r: Buckets<K, V>,
                                                  b: nat, s: nat, c: nat, t: nat)
    requires Placed(h, hp, bs) && Unique(bs) && Moved(bs, r, b, s, c, t)
    requires c == AltIndex(hp, bs[b][s].partial, b)
    ensures Placed(h, hp, r) && Unique(r)
  {
    var key := bs[b][s].key;
    assert HasKey(bs, b, s, key);
    AltOfCandidate(hp, h(key), b);
    forall d: nat, u: nat, k: K | HasKey(r, d, u, k)
      ensures r[d][u].partial == PartialKey(h(k)) && Candidate(hp, h(k), d)
    {
      if d == c && u == t { assert k == key; } else { assert HasKey(bs, d, u, k); }
    }
    forall d: nat, u: nat, e: nat, w: nat, k: K | HasKey(r, d, u, k) && HasKey(r, e, w, k) ensures d == e && u == w {
      if !(d == c && u == t) { assert HasKey(bs, d, u, k); }
      if !(e == c && w == t) { assert HasKey(bs, e, w, k); }
    }
  }

  lemma {:induction false} MovedContents<K(!new), V>(bs: Buckets<K, V>, r: Buckets<K, V>, b: nat, s: nat, c: nat,
      t: nat)
    requires Unique(bs) && Unique(r) && Moved(bs, r, b, s, c, t)
    ensures Contents(r) == Contents(bs)
  {
    var m := Contents(bs);
    ContentsRepresents(bs);
    assert HasKey(bs, b, s, bs[b][s].key);
    forall j: K | j in m ensures exists d: nat, u: nat :: HasKey(r, d, u, j) {
      var d: nat, u: nat :| HasKey(bs, d, u, j);
      assert if d == b && u == s then HasKey(r, c, t, j) else HasKey(r, d, u, j);
    }
    RepresentsIsContents(r, m);
  }

  /** Displacing an entry to its alternate bucket loses nothing and duplicates nothing. */
  lemma {:induction false} DisplaceKeeps<K(!new), V>(h: K -> Hash, slots: nat, hp: nat, bs: Buckets<K, V>,
                                                     b: nat, s: nat, c: nat, t: nat)
    requires Good(h, slots, hp, bs)
    requires b < |bs| && s < |bs[b]| && bs[b][s].Full?
    requires c == AltIndex(hp, bs[b][s].partial, b) && c < |bs| && t < |bs[c]| && bs[c][t].Empty?
    ensures Good(h, slots, hp, Displace(bs, b, s, c, t))
    ensures Contents(Displace(bs, b, s, c, t)) == Contents(bs)
  {
    DisplaceMoves(bs, b, s, c, t);
    var r := Displace(bs, b, s, c, t);
    MovedKeeps(h, hp, bs, r, b, s, c, t);
    MovedContents(bs, r, b, s, c, t);
  }

  /** Writing into one of two replaced buckets. */
  lemma {:induction false} PutInPair<K, V>(bs: Buckets<K, V>, i: nat, j: nat, x: Bucket<K, V>, y: Bucket<K, V>,
                                           s: nat, e: Slot<K, V>)
    requires i < |bs| && j < |bs| && i != j
    ensures s < |x| ==> Put(bs[i := x][j := y], i, s, e) == bs[i := x[s := e]][j := y]
    ensures s < |y| ==> Put(bs[i := x][j := y], j, s, e) == bs[i := x][j := y[s := e]]
  {
  }

  lemma {:induction false} PairShape<K, V>(bs: Buckets<K, V>, i: nat, j: nat, x: Bucket<K, V>, y: Bucket<K, V>,
                                           slots: nat, hp: nat)
    requires Shape(bs, slots, hp) && i < |bs| && j < |bs| && i != j && |x| == slots && |y| == slots
    ensures Shape(bs[i := x][j := y], slots, hp)
    ensures bs[i := x][j := y][i] == x && bs[i := x][j := y][j] == y
  {
  }
}
