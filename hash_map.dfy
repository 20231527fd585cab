/** The chained hash map of c-libs/hashmap/RND_HashMap.c: an array of `size`
    buckets, each an RND_LinkedList of (key, value) pair records, and a hash
    function that picks the bucket of a key.

    Every operation takes the map by a pointer that may be NULL, so the
    methods below take a nullable `HashMap?`. */
module HashMap {
  import opened Callbacks
  import opened CTypes
  import LinkedList

  /** A key: the bytes of a C string before its terminating NUL, so none
      of them is 0. */
  type Key = k: seq<Byte> | forall i :: 0 <= i < |k| ==> k[i] != 0

  type Positive = n: nat | 0 < n witness 1

  /** One `char` of the key as the `size_t c` it is read into: the signed
      `char` is converted modulo 2^64, so a byte of 0x80 or more becomes a
      value near 2^64. */
  function Widen(b: Byte): (w: nat)
    ensures w < WORD
    ensures w % 0x100 == b
    ensures b < 0x80 <==> w < 0x80
  {
    AsSignedChar(b) % WORD
  }

  /** The djb2 state once the loop has consumed `key`: it starts at 5381 and
      each character sets h to h * 33 + c, wrapping modulo 2^64. */
  function Djb2(key: Key): (h: nat)
    ensures h < WORD
  {
    if key == [] then 5381 else (Djb2(key[..|key| - 1]) * 33 + Widen(key[|key| - 1])) % WORD
  }

  /** RND_hashMapDefaultHashFunction as a value: after the loop the state is
      multiplied by 33 once more (plus the NUL, 0) and reduced modulo the
      number of buckets, so it always names a bucket. */
  function DefaultHash(key: Key, size: Positive): (b: nat)
    ensures b < size
  {
    (Djb2(key) * 33 % WORD) % size
  }

  /** RND_hashMapDefaultHashFunction, the loop itself. */
  method DefaultHashFunction(key: Key, size: Positive) returns (r: nat)
    ensures r == DefaultHash(key, size)
    ensures r < size
  {
    var ret: nat := 5381;
    var i := 0;
    while i < |key|
      invariant i <= |key|
      invariant ret == Djb2(key[..i])
    {
      assert key[..i + 1][..i] == key[..i];
      // ((ret << 5) + ret) + c, every step modulo 2^64
      ModAddLeft(ret * 32, ret + Widen(key[i]), WORD);
      ret := ((ret * 32) % WORD + ret + Widen(key[i])) % WORD;
      i := i + 1;
    }
    assert key[..i] == key;
    var c := 0;  // the NUL that ended the loop
    r := ((ret * 33 + c) % WORD) % size;
  }

  /** RND_HashMapPair: a copy of the key and the user's value pointer. */
  datatype Entry<V> = Entry(key: Key, value: V)

  /** The position of the first pair in `bucket` whose key is `key`, or the
      bucket's length when there is none. */
  function FirstKey<V>(bucket: seq<Entry<V>>, key: Key): (q: nat)
    ensures q <= |bucket|
    ensures forall j :: 0 <= j < q ==> bucket[j].key != key
    ensures q < |bucket| ==> bucket[q].key == key
  {
    if bucket == [] || bucket[0].key == key then 0 else 1 + FirstKey(bucket[1..], key)
  }

  /** The value of the first pair in `bucket` whose key is `key`. */
  function Find<V>(bucket: seq<Entry<V>>, key: Key): Option<V>
  {
    var q := FirstKey(bucket, key);
    if q < |bucket| then Some(bucket[q].value) else None
  }

  /** All pairs, bucket after bucket, each bucket in list order. */
  function Flatten<V>(bs: seq<seq<Entry<V>>>): seq<Entry<V>>
  {
    if bs == [] then [] else Flatten(bs[..|bs| - 1]) + bs[|bs| - 1]
  }

  class HashMap<V> {
    /** The number of buckets. */
    const size: Positive
    /** The hash function; it must name a bucket for every key. */
    const hash: (Key, Positive) -> nat
    /** `data`: bucket i holds the pairs of its linked list in list order. */
    const buckets: array<seq<Entry<V>>>

    ghost predicate Valid()
      reads this
    {
      buckets.Length == size && forall k: Key :: hash(k, size) < size
    }

    /** RND_hashMapCreate: `size` empty buckets, hashed with `hash` or, when
        it is NULL, with the default djb2 function. */
    constructor Create(size: Positive, hash: Option<(Key, Positive) -> nat>)
      requires hash.Some? ==> forall k: Key :: hash.value(k, size) < size
      ensures Valid() && fresh(buckets)
      ensures this.size == size
      ensures this.hash == (if hash.Some? then hash.value else DefaultHash)
      ensures forall i :: 0 <= i < size ==> buckets[i] == []
    {
      this.size := size;
      var h: (Key, Positive) -> nat := DefaultHash;
      if hash.Some? {
        h := hash.value;
      }
      this.hash := h;
      var data := new seq<Entry<V>>[size];
      for i := 0 to size
        invariant forall j :: 0 <= j < i ==> data[j] == []
      {
        data[i] := [];
      }
      buckets := data;
    }
  }

  /** RND_hashMapAdd: 1 for a NULL map; otherwise append (key, value) to the
      end of bucket hash(key) without looking for an equal key, and answer 0. */
  method Add<V>(m: HashMap?<V>, key: Key, value: V) returns (rc: int)
    requires m != null ==> m.Valid()
    modifies if m != null then {m.buckets} else {}
    ensures m == null ==> rc == 1
    ensures m != null ==> rc == 0
    ensures m != null ==>
              var b := m.hash(key, m.size);
              m.buckets[..] == old(m.buckets[..])[b := old(m.buckets[b]) + [Entry(key, value)]]
  {
    if m == null {
      return 1;
    }
    var index := m.hash(key, m.size);
    // RND_linkedListAdd on the bucket's list
    m.buckets[index] := m.buckets[index] + [Entry(key, value)];
    rc := 0;
  }

  /** RND_hashMapGet: NULL for a NULL map; otherwise the value of the first
      pair of bucket hash(key) whose key equals `key`, or NULL. */
  method Get<V>(m: HashMap?<V>, key: Key) returns (r: Option<V>)
    requires m != null ==> m.Valid()
    ensures m == null ==> r == None
    ensures m != null ==> r == Find(m.buckets[m.hash(key, m.size)], key)
  {
    if m == null {
      return None;
    }
    var index := m.hash(key, m.size);
    var list := m.buckets[index];
    var i := 0;
    while i < |list|
      invariant i <= |list|
      invariant forall j :: 0 <= j < i ==> list[j].key != key
    {
      if list[i].key == key {
        FirstKeyUnique(list, key, i);
        return Some(list[i].value);
      }
      i := i + 1;
    }
    FirstKeyUnique(list, key, i);
    r := None;
  }

  /** RND_hashMapRemove: 1 for a NULL map, 3 when bucket hash(key) has no
      pair with that key. Otherwise the first such pair is removed through
      RND_linkedListRemove at its position q, and the answer is 2 when that
      call fails, else 0. At q == 0 the list unlinks the head without running
      the destructor, so that removal always succeeds. */
  method Remove<V>(m: HashMap?<V>, key: Key, dtor: Dtor<Entry<V>>) returns (rc: int)
    requires m != null ==> m.Valid()
    modifies if m != null then {m.buckets} else {}
    ensures m == null ==> rc == 1
    ensures m != null ==>
              var p := m.hash(key, m.size);
              var b := old(m.buckets[p]);
              var q := FirstKey(b, key);
              var outcome := LinkedList.RemoveOutcome(b, q, dtor);
              && rc == (if q == |b| then 3 else if outcome.0 != 0 then 2 else 0)
              && m.buckets[..] == old(m.buckets[..])[p := outcome.1]
  {
    if m == null {
      return 1;
    }
    var p := m.hash(key, m.size);
    var list := m.buckets[p];
    var q := 0;
    while q < |list|
      invariant q <= |list|
      invariant forall j :: 0 <= j < q ==> list[j].key != key
    {
      if list[q].key == key {
        FirstKeyUnique(list, key, q);
        var outcome := LinkedList.RemoveOutcome(list, q, dtor);
        m.buckets[p] := outcome.1;
        return if outcome.0 != 0 then 2 else 0;
      }
      q := q + 1;
    }
    FirstKeyUnique(list, key, q);
    rc := 3;
  }

  /** RND_hashMapSize: 0 for a NULL map, otherwise the sum of the bucket
      lengths, which is the number of pairs stored. */
  method Size<V>(m: HashMap?<V>) returns (n: nat)
    requires m != null ==> m.Valid()
    ensures n == (if m == null then 0 else |Flatten(m.buckets[..])|)
  {
    if m == null {
      return 0;
    }
    n := 0;
    for i := 0 to m.size
      invariant n == |Flatten(m.buckets[..i])|
    {
      FlattenSnoc(m.buckets[..], i);
      // RND_linkedListSize on bucket i
      n := n + |m.buckets[i]|;
    }
    assert m.buckets[..m.size] == m.buckets[..];
  }

  /** RND_hashMapIndex: NULL for a NULL map; otherwise the pair at position
      `index` of all buckets read in bucket order, or NULL past the end. */
  method Index<V>(m: HashMap?<V>, index: nat) returns (r: Option<Entry<V>>)
    requires m != null ==> m.Valid()
    ensures m == null ==> r == None
    ensures m != null ==>
              var all := Flatten(m.buckets[..]);
              r == (if index < |all| then Some(all[index]) else None)
  {
    if m == null {
      return None;
    }
    ghost var bs := m.buckets[..];
    var p, q, s := 0, 0, 0;
    while p <= index && q < m.size
      invariant q <= m.size
      invariant p == |Flatten(bs[..q])|
      invariant s == (if q == 0 then 0 else |bs[q - 1]|)
      invariant q > 0 ==> p - s <= index
    {
      FlattenSnoc(bs, q);
      s := |m.buckets[q]|;
      p := p + s;
      q := q + 1;
    }
    // size > 0 and p starts at 0 <= index, so the loop ran at least once.
    FlattenSnoc(bs, q - 1);
    FlattenPrefix(bs, q);
    assert bs[..m.size] == bs;
    // s - (p - index) in size_t; when p <= index this wraps back to
    // s + (index - p), which is never below s
    var offset: nat := s - (p - index);
    // RND_linkedListGet on bucket q - 1
    var list := m.buckets[q - 1];
    r := if offset < |list| then Some(list[offset]) else None;
  }

  /** The only position with FirstKey's properties is FirstKey. */
  lemma FirstKeyUnique<V>(bucket: seq<Entry<V>>, key: Key, q: nat)
    requires q <= |bucket|
    requires forall j :: 0 <= j < q ==> bucket[j].key != key
    requires q < |bucket| ==> bucket[q].key == key
    ensures FirstKey(bucket, key) == q
  {
  }

  lemma FlattenSnoc<V>(bs: seq<seq<Entry<V>>>, q: nat)
    requires q < |bs|
    ensures Flatten(bs[..q + 1]) == Flatten(bs[..q]) + bs[q]
  {
    assert bs[..q + 1][..q] == bs[..q];
  }

  /** The pairs of the first q buckets come first in the whole sequence. */
  lemma {:induction false} FlattenPrefix<V>(bs: seq<seq<Entry<V>>>, q: nat)
    requires q <= |bs|
    ensures |Flatten(bs[..q])| <= |Flatten(bs)|
    ensures forall i :: 0 <= i < |Flatten(bs[..q])| ==> Flatten(bs)[i] == Flatten(bs[..q])[i]
    decreases |bs| - q
  {
    if q == |bs| {
      assert bs[..q] == bs;
    } else {
      var init := bs[..|bs| - 1];
      assert init[..q] == bs[..q];
      FlattenPrefix(init, q);
    }
  }

  /** Add stores one more pair: Size grows by exactly 1. */
  lemma {:induction false} AddGrowsSize<V>(bs: seq<seq<Entry<V>>>, b: nat, e: Entry<V>)
    requires b < |bs|
    ensures |Flatten(bs[b := bs[b] + [e]])| == |Flatten(bs)| + 1
  {
    var bs' := bs[b := bs[b] + [e]];
    var n := |bs| - 1;
    assert bs'[..n] == if b == n then bs[..n] else bs[..n][b := bs[b] + [e]];
    if b < n {
      AddGrowsSize(bs[..n], b, e);
    }
  }

  /** Get after Add: the key that was added is found, but a key already
      present keeps its first-added value; other keys are unaffected. */
  lemma AddThenFind<V>(bucket: seq<Entry<V>>, e: Entry<V>, key: Key)
    ensures Find(bucket + [e], key)
            == if Find(bucket, key).Some? then Find(bucket, key)
               else if e.key == key then Some(e.value)
               else None
  {
    var q := FirstKey(bucket, key);
    var b' := bucket + [e];
    if q < |bucket| {
      FirstKeyUnique(b', key, q);
    } else if e.key == key {
      FirstKeyUnique(b', key, |bucket|);
    } else {
      FirstKeyUnique(b', key, |b'|);
    }
  }

  /** A successful Remove of `key` uncovers the next pair with that key, if
      any: an earlier duplicate's removal exposes the later value. */
  lemma RemoveThenFind<V>(bucket: seq<Entry<V>>, key: Key)
    requires FirstKey(bucket, key) < |bucket|
    ensures var q := FirstKey(bucket, key);
            Find(Without(bucket, q), key) == Find(bucket[q + 1..], key)
  {
    var q := FirstKey(bucket, key);
    var front, rest := bucket[..q], bucket[q + 1..];
    assert Without(bucket, q) == front + rest;
    FindSkip(front, rest, key);
  }

  /** Pairs with other keys ahead of a bucket do not change what Find
      answers for `key`. */
  lemma FindSkip<V>(a: seq<Entry<V>>, b: seq<Entry<V>>, key: Key)
    requires forall j :: 0 <= j < |a| ==> a[j].key != key
    ensures Find(a + b, key) == Find(b, key)
  {
    FirstKeySkip(a, b, key);
    var k := FirstKey(b, key);
    if k < |b| {
      assert (a + b)[|a| + k] == b[k];
    }
  }

  /** Pairs with other keys ahead of a bucket only shift where its first
      `key` pair sits. */
  lemma {:induction false} FirstKeySkip<V>(a: seq<Entry<V>>, b: seq<Entry<V>>, key: Key)
    requires forall j :: 0 <= j < |a| ==> a[j].key != key
    ensures FirstKey(a + b, key) == |a| + FirstKey(b, key)
  {
    if a == [] {
      assert a + b == b;
    } else {
      assert (a + b)[1..] == a[1..] + b;
      FirstKeySkip(a[1..], b, key);
    }
  }

  /** Index, read for every position below Size, enumerates exactly the
      buckets in order: position i falls in the first bucket whose running
      total passes i. */
  lemma {:induction false} FlattenAt<V>(bs: seq<seq<Entry<V>>>, q: nat, i: nat)
    requires q < |bs|
    requires |Flatten(bs[..q])| <= i < |Flatten(bs[..q])| + |bs[q]|
    ensures i < |Flatten(bs)|
    ensures Flatten(bs)[i] == bs[q][i - |Flatten(bs[..q])|]
  {
    FlattenSnoc(bs, q);
    FlattenPrefix(bs, q + 1);
  }
}
