/** The sorted linked-list priority queue of c-libs/priorityqueue/RND_PriorityQueue.c
    (and its identical copy c-libs/priorityqueueLL/RND_PriorityQueueLL.c).

    The queue handle `RND_PriorityQueue **queue` points at the head node; the
    class below holds the node contents from head to tail in `elems`, and each
    pointer walk of the C code is a loop over an index into `elems`. */
module PriorityQueue {
  import opened Callbacks

  /** RND_PriorityQueuePair: the user's data pointer and its priority. */
  datatype Pair<T> = Pair(data: T, priority: int)

  /** What the destructor is handed. Pop and Clear pass the user data
      (`node->data->data`); Remove passes the pair record (`node->data`). */
  datatype DtorArg<T> = UserData(data: T) | PairRecord(pair: Pair<T>)

  /** Priorities read from head to tail never decrease. */
  predicate NonDecreasing<T>(s: seq<Pair<T>>)
  {
    forall i, j :: 0 <= i < j < |s| ==> s[i].priority <= s[j].priority
  }

  /** Where Push's scan stops: the first node whose priority is strictly
      greater than `p`, or the end of the list. */
  function ScanStop<T>(s: seq<Pair<T>>, p: int): (k: nat)
    ensures k <= |s|
    ensures forall i :: 0 <= i < k ==> s[i].priority <= p
    ensures k < |s| ==> s[k].priority > p
  {
    if s == [] || s[0].priority > p then 0 else 1 + ScanStop(s[1..], p)
  }

  /** The node sequence after pushing `x`: linked in where the scan stopped. */
  function Pushed<T>(s: seq<Pair<T>>, x: Pair<T>): seq<Pair<T>>
  {
    var k := ScanStop(s, x.priority);
    s[..k] + [x] + s[k..]
  }

  /** The only stopping place with the scan's two properties is ScanStop. */
  lemma ScanStopUnique<T>(s: seq<Pair<T>>, p: int, k: nat)
    requires k <= |s|
    requires forall i :: 0 <= i < k ==> s[i].priority <= p
    requires k < |s| ==> s[k].priority > p
    ensures ScanStop(s, p) == k
  {
  }

  class PriorityQueue<T> {
    /** The (data, priority) pairs from head to tail; [] is the NULL head. */
    var elems: seq<Pair<T>>

    /** Every queue built by Push keeps its priorities in order. */
    ghost predicate Valid()
      reads this
    {
      NonDecreasing(elems)
    }

    /** RND_priorityQueueCreate: an empty queue is a NULL head. */
    constructor Create()
      ensures Valid() && elems == []
    {
      elems := [];
    }

    /** RND_priorityQueuePush: scan past every node whose priority is <= the
        new one and link the new pair in front of the first greater one. */
    method Push(data: T, priority: int) returns (rc: int)
      requires Valid()
      modifies this
      ensures Valid()
      ensures rc == 0
      ensures elems == Pushed(old(elems), Pair(data, priority))
    {
      PushedKeepsOrder(elems, Pair(data, priority));
      if elems != [] {
        // `next` is the node the scan looks at; `prev` is the one before it.
        var next := 0;
        while next < |elems| && elems[next].priority <= priority
          invariant next <= |elems|
          invariant forall i :: 0 <= i < next ==> elems[i].priority <= priority
        {
          next := next + 1;
        }
        ScanStopUnique(elems, priority, next);
        elems := elems[..next] + [Pair(data, priority)] + elems[next..];
      } else {
        elems := [Pair(data, priority)];
      }
      rc := 0;
    }

    /** RND_priorityQueuePeek: the head's user data, or NULL for an empty
        queue. In an ordered queue the head carries the lowest priority. */
    function Peek(): (r: Option<T>)
      reads this
      ensures r.None? <==> elems == []
      ensures r.Some? ==> r.value == elems[0].data
      ensures r.Some? && NonDecreasing(elems) ==>
                forall i :: 0 <= i < |elems| ==> elems[0].priority <= elems[i].priority
    {
      if elems == [] then None else Some(elems[0].data)
    }

    /** RND_priorityQueuePop: 1 on an empty queue, 2 when the destructor
        fails on the head's user data, otherwise 0 with the head unlinked. */
    method Pop(dtor: Dtor<DtorArg<T>>) returns (rc: int)
      requires Valid()
      modifies this
      ensures Valid()
      ensures old(elems) == [] ==> rc == 1
      ensures old(elems) != [] ==>
                rc == (if Accepts(dtor, UserData(old(elems)[0].data)) then 0 else 2)
      ensures elems == (if rc == 0 then old(elems)[1..] else old(elems))
    {
      if elems == [] {
        return 1;
      }
      if !Accepts(dtor, UserData(elems[0].data)) {
        return 2;
      }
      elems := elems[1..];
      rc := 0;
    }

    /** RND_priorityQueueRemove: 1 on an empty queue, 3 when `index` is past
        the tail, 2 when the destructor fails on the pair record, otherwise 0
        with exactly position `index` unlinked. */
    method Remove(index: nat, dtor: Dtor<DtorArg<T>>) returns (rc: int)
      requires Valid()
      modifies this
      ensures Valid()
      ensures rc == (if old(elems) == [] then 1
                     else if index >= |old(elems)| then 3
                     else if !Accepts(dtor, PairRecord(old(elems)[index])) then 2
                     else 0)
      ensures elems == (if rc == 0 then Without(old(elems), index) else old(elems))
    {
      if elems == [] {
        return 1;
      }
      if index == 0 {
        if !Accepts(dtor, PairRecord(elems[0])) {
          return 2;
        }
        elems := elems[1..];
        return 0;
      }
      // Walk `prev` to the node before position `index`.
      var prev := 0;
      var i := 0;
      while i < index - 1
        invariant i <= index - 1
        invariant prev == i && prev < |elems|
      {
        if prev + 1 < |elems| {
          prev := prev + 1;
        } else {
          return 3;
        }
        i := i + 1;
      }
      if prev + 1 >= |elems| {
        return 3;
      }
      if !Accepts(dtor, PairRecord(elems[prev + 1])) {
        return 2;
      }
      WithoutKeepsOrder(elems, prev + 1);
      elems := elems[..prev + 1] + elems[prev + 2..];
      rc := 0;
    }

    /** RND_priorityQueueClear: run the destructor on the user data head to
        tail. At the first failure return 1: the `freed` nodes before it are
        already released, the rest untouched, and the head pointer is left as
        it was. After a full pass the queue is empty and the result is 0. */
    method Clear(dtor: Dtor<DtorArg<T>>) returns (rc: int, freed: nat)
      requires Valid()
      modifies this
      ensures Valid()
      ensures rc == 0 || rc == 1
      ensures freed <= |old(elems)|
      ensures forall i :: 0 <= i < freed ==> Accepts(dtor, UserData(old(elems)[i].data))
      ensures rc == 0 <==> freed == |old(elems)|
      ensures rc == 1 ==> !Accepts(dtor, UserData(old(elems)[freed].data))
      ensures elems == (if rc == 0 then [] else old(elems))
    {
      freed := 0;
      while freed < |elems|
        invariant freed <= |elems|
        invariant forall i :: 0 <= i < freed ==> Accepts(dtor, UserData(elems[i].data))
      {
        if !Accepts(dtor, UserData(elems[freed].data)) {
          return 1, freed;
        }
        freed := freed + 1;
      }
      elems := [];
      rc := 0;
    }

    /** RND_priorityQueueDestroy: exactly Clear. */
    method Destroy(dtor: Dtor<DtorArg<T>>) returns (rc: int, freed: nat)
      requires Valid()
      modifies this
      ensures Valid()
      ensures rc == 0 || rc == 1
      ensures freed <= |old(elems)|
      ensures forall i :: 0 <= i < freed ==> Accepts(dtor, UserData(old(elems)[i].data))
      ensures rc == 0 <==> freed == |old(elems)|
      ensures rc == 1 ==> !Accepts(dtor, UserData(old(elems)[freed].data))
      ensures elems == (if rc == 0 then [] else old(elems))
    {
      rc, freed := Clear(dtor);
    }

    /** RND_priorityQueueSize: the number of nodes. */
    method Size() returns (n: nat)
      ensures n == |elems|
    {
      n := 0;
      while n < |elems|
        invariant n <= |elems|
      {
        n := n + 1;
      }
    }

    /** RND_priorityQueueMap: 1 for an empty queue or a NULL map; otherwise
        call `mapper` on the nodes with indices 0, 1, ... head to tail and stop
        with 2 at the first nonzero answer; 0 when every call returned 0.
        `calls` is the number of calls made. */
    method Map(mapper: Mapper<Pair<T>>) returns (rc: int, calls: nat)
      ensures rc == 0 || rc == 1 || rc == 2
      ensures rc == 1 <==> elems == [] || mapper.None?
      ensures rc == 1 ==> calls == 0
      ensures rc != 1 ==> 0 < calls <= |elems|
      ensures rc != 1 ==> forall i :: 0 <= i < calls - 1 ==> mapper.value(elems[i], i)
      ensures rc == 0 ==> calls == |elems| && mapper.value(elems[calls - 1], calls - 1)
      ensures rc == 2 ==> !mapper.value(elems[calls - 1], calls - 1)
    {
      if elems == [] || mapper.None? {
        return 1, 0;
      }
      var p := 0;
      while p < |elems|
        invariant p <= |elems|
        invariant forall i :: 0 <= i < p ==> mapper.value(elems[i], i)
      {
        if !mapper.value(elems[p], p) {
          return 2, p + 1;
        }
        p := p + 1;
      }
      rc, calls := 0, p;
    }
  }

  /** Push keeps an ordered queue ordered. */
  lemma PushedKeepsOrder<T>(s: seq<Pair<T>>, x: Pair<T>)
    requires NonDecreasing(s)
    ensures NonDecreasing(Pushed(s, x))
  {
    var k := ScanStop(s, x.priority);
    var r := Pushed(s, x);
    assert forall i :: 0 <= i < k ==> r[i] == s[i];
    assert r[k] == x;
    assert forall i :: k < i < |r| ==> r[i] == s[i - 1];
    forall i, j | 0 <= i < j < |r|
      ensures r[i].priority <= r[j].priority
    {
      if j == k {
        assert r[i] == s[i];
      } else if i == k {
        assert r[j] == s[j - 1] && s[k].priority <= s[j - 1].priority;
      }
    }
  }

  /** Unlinking one node keeps an ordered queue ordered. */
  lemma WithoutKeepsOrder<T>(s: seq<Pair<T>>, i: nat)
    requires i < |s| && NonDecreasing(s)
    ensures NonDecreasing(Without(s, i))
    ensures Without(s, i) == s[..i] + s[i + 1..]
  {
  }

  /** Push adds exactly one node, the new pair, and keeps the existing nodes
      in their relative order: every node before it has priority <= its
      own, every node after it a strictly greater one. */
  lemma PushedPlacement<T>(s: seq<Pair<T>>, x: Pair<T>)
    requires NonDecreasing(s)
    ensures var k := ScanStop(s, x.priority);
            var r := Pushed(s, x);
            && |r| == |s| + 1
            && r[k] == x
            && Without(r, k) == s
            && (forall i :: 0 <= i < k ==> r[i].priority <= x.priority)
            && (forall i :: k < i < |r| ==> r[i].priority > x.priority)
  {
    var k := ScanStop(s, x.priority);
    var r := Pushed(s, x);
    assert r[..k] == s[..k] && r[k + 1..] == s[k..];
    assert Without(r, k) == s[..k] + s[k..];
    assert s[..k] + s[k..] == s;
    AfterStopGreater(s, x.priority);
    forall i | k < i < |r|
      ensures r[i].priority > x.priority
    {
      assert r[i] == s[i - 1];
    }
  }

  /** In an ordered queue every node from where Push's scan for `p` stops
      on has a priority above `p`. */
  lemma AfterStopGreater<T>(s: seq<Pair<T>>, p: int)
    requires NonDecreasing(s)
    ensures forall i :: ScanStop(s, p) <= i < |s| ==> s[i].priority > p
  {
    var k := ScanStop(s, p);
    forall i | k <= i < |s|
      ensures s[i].priority > p
    {
      assert s[k].priority <= s[i].priority;
    }
  }

  /** The nodes of `s` whose priority is `p`, in list order. */
  function WithPriority<T>(s: seq<Pair<T>>, p: int): seq<Pair<T>>
  {
    if s == [] then [] else (if s[0].priority == p then [s[0]] else []) + WithPriority(s[1..], p)
  }

  lemma {:induction false} WithPriorityAppend<T>(a: seq<Pair<T>>, b: seq<Pair<T>>, p: int)
    ensures WithPriority(a + b, p) == WithPriority(a, p) + WithPriority(b, p)
  {
    if a == [] {
      assert a + b == b;
    } else {
      assert (a + b)[0] == a[0] && (a + b)[1..] == a[1..] + b;
      WithPriorityAppend(a[1..], b, p);
    }
  }

  lemma {:induction false} WithPriorityNone<T>(s: seq<Pair<T>>, p: int)
    requires forall i :: 0 <= i < |s| ==> s[i].priority != p
    ensures WithPriority(s, p) == []
  {
    if s != [] {
      WithPriorityNone(s[1..], p);
    }
  }

  lemma WithPrioritySingle<T>(x: Pair<T>, p: int)
    ensures WithPriority([x], p) == if x.priority == p then [x] else []
  {
    assert [x][1..] == [];
  }

  /** In an ordered queue, no node from where Push's scan for `p` stops on
      has priority `p`. */
  lemma AfterStopWithout<T>(s: seq<Pair<T>>, p: int)
    requires NonDecreasing(s)
    ensures WithPriority(s[ScanStop(s, p)..], p) == []
  {
    var k := ScanStop(s, p);
    var back := s[k..];
    AfterStopGreater(s, p);
    forall i | 0 <= i < |back|
      ensures back[i].priority != p
    {
      assert back[i] == s[k + i];
    }
    WithPriorityNone(back, p);
  }

  /** Pushing into an ordered queue puts the new pair after every node of
      equal priority already there. */
  lemma PushedWithPriority<T>(s: seq<Pair<T>>, x: Pair<T>, p: int)
    requires NonDecreasing(s)
    ensures WithPriority(Pushed(s, x), p)
            == WithPriority(s, p) + (if x.priority == p then [x] else [])
  {
    var k := ScanStop(s, x.priority);
    var front, back := s[..k], s[k..];
    assert Pushed(s, x) == (front + [x]) + back;
    assert front + back == s;
    WithPriorityAppend(front + [x], back, p);
    WithPriorityAppend(front, [x], p);
    WithPriorityAppend(front, back, p);
    WithPrioritySingle(x, p);
    if x.priority == p {
      AfterStopWithout(s, p);
    }
    Regroup(WithPriority(front, p), WithPriority([x], p), WithPriority(back, p));
  }

  /** Appending m and b in either order gives the same sequence when one
      of them is empty. */
  lemma Regroup<A>(a: seq<A>, m: seq<A>, b: seq<A>)
    requires m == [] || b == []
    ensures (a + m) + b == (a + b) + m
  {
  }

  /** The queue left by pushing `xs` one after another onto an empty queue. */
  function Build<T>(xs: seq<Pair<T>>): seq<Pair<T>>
  {
    if xs == [] then [] else Pushed(Build(xs[..|xs| - 1]), xs[|xs| - 1])
  }

  /** Pushing any sequence of pairs yields a stable sort of it: priorities
      are in order and, for every priority, the pairs carrying it appear in
      the order they were pushed (equal priorities leave first-in,
      first-out). */
  lemma {:induction false} BuildIsStableSort<T>(xs: seq<Pair<T>>)
    ensures NonDecreasing(Build(xs))
    ensures forall p :: WithPriority(Build(xs), p) == WithPriority(xs, p)
  {
    if xs != [] {
      var init, last := xs[..|xs| - 1], xs[|xs| - 1];
      BuildIsStableSort(init);
      PushedKeepsOrder(Build(init), last);
      assert xs == init + [last];
      forall p
        ensures WithPriority(Build(xs), p) == WithPriority(xs, p)
      {
        PushedWithPriority(Build(init), last, p);
        WithPriorityAppend(init, [last], p);
        assert [last][1..] == [];
      }
    }
  }

  /** Ties are first-in, first-out: pushing (A,5), (B,3), (C,5), (D,1) and
      popping everything yields D, B, A, C. */
  method TieOrder() returns (popped: seq<char>)
    ensures popped == ['D', 'B', 'A', 'C']
  {
    var q := new PriorityQueue<char>.Create();
    var rc := q.Push('A', 5);
    rc := q.Push('B', 3);
    rc := q.Push('C', 5);
    rc := q.Push('D', 1);
    TiePushes();
    popped := Drain(q);
  }

  /** The four pushes of TieOrder leave the nodes (D,1), (B,3), (A,5), (C,5),
      whose user data read D, B, A, C. */
  lemma TiePushes()
    ensures var s := Pushed(Pushed(Pushed(Pushed([], Pair('A', 5)), Pair('B', 3)), Pair('C', 5)),
                            Pair('D', 1));
            s == [Pair('D', 1), Pair('B', 3), Pair('A', 5), Pair('C', 5)]
            && DataOf(s) == ['D', 'B', 'A', 'C']
  {
    var s0: seq<Pair<char>> := [];
    var s1 := [Pair('A', 5)];
    assert Pushed(s0, Pair('A', 5)) == s1;
    var s2 := [Pair('B', 3), Pair('A', 5)];
    ScanStopUnique(s1, 3, 0);
    assert Pushed(s1, Pair('B', 3)) == s2;
    var s3 := [Pair('B', 3), Pair('A', 5), Pair('C', 5)];
    ScanStopUnique(s2, 5, 2);
    assert Pushed(s2, Pair('C', 5)) == s3;
    var s4 := [Pair('D', 1), Pair('B', 3), Pair('A', 5), Pair('C', 5)];
    ScanStopUnique(s3, 1, 0);
    assert Pushed(s3, Pair('D', 1)) == s4;
    var d := DataOf(s4);
    assert d == [d[0], d[1], d[2], d[3]];
  }

  /** Peeking at and popping the head until the queue is empty hands back the
      user data in queue order. */
  method Drain<T>(q: PriorityQueue<T>) returns (popped: seq<T>)
    requires q.Valid()
    modifies q
    ensures popped == DataOf(old(q.elems))
    ensures q.elems == []
  {
    popped := [];
    while q.elems != []
      invariant q.Valid()
      invariant popped + DataOf(q.elems) == DataOf(old(q.elems))
      decreases |q.elems|
    {
      ghost var before := q.elems;
      var head := q.Peek();
      var rc := q.Pop(None);
      assert DataOf(before) == [head.value] + DataOf(q.elems);
      popped := popped + [head.value];
    }
  }

  /** The user data of the nodes, head to tail. */
  function DataOf<T>(s: seq<Pair<T>>): (r: seq<T>)
    ensures |r| == |s|
    ensures forall i :: 0 <= i < |s| ==> r[i] == s[i].data
  {
    if s == [] then [] else [s[0].data] + DataOf(s[1..])
  }
}
