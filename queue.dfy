/** The linked-list FIFO queue of c-libs/queueLL/RND_QueueLL.c and
    c-libs/queue/RND_Queue.c. The two files hold the same code apart from the
    diagnostics and the missing `new->next = NULL` in RND_queuePush; Remove
    exists only in RND_QueueLL.c.

    The handle `**queue` points at the head node; `elems` holds the node data
    from head to tail, and each pointer walk is a loop over an index. */
module Queue {
  import opened Callbacks

  class Queue<T> {
    /** The node data from head (front) to tail (back); [] is the NULL head. */
    var elems: seq<T>

    /** RND_queueLLCreate / RND_queueCreate: a NULL head. */
    constructor Create()
      ensures elems == []
    {
      elems := [];
    }

    /** RND_queueLLPush / RND_queuePush: walk to the last node and link a new
        node holding `data` after it; an empty queue gets a single node.
        (RND_queuePush never sets the new node's `next`, so in that file the
        appended node ends in an uninitialised pointer.) */
    method Push(data: T) returns (rc: int)
      modifies this
      ensures rc == 0
      ensures elems == old(elems) + [data]
    {
      if elems != [] {
        var last := 0;
        while last + 1 < |elems|
          invariant last < |elems|
        {
          last := last + 1;
        }
        elems := elems[..last + 1] + [data];
      } else {
        elems := [data];
      }
      rc := 0;
    }

    /** RND_queueLLPeek / RND_queuePeek: the front element, or NULL when empty. */
    function Peek(): (r: Option<T>)
      reads this
      ensures r.None? <==> elems == []
      ensures r.Some? ==> r.value == elems[0]
    {
      if elems == [] then None else Some(elems[0])
    }

    /** RND_queueLLPop / RND_queuePop: 1 on an empty queue, 2 when the
        destructor fails on the front element, otherwise 0 with the front
        node unlinked. */
    method Pop(dtor: Dtor<T>) returns (rc: int)
      modifies this
      ensures old(elems) == [] ==> rc == 1
      ensures old(elems) != [] ==> rc == (if Accepts(dtor, old(elems)[0]) then 0 else 2)
      ensures elems == (if rc == 0 then old(elems)[1..] else old(elems))
    {
      if elems == [] {
        return 1;
      }
      if !Accepts(dtor, elems[0]) {
        return 2;
      }
      elems := elems[1..];
      rc := 0;
    }

    /** RND_queueLLRemove: 1 on an empty queue, 3 when `index` is past the
        back, 2 when the destructor fails on that element, otherwise 0 with
        exactly position `index` unlinked. */
    method Remove(index: nat, dtor: Dtor<T>) returns (rc: int)
      modifies this
      ensures rc == (if old(elems) == [] then 1
                     else if index >= |old(elems)| then 3
                     else if !Accepts(dtor, old(elems)[index]) then 2
                     else 0)
      ensures elems == (if rc == 0 then Without(old(elems), index) else old(elems))
    {
      if elems == [] {
        return 1;
      }
      if index == 0 {
        if !Accepts(dtor, elems[0]) {
          return 2;
        }
        elems := elems[1..];
        return 0;
      }
      // Walk `prev` to the node before position `index`.
      var prev := 0;
      var i := 0;
      while i < index - 1
        invariant i <= index - 1
        invariant prev == i && prev < |elems|
      {
        if prev + 1 < |elems| {
          prev := prev + 1;
        } else {
          return 3;
        }
        i := i + 1;
      }
      if prev + 1 >= |elems| {
        return 3;
      }
      if !Accepts(dtor, elems[prev + 1]) {
        return 2;
      }
      elems := elems[..prev + 1] + elems[prev + 2..];
      rc := 0;
    }

    /** RND_queueLLClear / RND_queueClear: run the destructor front to back.
        At the first failure return 1: the `freed` nodes before it are already
        released and the head pointer is left as it was. After a full pass the
        queue is empty and the result is 0. */
    method Clear(dtor: Dtor<T>) returns (rc: int, freed: nat)
      modifies this
      ensures rc == 0 || rc == 1
      ensures freed <= |old(elems)|
      ensures forall i :: 0 <= i < freed ==> Accepts(dtor, old(elems)[i])
      ensures rc == 0 <==> freed == |old(elems)|
      ensures rc == 1 ==> !Accepts(dtor, old(elems)[freed])
      ensures elems == (if rc == 0 then [] else old(elems))
    {
      freed := 0;
      while freed < |elems|
        invariant freed <= |elems|
        invariant forall i :: 0 <= i < freed ==> Accepts(dtor, elems[i])
      {
        if !Accepts(dtor, elems[freed]) {
          return 1, freed;
        }
        freed := freed + 1;
      }
      elems := [];
      rc := 0;
    }

    /** RND_queueLLDestroy / RND_queueDestroy: exactly Clear. */
    method Destroy(dtor: Dtor<T>) returns (rc: int, freed: nat)
      modifies this
      ensures rc == 0 || rc == 1
      ensures freed <= |old(elems)|
      ensures forall i :: 0 <= i < freed ==> Accepts(dtor, old(elems)[i])
      ensures rc == 0 <==> freed == |old(elems)|
      ensures rc == 1 ==> !Accepts(dtor, old(elems)[freed])
      ensures elems == (if rc == 0 then [] else old(elems))
    {
      rc, freed := Clear(dtor);
    }

    /** RND_queueLLSize / RND_queueSize: the number of nodes. */
    method Size() returns (n: nat)
      ensures n == |elems|
    {
      n := 0;
      while n < |elems|
        invariant n <= |elems|
      {
        n := n + 1;
      }
    }

    /** RND_queueLLMap / RND_queueMap: 1 for an empty queue or a NULL map;
        otherwise call `mapper` front to back with indices 0, 1, ... and stop
        with 2 at the first nonzero answer; 0 when every call returned 0.
        `calls` is the number of calls made. */
    method Map(mapper: Mapper<T>) returns (rc: int, calls: nat)
      ensures rc == 0 || rc == 1 || rc == 2
      ensures rc == 1 <==> elems == [] || mapper.None?
      ensures rc == 1 ==> calls == 0
      ensures rc != 1 ==> 0 < calls <= |elems|
      ensures rc != 1 ==> forall i :: 0 <= i < calls - 1 ==> mapper.value(elems[i], i)
      ensures rc == 0 ==> calls == |elems| && mapper.value(elems[calls - 1], calls - 1)
      ensures rc == 2 ==> !mapper.value(elems[calls - 1], calls - 1)
    {
      if elems == [] || mapper.None? {
        return 1, 0;
      }
      var p := 0;
      while p < |elems|
        invariant p <= |elems|
        invariant forall i :: 0 <= i < p ==> mapper.value(elems[i], i)
      {
        if !mapper.value(elems[p], p) {
          return 2, p + 1;
        }
        p := p + 1;
      }
      rc, calls := 0, p;
    }
  }

  /** First in, first out: pushing `xs` onto a new queue and then peeking and
      popping until it is empty yields `xs` in push order. */
  method PushAllThenPopAll<T>(xs: seq<T>) returns (popped: seq<T>)
    ensures popped == xs
  {
    var q := new Queue<T>.Create();
    var rc;
    for i := 0 to |xs|
      invariant q.elems == xs[..i]
    {
      rc := q.Push(xs[i]);
      assert xs[..i + 1] == xs[..i] + [xs[i]];
    }
    assert xs[..|xs|] == xs;
    popped := [];
    while q.elems != []
      invariant popped + q.elems == xs
      decreases |q.elems|
    {
      var front := q.Peek();
      rc := q.Pop(None);
      popped := popped + [front.value];
    }
  }
}
