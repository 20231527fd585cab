/** The linked-list LIFO stack of c-libs/stackLL/RND_StackLL.c and
    c-libs/stack/RND_Stack.c, which hold the same code apart from the
    diagnostics.

    The handle `**stack` points at the top node; `elems` holds the node data
    from top to bottom. */
module Stack {
  import opened Callbacks

  class Stack<T> {
    /** The node data from top to bottom; [] is the NULL head. */
    var elems: seq<T>

    /** RND_stackLLCreate / RND_stackCreate: a NULL head. */
    constructor Create()
      ensures elems == []
    {
      elems := [];
    }

    /** RND_stackLLPush / RND_stackPush: a new node holding `data` becomes
        the head and the old list its tail. */
    method Push(data: T) returns (rc: int)
      modifies this
      ensures rc == 0
      ensures elems == [data] + old(elems)
    {
      var first := elems;
      elems := [data] + first;
      rc := 0;
    }

    /** RND_stackLLPeek / RND_stackPeek: the top element, or NULL when empty. */
    function Peek(): (r: Option<T>)
      reads this
      ensures r.None? <==> elems == []
      ensures r.Some? ==> r.value == elems[0]
    {
      if elems == [] then None else Some(elems[0])
    }

    /** RND_stackLLPop / RND_stackPop: 1 on an empty stack, 2 when the
        destructor fails on the top element, otherwise 0 with the top node
        unlinked. */
    method Pop(dtor: Dtor<T>) returns (rc: int)
      modifies this
      ensures old(elems) == [] ==> rc == 1
      ensures old(elems) != [] ==> rc == (if Accepts(dtor, old(elems)[0]) then 0 else 2)
      ensures elems == (if rc == 0 then old(elems)[1..] else old(elems))
    {
      if elems == [] {
        return 1;
      }
      var next := elems[1..];
      if !Accepts(dtor, elems[0]) {
        return 2;
      }
      elems := next;
      rc := 0;
    }

    /** RND_stackLLClear / RND_stackClear: run the destructor top to bottom.
        At the first failure return 1: the `freed` nodes above it are already
        released and the head pointer is left as it was. After a full pass the
        stack is empty and the result is 0. */
    method Clear(dtor: Dtor<T>) returns (rc: int, freed: nat)
      modifies this
      ensures rc == 0 || rc == 1
      ensures freed <= |old(elems)|
      ensures forall i :: 0 <= i < freed ==> Accepts(dtor, old(elems)[i])
      ensures rc == 0 <==> freed == |old(elems)|
      ensures rc == 1 ==> !Accepts(dtor, old(elems)[freed])
      ensures elems == (if rc == 0 then [] else old(elems))
    {
      freed := 0;
      while freed < |elems|
        invariant freed <= |elems|
        invariant forall i :: 0 <= i < freed ==> Accepts(dtor, elems[i])
      {
        if !Accepts(dtor, elems[freed]) {
          return 1, freed;
        }
        freed := freed + 1;
      }
      elems := [];
      rc := 0;
    }

    /** RND_stackLLDestroy / RND_stackDestroy: exactly Clear. */
    method Destroy(dtor: Dtor<T>) returns (rc: int, freed: nat)
      modifies this
      ensures rc == 0 || rc == 1
      ensures freed <= |old(elems)|
      ensures forall i :: 0 <= i < freed ==> Accepts(dtor, old(elems)[i])
      ensures rc == 0 <==> freed == |old(elems)|
      ensures rc == 1 ==> !Accepts(dtor, old(elems)[freed])
      ensures elems == (if rc == 0 then [] else old(elems))
    {
      rc, freed := Clear(dtor);
    }

    /** RND_stackLLSize / RND_stackSize: the number of nodes. */
    method Size() returns (n: nat)
      ensures n == |elems|
    {
      n := 0;
      while n < |elems|
        invariant n <= |elems|
      {
        n := n + 1;
      }
    }

    /** RND_stackLLMap / RND_stackMap: 1 for an empty stack or a NULL map;
        otherwise call `mapper` top to bottom with indices 0, 1, ... and stop
        with 2 at the first nonzero answer; 0 when every call returned 0.
        `calls` is the number of calls made. */
    method Map(mapper: Mapper<T>) returns (rc: int, calls: nat)
      ensures rc == 0 || rc == 1 || rc == 2
      ensures rc == 1 <==> elems == [] || mapper.None?
      ensures rc == 1 ==> calls == 0
      ensures rc != 1 ==> 0 < calls <= |elems|
      ensures rc != 1 ==> forall i :: 0 <= i < calls - 1 ==> mapper.value(elems[i], i)
      ensures rc == 0 ==> calls == |elems| && mapper.value(elems[calls - 1], calls - 1)
      ensures rc == 2 ==> !mapper.value(elems[calls - 1], calls - 1)
    {
      if elems == [] || mapper.None? {
        return 1, 0;
      }
      var p := 0;
      while p < |elems|
        invariant p <= |elems|
        invariant forall i :: 0 <= i < p ==> mapper.value(elems[i], i)
      {
        if !mapper.value(elems[p], p) {
          return 2, p + 1;
        }
        p := p + 1;
      }
      rc, calls := 0, p;
    }
  }

  /** Last in, first out: pushing `xs` onto a new stack and then peeking and
      popping until it is empty yields `xs` in reverse push order. */
  method PushAllThenPopAll<T>(xs: seq<T>) returns (popped: seq<T>)
    ensures |popped| == |xs|
    ensures forall i :: 0 <= i < |xs| ==> popped[i] == xs[|xs| - 1 - i]
  {
    var s := new Stack<T>.Create();
    var rc;
    for i := 0 to |xs|
      invariant |s.elems| == i
      invariant forall j :: 0 <= j < i ==> s.elems[j] == xs[i - 1 - j]
    {
      rc := s.Push(xs[i]);
    }
    popped := [];
    while s.elems != []
      invariant |popped| + |s.elems| == |xs|
      invariant forall j :: 0 <= j < |popped| ==> popped[j] == xs[|xs| - 1 - j]
      invariant forall j :: 0 <= j < |s.elems| ==> s.elems[j] == xs[|s.elems| - 1 - j]
      decreases |s.elems|
    {
      var top := s.Peek();
      rc := s.Pop(None);
      popped := popped + [top.value];
    }
  }
}
