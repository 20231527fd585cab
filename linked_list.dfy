/** The generic singly linked list of c-libs/linkedlist/RND_LinkedList.c and
    its older copy c-libs/linkedlist/linkedlist.c. The copies differ only in
    Destroy: the older one never resets the head pointer.

    The handle `**list` points at the first node; `elems` holds the node data
    in list order, and each pointer walk is a loop over an index. */
module LinkedList {
  import opened Callbacks

  /** What RND_linkedListRemove answers and the list it leaves: 1 for an
      empty list or an index past the end; at index 0 the head is unlinked
      without running the destructor; elsewhere 2 when the destructor fails
      on that element and 0 once the node is unlinked. */
  function RemoveOutcome<T>(s: seq<T>, index: nat, dtor: Dtor<T>): (r: (int, seq<T>))
    ensures r.0 == 0 || r.0 == 1 || r.0 == 2
    ensures r.0 == 1 <==> index >= |s|
    ensures r.0 == 2 <==> 0 < index < |s| && !Accepts(dtor, s[index])
    ensures r.0 == 0 ==> r.1 == Without(s, index)
    ensures r.0 != 0 ==> r.1 == s
  {
    if s == [] then (1, s)
    else if index == 0 then (0, s[1..])
    else if index >= |s| then (1, s)
    else if !Accepts(dtor, s[index]) then (2, s)
    else (0, Without(s, index))
  }

  class LinkedList<T> {
    /** The node data in list order; [] is the NULL head. */
    var elems: seq<T>

    /** RND_linkedListCreate / linkedListCreate: a NULL head. */
    constructor Create()
      ensures elems == []
    {
      elems := [];
    }

    /** RND_linkedListAdd / linkedListAdd: walk to the last node and link a
        new node holding `data` after it; an empty list gets a single node.
        (Neither copy sets the appended node's `next` in the non-empty case.) */
    method Add(data: T) returns (rc: int)
      modifies this
      ensures rc == 0
      ensures elems == old(elems) + [data]
    {
      if elems != [] {
        var last := 0;
        while last + 1 < |elems|
          invariant last < |elems|
        {
          last := last + 1;
        }
        elems := elems[..last + 1] + [data];
      } else {
        elems := [data];
      }
      rc := 0;
    }

    /** RND_linkedListInsert / linkedListInsert: index 0 makes `data` the new
        head; 1 <= index <= size places it at position `index`; a larger index
        answers 2 and leaves the list alone. For index >= 1 the C dereferences
        the head, so an empty list only accepts index 0. */
    method Insert(index: nat, data: T) returns (rc: int)
      requires index == 0 || elems != []
      modifies this
      ensures rc == (if index <= |old(elems)| then 0 else 2)
      ensures elems == (if rc == 0 then old(elems)[..index] + [data] + old(elems)[index..]
                        else old(elems))
    {
      if index == 0 {
        elems := [data] + elems;
        return 0;
      }
      var prev := 0;
      var i := 0;
      while i < index - 1
        invariant i <= index - 1
        invariant prev == i && prev < |elems|
      {
        if prev + 1 < |elems| {
          prev := prev + 1;
        } else {
          return 2;
        }
        i := i + 1;
      }
      elems := elems[..prev + 1] + [data] + elems[prev + 1..];
      rc := 0;
    }

    /** RND_linkedListGet / linkedListGet: the data at `index`, or NULL when
        the list is empty or the index is past the end. */
    method Get(index: nat) returns (r: Option<T>)
      ensures r == (if index < |elems| then Some(elems[index]) else None)
    {
      if elems == [] {
        return None;
      }
      var ret := 0;
      var i := 0;
      while i < index
        invariant i <= index
        invariant ret == i && ret < |elems|
      {
        if ret + 1 < |elems| {
          ret := ret + 1;
        } else {
          return None;
        }
        i := i + 1;
      }
      r := Some(elems[ret]);
    }

    /** RND_linkedListRemove / linkedListRemove, as RemoveOutcome describes. */
    method Remove(index: nat, dtor: Dtor<T>) returns (rc: int)
      modifies this
      ensures (rc, elems) == RemoveOutcome(old(elems), index, dtor)
    {
      if elems == [] {
        return 1;
      }
      if index == 0 {
        // The head is unlinked; the C neither runs dtor on it nor frees it.
        elems := elems[1..];
        return 0;
      }
      var prev := 0;
      var i := 0;
      while i < index - 1
        invariant i <= index - 1
        invariant prev == i && prev < |elems|
      {
        if prev + 1 < |elems| {
          prev := prev + 1;
        } else {
          return 1;
        }
        i := i + 1;
      }
      if prev + 1 >= |elems| {
        return 1;
      }
      if !Accepts(dtor, elems[prev + 1]) {
        return 2;
      }
      elems := elems[..prev + 1] + elems[prev + 2..];
      rc := 0;
    }

    /** RND_linkedListDestroy: run the destructor front to back. At the
        first failure return 1: the `freed` nodes before it are already
        released and the head pointer is left as it was. After a full pass the
        head is reset to NULL and the result is 0. */
    method Destroy(dtor: Dtor<T>) returns (rc: int, freed: nat)
      modifies this
      ensures rc == 0 || rc == 1
      ensures freed <= |old(elems)|
      ensures forall i :: 0 <= i < freed ==> Accepts(dtor, old(elems)[i])
      ensures rc == 0 <==> freed == |old(elems)|
      ensures rc == 1 ==> !Accepts(dtor, old(elems)[freed])
      ensures elems == (if rc == 0 then [] else old(elems))
    {
      freed := 0;
      while freed < |elems|
        invariant freed <= |elems|
        invariant forall i :: 0 <= i < freed ==> Accepts(dtor, elems[i])
      {
        if !Accepts(dtor, elems[freed]) {
          return 1, freed;
        }
        freed := freed + 1;
      }
      elems := [];
      rc := 0;
    }

    /** linkedListDestroy (the older copy): the same walk and answers as
        Destroy, but the head pointer is never reset, so even after a full
        pass the handle still names the first, now freed, node. */
    method DestroyKeepingHead(dtor: Dtor<T>) returns (rc: int, freed: nat)
      ensures rc == 0 || rc == 1
      ensures freed <= |elems|
      ensures forall i :: 0 <= i < freed ==> Accepts(dtor, elems[i])
      ensures rc == 0 <==> freed == |elems|
      ensures rc == 1 ==> !Accepts(dtor, elems[freed])
    {
      freed := 0;
      while freed < |elems|
        invariant freed <= |elems|
        invariant forall i :: 0 <= i < freed ==> Accepts(dtor, elems[i])
      {
        if !Accepts(dtor, elems[freed]) {
          return 1, freed;
        }
        freed := freed + 1;
      }
      rc := 0;
    }

    /** RND_linkedListSize / linkedListSize: the number of nodes. */
    method Size() returns (n: nat)
      ensures n == |elems|
    {
      n := 0;
      while n < |elems|
        invariant n <= |elems|
      {
        n := n + 1;
      }
    }
  }

  /** The RND_linkedList example: inserting 2, 3, 4 at indices 0, 1, 2,
      removing index 1 with a destructor that succeeds, and reading the list
      back with Get leaves [2, 4] of size 2. */
  method InsertRemoveExample() returns (contents: seq<int>, size: nat)
    ensures contents == [2, 4] && size == 2
  {
    var l := new LinkedList<int>.Create();
    var rc := l.Insert(0, 2);
    rc := l.Insert(1, 3);
    rc := l.Insert(2, 4);
    assert l.elems == [2, 3, 4];
    rc := l.Remove(1, Some((_: int) => true));
    assert l.elems == [2, 4];
    size := l.Size();
    contents := [];
    for i := 0 to size
      invariant l.elems == [2, 4]
      invariant contents == l.elems[..i]
    {
      var x := l.Get(i);
      contents := contents + [x.value];
    }
  }

  /** The linkedlist.c demonstration: inserting 2, 3, 4 at indices 0, 1, 2
      yields [2, 3, 4] of size 3. */
  method InsertExample() returns (contents: seq<int>, size: nat)
    ensures contents == [2, 3, 4] && size == 3
  {
    var l := new LinkedList<int>.Create();
    var rc := l.Insert(0, 2);
    rc := l.Insert(1, 3);
    rc := l.Insert(2, 4);
    assert l.elems == [2, 3, 4];
    size := l.Size();
    contents := [];
    for i := 0 to size
      invariant l.elems == [2, 3, 4]
      invariant contents == l.elems[..i]
    {
      var x := l.Get(i);
      contents := contents + [x.value];
    }
  }
}
