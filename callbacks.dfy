/** Shared vocabulary of the c-libs containers: nullable results, the optional
    destructor and map callbacks that every container takes, and deleting one
    position from a sequence of nodes. */
module Callbacks {

  /** A C pointer result that may be NULL. */
  datatype Option<T> = None | Some(value: T)

  /** A destructor argument `int (*dtor)(void*)`: `None` is a NULL pointer (no
      call is made); otherwise the function says whether the call returned 0. */
  type Dtor<!A> = Option<A -> bool>

  /** A map argument `int (*map)(node, size_t)`: `None` is a NULL pointer;
      otherwise the function says whether the call returned 0 for the node's
      contents and its index. */
  type Mapper<!A> = Option<(A, nat) -> bool>

  /** True when running the (possibly NULL) destructor on `x` lets the caller go on. */
  predicate Accepts<A>(dtor: Dtor<A>, x: A)
  {
    dtor.None? || dtor.value(x)
  }

  /** The node sequence after unlinking position `i`. */
  function Without<A>(s: seq<A>, i: nat): (r: seq<A>)
    requires i < |s|
    ensures |r| == |s| - 1
    ensures forall j :: 0 <= j < i ==> r[j] == s[j]
    ensures forall j :: i <= j < |r| ==> r[j] == s[j + 1]
  {
    s[..i] + s[i + 1..]
  }
}
