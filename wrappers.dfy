/** Failure-compatible result types and the fixed-width integers shared by the
    scene compiler, the mesh compiler and the example runner. */
module Wrappers {

  datatype Option<+T> = None | Some(value: T) {
    predicate IsFailure() { None? }

    function PropagateFailure<U>(): Option<U>
      requires None?
    {
      None
    }

    function Extract(): T
      requires Some?
    {
      value
    }
  }

  /** The value of an operation that either completes or throws `error`. */
  datatype Result<+R, +E> = Success(value: R) | Failure(error: E) {
    predicate IsFailure() { Failure? }

    function PropagateFailure<U>(): Result<U, E>
      requires Failure?
    {
      Failure(error)
    }

    function Extract(): R
      requires Success?
    {
      value
    }
  }

  /** The outcome of an operation that returns nothing or throws `error`. */
  datatype Outcome<+E> = Pass | Fail(error: E) {
    predicate IsFailure() { Fail? }

    function PropagateFailure(): Outcome<E>
      requires Fail?
    {
      this
    }
  }

  /** Applies `f` to each element in order and collects the results; the
      first failure, in element order, is the result. */
  function Traverse<A, B, E>(f: A -> Result<B, E>, xs: seq<A>): Result<seq<B>, E> {
    if |xs| == 0 then Success([])
    else
      var init :- Traverse(f, xs[..|xs| - 1]);
      var last :- f(xs[|xs| - 1]);
      Success(init + [last])
  }

  /** A traversal succeeds exactly when every element does, and then holds
      every element's result, in order. */
  lemma {:induction false} TraverseSuccess<A, B, E>(f: A -> Result<B, E>, xs: seq<A>)
    ensures Traverse(f, xs).Success? <==> forall i :: 0 <= i < |xs| ==> f(xs[i]).Success?
    ensures Traverse(f, xs).Success? ==>
              |Traverse(f, xs).value| == |xs| && forall i :: 0 <= i < |xs| ==> Traverse(f, xs).value[i] == f(xs[i]).value
    decreases |xs|
  {
    if |xs| > 0 {
      var init := xs[..|xs| - 1];
      TraverseSuccess(f, init);
      assert forall i :: 0 <= i < |init| ==> init[i] == xs[i];
    }
  }

  /** A failing traversal fails with the error of its first failing element. */
  lemma {:induction false} TraverseFirstFailure<A, B, E>(f: A -> Result<B, E>, xs: seq<A>)
    requires Traverse(f, xs).Failure?
    ensures exists k :: 0 <= k < |xs| && f(xs[k]) == Failure(Traverse(f, xs).error) &&
                        forall i :: 0 <= i < k ==> f(xs[i]).Success?
    decreases |xs|
  {
    var init := xs[..|xs| - 1];
    assert forall i :: 0 <= i < |init| ==> init[i] == xs[i];
    if Traverse(f, init).Failure? {
      TraverseFirstFailure(f, init);
    } else {
      TraverseSuccess(f, init);
      assert f(xs[|xs| - 1]) == Failure(Traverse(f, xs).error);
    }
  }

  /** Once a prefix fails, the whole traversal fails the same way. */
  lemma {:induction false} TraversePrefixFailure<A, B, E>(f: A -> Result<B, E>, xs: seq<A>, k: nat)
    requires k <= |xs| && Traverse(f, xs[..k]).Failure?
    ensures Traverse(f, xs) == Traverse(f, xs[..k])
    decreases |xs|
  {
    if k < |xs| {
      var init := xs[..|xs| - 1];
      assert init[..k] == xs[..k];
      TraversePrefixFailure(f, init, k);
    } else {
      assert xs[..k] == xs;
    }
  }

  /** The traversal of one more element. */
  lemma TraverseStep<A, B, E>(f: A -> Result<B, E>, xs: seq<A>, k: nat)
    requires k < |xs|
    ensures Traverse(f, xs[..k + 1]) ==
              match Traverse(f, xs[..k])
              case Failure(e) => Failure(e)
              case Success(init) => (match f(xs[k]) case Failure(e) => Failure(e) case Success(last) => Success(init + [last]))
  {
    assert xs[..k + 1][..k] == xs[..k];
  }

  /** `uint32_t`, `uint16_t` and `uint8_t` of the source. */
  type u32 = x: int | 0 <= x < 0x1_0000_0000
  type u16 = x: int | 0 <= x < 0x1_0000
  type u8 = x: int | 0 <= x < 0x100

  /** `getInvalid<uint32_t>()`: the all-ones value, used for invalid asset,
      string and bone identifiers. */
  const INVALID: u32 := 0xFFFF_FFFF

  predicate IsValid(x: u32) { x != INVALID }

  /** `static_cast<uint16_t>` of a 32-bit value: keeps the low 16 bits. */
  function NarrowToU16(x: u32): (r: u16)
    ensures x < 0x1_0000 ==> r == x
  {
    x % 0x1_0000
  }
}
