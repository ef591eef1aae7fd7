/** Failure-carrying result types shared by every module of the model, and
    the few facts about sequences that the proofs use everywhere. */
module Wrappers {

  /** A value or its absence: Java's `null` where the source returns one. */
  datatype Option<+T> = None | Some(value: T)

  /** The Java exceptions that the modelled code lets escape. */
  datatype Fault =
    | NullReference      // NullPointerException
    | IndexOutOfBounds   // ArrayIndexOutOfBoundsException and friends
    | NumberFormat       // NumberFormatException
    | SpellingIssue      // the ranker's SpellingException
    | IllegalArgument    // IllegalArgumentException

  /** The outcome of an operation that may end in an uncaught exception. */
  datatype Result<+T> = Ok(value: T) | Err(fault: Fault)

  /** `xs` followed by the sequence in `o`, or None when `o` is None. */
  function Prepend<T>(xs: seq<T>, o: Option<seq<T>>): (r: Option<seq<T>>)
    ensures r.Some? <==> o.Some?
    ensures r.Some? ==> r.value == xs + o.value
    ensures xs == [] ==> r == o
  {
    match o
    case None => None
    case Some(ys) =>
      assert xs == [] ==> xs + ys == ys;
      Some(xs + ys)
  }

  lemma PrependPrepend<T>(xs: seq<T>, ys: seq<T>, o: Option<seq<T>>)
    ensures Prepend(xs, Prepend(ys, o)) == Prepend(xs + ys, o)
  {
    match o
    case None =>
    case Some(zs) =>
      assert xs + (ys + zs) == (xs + ys) + zs;
  }

  /** A prefix one longer is the prefix and the next element. */
  lemma TakeSnoc<T>(s: seq<T>, k: nat)
    requires k < |s|
    ensures s[..k + 1] == s[..k] + [s[k]]
  {
  }

  /** A non-empty sequence is its head followed by its tail. */
  lemma HeadTail<T>(s: seq<T>)
    requires s != []
    ensures [s[0]] + s[1..] == s
  {
  }

  lemma ConcatAssoc<T>(a: seq<T>, b: seq<T>, c: seq<T>)
    ensures a + (b + c) == (a + b) + c
  {
  }

  /** The elements of a non-empty sequence: those of all but the last, and
      the last. */
  lemma ElementsSnoc<T>(s: seq<T>, n: nat)
    requires n + 1 == |s|
    ensures (set x | x in s) == (set x | x in s[..n]) + {s[n]}
  {
    forall x ensures x in s <==> x in s[..n] || x == s[n] {
      TakeSnoc(s, n);
      assert s[..n + 1] == s;
    }
  }
}
