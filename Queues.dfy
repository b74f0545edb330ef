/**
 * The de-duplicating enqueue that both chunk managers use on their FIFO
 * refresh queues: append an element unless the queue already holds it.
 * The front of a queue is index 0.
 */
module Queues {
  import opened Sequences

  /** `if (!queue.Contains(x)) queue.Enqueue(x)` */
  function EnqueueAbsent<T(==)>(q: seq<T>, x: T): seq<T>
  {
    if x in q then q else q + [x]
  }

  /** Enqueueing every element of xs, in order, each one only if absent */
  function EnqueueAllAbsent<T(==)>(q: seq<T>, xs: seq<T>): seq<T>
    decreases |xs|
  {
    if xs == [] then q else EnqueueAllAbsent(EnqueueAbsent(q, xs[0]), xs[1..])
  }

  /** The enqueue keeps what was queued, in order, and adds exactly x to the contents */
  lemma EnqueueAbsentContents<T>(q: seq<T>, x: T)
    ensures q <= EnqueueAbsent(q, x)
    ensures forall y :: y in EnqueueAbsent(q, x) <==> y in q || y == x
    ensures |EnqueueAbsent(q, x)| == if x in q then |q| else |q| + 1
  {
  }

  /** Asking twice gives the same queue as asking once */
  lemma EnqueueAbsentIdempotent<T>(q: seq<T>, x: T)
    ensures EnqueueAbsent(EnqueueAbsent(q, x), x) == EnqueueAbsent(q, x)
  {
  }

  /** A queue filled only through this enqueue never holds a duplicate */
  lemma EnqueueAbsentKeepsNoDuplicates<T>(q: seq<T>, x: T)
    requires NoDuplicates(q)
    ensures NoDuplicates(EnqueueAbsent(q, x))
  {
  }

  lemma {:induction false} EnqueueAllAbsentContents<T>(q: seq<T>, xs: seq<T>)
    ensures q <= EnqueueAllAbsent(q, xs)
    ensures forall y :: y in EnqueueAllAbsent(q, xs) <==> y in q || y in xs
    ensures NoDuplicates(q) ==> NoDuplicates(EnqueueAllAbsent(q, xs))
    decreases |xs|
  {
    if xs != [] {
      var q' := EnqueueAbsent(q, xs[0]);
      EnqueueAbsentContents(q, xs[0]);
      if NoDuplicates(q) {
        EnqueueAbsentKeepsNoDuplicates(q, xs[0]);
      }
      EnqueueAllAbsentContents(q', xs[1..]);
      forall y ensures y in xs <==> y == xs[0] || y in xs[1..] {
        assert xs == [xs[0]] + xs[1..];
      }
    }
  }

  /** Enqueueing a concatenation is enqueueing one part after the other */
  lemma {:induction false} EnqueueAllAbsentConcat<T>(q: seq<T>, xs: seq<T>, ys: seq<T>)
    ensures EnqueueAllAbsent(q, xs + ys) == EnqueueAllAbsent(EnqueueAllAbsent(q, xs), ys)
    decreases |xs|
  {
    if xs == [] {
      assert xs + ys == ys;
    } else {
      assert (xs + ys)[0] == xs[0] && (xs + ys)[1..] == xs[1..] + ys;
      EnqueueAllAbsentConcat(EnqueueAbsent(q, xs[0]), xs[1..], ys);
    }
  }

  lemma EnqueueAllAbsentSingle<T>(q: seq<T>, x: T)
    ensures EnqueueAllAbsent(q, [x]) == EnqueueAbsent(q, x)
  {
    assert [x][1..] == [];
  }

  /** Enqueueing only elements that are already queued leaves the queue as it is */
  lemma {:induction false} EnqueueAllPresent<T>(q: seq<T>, xs: seq<T>)
    requires forall x :: x in xs ==> x in q
    ensures EnqueueAllAbsent(q, xs) == q
    decreases |xs|
  {
    if xs != [] {
      assert xs[0] in xs;
      forall x | x in xs[1..] ensures x in q {
        assert x in xs;
      }
      EnqueueAllPresent(q, xs[1..]);
    }
  }

  /** Pressing G twice queues the same as pressing it once */
  lemma EnqueueAllAbsentIdempotent<T>(q: seq<T>, xs: seq<T>)
    ensures EnqueueAllAbsent(EnqueueAllAbsent(q, xs), xs) == EnqueueAllAbsent(q, xs)
  {
    EnqueueAllAbsentContents(q, xs);
    EnqueueAllPresent(EnqueueAllAbsent(q, xs), xs);
  }

  /** A plain enqueue of a value already queued does produce a duplicate */
  lemma PlainEnqueueCanDuplicate<T>(q: seq<T>, x: T)
    requires x in q
    ensures !NoDuplicates(q + [x])
  {
    var i :| 0 <= i < |q| && q[i] == x;
    assert (q + [x])[i] == (q + [x])[|q|];
  }
}
