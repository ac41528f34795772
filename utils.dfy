/** utils.ts: `flatten`, `permutations` and `PromiseCache`. `allDirectories`
    and `canExecute` touch the file system and are inputs of the discovery
    model instead. */
module Utils {
  import opened Wrappers

  // ---------------------------------------------------------------------------
  // flatten

  function TotalLength<T>(arr: seq<seq<T>>): nat {
    if arr == [] then 0 else |arr[0]| + TotalLength(arr[1..])
  }

  /** `Array.prototype.concat.apply([], arr)`: the inner arrays one after the other. */
  function Flatten<T>(arr: seq<seq<T>>): (r: seq<T>)
    ensures |r| == TotalLength(arr)
  {
    if arr == [] then [] else arr[0] + Flatten(arr[1..])
  }

  lemma {:induction false} FlattenAppend<T>(a: seq<seq<T>>, b: seq<seq<T>>)
    ensures Flatten(a + b) == Flatten(a) + Flatten(b)
  {
    if a != [] {
      assert (a + b)[1..] == a[1..] + b;
      FlattenAppend(a[1..], b);
    } else {
      assert a + b == b;
    }
  }

  /** Element `j` of inner array `i` sits after all elements of the arrays before it. */
  lemma {:induction false} FlattenAt<T>(arr: seq<seq<T>>, i: nat, j: nat)
    requires i < |arr| && j < |arr[i]|
    ensures TotalLength(arr[..i]) + j < |Flatten(arr)|
    ensures Flatten(arr)[TotalLength(arr[..i]) + j] == arr[i][j]
  {
    if i > 0 {
      assert arr[..i][1..] == arr[1..][..i - 1];
      FlattenAt(arr[1..], i - 1, j);
    }
  }

  /** Something is in the flattened array exactly when it is in one of the inner arrays. */
  lemma {:induction false} FlattenContains<T>(arr: seq<seq<T>>, x: T)
    ensures x in Flatten(arr) <==> exists i :: 0 <= i < |arr| && x in arr[i]
  {
    if arr != [] {
      FlattenContains(arr[1..], x);
      if x in Flatten(arr[1..]) {
        var i :| 0 <= i < |arr[1..]| && x in arr[1..][i];
        assert x in arr[i + 1];
      }
      if exists i :: 0 <= i < |arr| && x in arr[i] {
        var i :| 0 <= i < |arr| && x in arr[i];
        if i > 0 {
          assert x in arr[1..][i - 1];
        }
      }
    }
  }

  // ---------------------------------------------------------------------------
  // permutations

  /** The pairs `[x, b[j]]` for every `j`, in order. */
  function Row<T>(x: T, b: seq<T>): seq<seq<T>> {
    seq(|b|, j requires 0 <= j < |b| => [x, b[j]])
  }

  /** The cartesian product of `a` and `b`, row by row: the reference for `Permutations`. */
  function Product<T>(a: seq<T>, b: seq<T>): seq<seq<T>> {
    if a == [] then [] else Product(a[..|a| - 1], b) + Row(a[|a| - 1], b)
  }

  /** The product holds `|a|·|b|` pairs, `[a[i], b[j]]` at index `i·|b| + j`. */
  lemma {:induction false} ProductAt<T>(a: seq<T>, b: seq<T>, i: nat, j: nat)
    requires i < |a| && j < |b|
    ensures |Product(a, b)| == |a| * |b|
    ensures i * |b| + j < |a| * |b|
    ensures Product(a, b)[i * |b| + j] == [a[i], b[j]]
  {
    var n := |a| - 1;
    var front := a[..n];
    ProductLength(front, b);
    assert |Product(a, b)| == n * |b| + |b| == |a| * |b|;
    if i < n {
      assert front[i] == a[i];
      ProductAt(front, b, i, j);
      assert (i + 1) * |b| <= n * |b| by { MulMonotone(i + 1, n, |b|); }
    } else {
      assert i * |b| == n * |b|;
    }
  }

  lemma {:induction false} ProductLength<T>(a: seq<T>, b: seq<T>)
    ensures |Product(a, b)| == |a| * |b|
  {
    if a != [] {
      ProductLength(a[..|a| - 1], b);
      assert |a| * |b| == (|a| - 1) * |b| + |b|;
    }
  }

  lemma MulMonotone(x: nat, y: nat, k: nat)
    requires x <= y
    ensures x * k <= y * k
  {
  }

  /** `permutations(array1, array2)`: two nested loops pushing `[array1[i], array2[j]]`. */
  method Permutations<T>(left: seq<T>, right: seq<T>) returns (r: seq<seq<T>>)
    ensures r == Product(left, right)
  {
    r := [];
    for i := 0 to |left|
      invariant r == Product(left[..i], right)
    {
      for j := 0 to |right|
        invariant r == Product(left[..i], right) + Row(left[i], right[..j])
      {
        assert Row(left[i], right[..j + 1]) == Row(left[i], right[..j]) + [[left[i], right[j]]];
        r := r + [[left[i], right[j]]];
      }
      assert right[..|right|] == right;
      assert left[..i + 1][..i] == left[..i];
    }
    assert left[..|left|] == left;
  }

  // ---------------------------------------------------------------------------
  // PromiseCache

  /** What a call of the cached function returns: `Promise.resolve(cache)`,
      the promise already held in `currentlyExecutingPromise` (by number), or
      the promise of a producer invocation it has just started. */
  datatype Reply<R> = Cached(value: R) | Shared(promise: nat) | Started(promise: nat)

  /** The closure `PromiseCache(func)`, run as a sequence of events: a call of
      the returned function (`Call`), the producer's promise fulfilling with a
      value that may be `null` (`Complete`) or rejecting (`Fail`). Promise
      number `k` is the one the `k`-th producer invocation returned. */
  class PromiseCache<R> {
    var cache: Option<R>
    var currentlyExecuting: Option<nat>
    var rejected: bool
    var invocations: nat

    /** A promise is held only while nothing is cached, and it is always the
        latest invocation's; only a held promise can have rejected. */
    ghost predicate Valid()
      reads this
    {
      (currentlyExecuting.Some? ==>
         cache.None? && 0 < currentlyExecuting.value == invocations)
      && (rejected ==> currentlyExecuting.Some?)
    }

    constructor ()
      ensures Valid()
      ensures cache == None && currentlyExecuting == None && !rejected && invocations == 0
    {
      cache := None;
      currentlyExecuting := None;
      rejected := false;
      invocations := 0;
    }

    /** The producer is invoked only when both `cache` and
        `currentlyExecutingPromise` are null. */
    method Call() returns (reply: Reply<R>)
      requires Valid()
      modifies this
      ensures Valid()
      ensures old(cache).Some? ==> reply == Cached(old(cache).value) && unchanged(this)
      ensures old(cache).None? && old(currentlyExecuting).Some? ==>
                reply == Shared(old(currentlyExecuting).value) && unchanged(this)
      ensures old(cache).None? && old(currentlyExecuting).None? ==>
                invocations == old(invocations) + 1 && reply == Started(invocations)
                && currentlyExecuting == Some(invocations) && cache == None && !rejected
    {
      if cache.Some? {
        reply := Cached(cache.value);
      } else if currentlyExecuting.Some? {
        reply := Shared(currentlyExecuting.value);
      } else {
        invocations := invocations + 1;
        currentlyExecuting := Some(invocations);
        rejected := false;
        reply := Started(invocations);
      }
    }

    /** The `.then` handler: the first non-null result is kept, and the
        promise is let go. */
    method Complete(res: Option<R>)
      requires Valid() && currentlyExecuting.Some? && !rejected
      modifies this
      ensures Valid()
      ensures cache == (if old(cache).None? then res else old(cache))
      ensures cache == res
      ensures currentlyExecuting == None && !rejected && invocations == old(invocations)
    {
      if cache.None? {
        cache := res;
      }
      currentlyExecuting := None;
    }

    /** The producer's promise rejects. There is no rejection handler, so the
        rejected promise stays in `currentlyExecutingPromise`. */
    method Fail()
      requires Valid() && currentlyExecuting.Some? && !rejected
      modifies this
      ensures Valid()
      ensures rejected && currentlyExecuting == old(currentlyExecuting)
      ensures cache == old(cache) && invocations == old(invocations)
    {
      rejected := true;
    }

    /** `n` calls in a row while the state does not move on. */
    method CallRepeatedly(n: nat) returns (replies: seq<Reply<R>>)
      requires Valid() && (cache.Some? || currentlyExecuting.Some?)
      modifies this
      ensures Valid() && unchanged(this)
      ensures |replies| == n
      ensures forall i :: 0 <= i < n ==>
                replies[i] == if cache.Some? then Cached(cache.value)
                              else Shared(currentlyExecuting.value)
    {
      replies := [];
      for i := 0 to n
        invariant unchanged(this)
        invariant |replies| == i
        invariant forall k :: 0 <= k < i ==>
                    replies[k] == if cache.Some? then Cached(cache.value)
                                  else Shared(currentlyExecuting.value)
      {
        var reply := Call();
        replies := replies + [reply];
      }
    }
  }

  /** Callers that arrive while the first producer run is pending all get
      its promise; the producer runs once. */
  method SingleFlight<R>(n: nat) returns (first: Reply<R>, later: seq<Reply<R>>, invocations: nat)
    ensures first == Started(1)
    ensures |later| == n && forall i :: 0 <= i < n ==> later[i] == Shared(1)
    ensures invocations == 1
  {
    var c := new PromiseCache<R>();
    first := c.Call();
    later := c.CallRepeatedly(n);
    invocations := c.invocations;
  }

  /** Once a non-null result is in, every call returns it without invoking
      the producer again. */
  method ResultIsCached<R>(v: R, n: nat) returns (later: seq<Reply<R>>, invocations: nat)
    ensures |later| == n && forall i :: 0 <= i < n ==> later[i] == Cached(v)
    ensures invocations == 1
  {
    var c := new PromiseCache<R>();
    var _ := c.Call();
    c.Complete(Some(v));
    later := c.CallRepeatedly(n);
    invocations := c.invocations;
  }

  /** A null result is not cached: the next call invokes the producer again. */
  method NullIsNotCached<R>() returns (second: Reply<R>, invocations: nat)
    ensures second == Started(2) && invocations == 2
  {
    var c := new PromiseCache<R>();
    var _ := c.Call();
    c.Complete(None);
    second := c.Call();
    invocations := c.invocations;
  }

  /** A rejection is never retried: every later call gets the same rejected
      promise and the producer is not invoked again. */
  method RejectionIsPermanent<R>(n: nat) returns (later: seq<Reply<R>>, invocations: nat, rejected: bool)
    ensures |later| == n && forall i :: 0 <= i < n ==> later[i] == Shared(1)
    ensures invocations == 1 && rejected
  {
    var c := new PromiseCache<R>();
    var _ := c.Call();
    c.Fail();
    later := c.CallRepeatedly(n);
    invocations := c.invocations;
    rejected := c.rejected;
  }
}
