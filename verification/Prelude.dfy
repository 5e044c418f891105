/** Optional values and results, shared by every module of the model. */
module Prelude {
  datatype Option<+T> = None | Some(value: T) {
    predicate IsFailure() {
      None?
    }

    function PropagateFailure<U>(): Option<U>
      requires None?
    {
      None
    }

    function Extract(): T
      requires Some?
    {
      value
    }
  }

  datatype Result<+T, +E> = Ok(value: T) | Err(error: E)

  /** The last `n` elements of `s`, or all of `s` when it is shorter. */
  function LastN<T>(s: seq<T>, n: nat): (r: seq<T>)
  {
    if |s| <= n then s else s[|s| - n..]
  }

  /** The first `n` elements of `s`, or all of `s` when it is shorter. */
  function FirstN<T>(s: seq<T>, n: nat): (r: seq<T>)
  {
    if |s| <= n then s else s[..n]
  }

  lemma Associative<T>(a: seq<T>, b: seq<T>, c: seq<T>)
    ensures a + (b + c) == (a + b) + c
  {
  }

  /** `b` up to `n` is `b` up to `n - 1` and one more element, behind whatever comes first. */
  lemma AppendSlice<T>(a: seq<T>, b: seq<T>, n: nat)
    requires 0 < n <= |b|
    ensures (a + b[..n - 1]) + [b[n - 1]] == a + b[..n]
  {
    assert b[..n] == b[..n - 1] + [b[n - 1]];
  }

  lemma TailOfAppend<T>(a: seq<T>, b: seq<T>)
    requires a != []
    ensures (a + b)[0] == a[0] && (a + b)[1..] == a[1..] + b
  {
  }

  lemma InitAndLast<T>(s: seq<T>)
    requires s != []
    ensures s[..|s| - 1] + [s[|s| - 1]] == s
    ensures s[|s| - 1] in s && forall x :: x in s[..|s| - 1] ==> x in s
  {
  }

  /** The `k`-th element and the rest of a suffix, in the positions of the whole. */
  lemma SuffixPositions<T>(s: seq<T>, from: nat, k: nat)
    requires from + k < |s|
    ensures s[from..][k] == s[from + k] && s[from..][k + 1..] == s[from + k + 1..]
  {
  }

  lemma AppendNothing<T>(a: seq<T>, b: seq<T>)
    ensures a + b[..0] == a && a + [] == a && [] + a == a && a[..|a|] == a
  {
  }

  function Concat<T>(parts: seq<seq<T>>): (r: seq<T>)
  {
    if parts == [] then [] else parts[0] + Concat(parts[1..])
  }

  /** What holds at `n` when every step needs one thing more. */
  lemma {:induction false} ChainUpTo(holds: nat -> bool, needs: nat -> bool, n: nat)
    requires holds(0) && forall c :: 0 <= c < n ==> (holds(c + 1) <==> holds(c) && needs(c))
    ensures holds(n) <==> forall c :: 0 <= c < n ==> needs(c)
  {
    if n > 0 {
      ChainUpTo(holds, needs, n - 1);
      assert holds((n - 1) + 1) <==> holds(n - 1) && needs(n - 1);
    }
  }

  /** `part` is `all` at the positions `at`, in order. */
  ghost predicate Picks<T>(all: seq<T>, part: seq<T>, at: seq<nat>) {
    && |at| == |part|
    && (forall j, k :: 0 <= j < k < |at| ==> at[j] < at[k])
    && (forall k :: 0 <= k < |at| ==> at[k] < |all| && all[at[k]] == part[k])
  }

  lemma PicksOneMore<T>(init: seq<T>, last: T, part: seq<T>, at: seq<nat>)
    requires Picks(init, part, at)
    ensures Picks(init + [last], part, at)
    ensures Picks(init + [last], part + [last], at + [|init|])
    ensures forall i :: i in at + [|init|] <==> i in at || i == |init|
    ensures |init| !in at
  {
  }

  /** The elements a test keeps. */
  function Where<T>(s: seq<T>, keep: T -> bool): (r: seq<T>)
  {
    if s == [] then []
    else
      var last := s[|s| - 1];
      Where(s[..|s| - 1], keep) + (if keep(last) then [last] else [])
  }

  /** They are picked in order, and no other element passes the test. */
  lemma {:induction false} WhereAre<T>(s: seq<T>, keep: T -> bool) returns (at: seq<nat>)
    ensures Picks(s, Where(s, keep), at)
    ensures forall i :: 0 <= i < |s| ==> (i in at <==> keep(s[i]))
  {
    at := [];
    if s != [] {
      var init, last := s[..|s| - 1], s[|s| - 1];
      InitAndLast(s);
      at := WhereAre(init, keep);
      PicksOneMore(init, last, Where(init, keep), at);
      AppendNothing(Where(init, keep), []);
      if keep(last) {
        at := at + [|init|];
      }
    }
  }
}
