/** Small shared vocabulary: an optional value, and a filter over sequences
    whose order-preservation is stated once and reused by every module that
    filters a list (calendar events, recurring events, PDF listings). */
module Common {

  datatype Option<+T> = None | Some(value: T)

  /** An optional Python string argument that is truthy: given and
      non-empty. */
  predicate Truthy(s: Option<string>) {
    s.Some? && s.value != []
  }

  /** Python's list comprehension `[x for x in s if p(x)]`. */
  function Filter<T>(s: seq<T>, p: T -> bool): (r: seq<T>)
    ensures |r| <= |s|
    ensures forall i :: 0 <= i < |r| ==> p(r[i])
  {
    if s == [] then [] else (if p(s[0]) then [s[0]] else []) + Filter(s[1..], p)
  }

  /** An element is kept exactly when it occurs in the input and satisfies
      the predicate. */
  lemma {:induction false} FilterMembership<T>(s: seq<T>, p: T -> bool, x: T)
    ensures x in Filter(s, p) <==> x in s && p(x)
  {
    if s != [] {
      FilterMembership(s[1..], p, x);
      assert x in s <==> x == s[0] || x in s[1..];
    }
  }

  /** Filtering commutes with concatenation: together with the membership
      clause of Filter this pins down the order of the kept elements. */
  lemma {:induction false} FilterConcat<T>(a: seq<T>, b: seq<T>, p: T -> bool)
    ensures Filter(a + b, p) == Filter(a, p) + Filter(b, p)
  {
    if a == [] {
      assert a + b == b;
    } else {
      assert (a + b)[1..] == a[1..] + b;
      FilterConcat(a[1..], b, p);
    }
  }

  /** Keeping every element leaves the length unchanged only when nothing was
      dropped, in both directions. */
  lemma {:induction false} FilterKeepsLength<T>(s: seq<T>, p: T -> bool)
    ensures |Filter(s, p)| == |s| <==> forall i :: 0 <= i < |s| ==> p(s[i])
  {
    if s != [] {
      FilterKeepsLength(s[1..], p);
      if !p(s[0]) {
        assert |Filter(s, p)| < |s|;
      } else {
        assert forall i :: 1 <= i < |s| ==> s[i] == s[1..][i - 1];
      }
    }
  }

  /** Filtering by a predicate every element satisfies is the identity. */
  lemma {:induction false} FilterAll<T>(s: seq<T>, p: T -> bool)
    requires forall i :: 0 <= i < |s| ==> p(s[i])
    ensures Filter(s, p) == s
  {
    if s != [] {
      FilterAll(s[1..], p);
    }
  }

  /** Filtering by a predicate no element satisfies leaves nothing. */
  lemma {:induction false} FilterNone<T>(s: seq<T>, p: T -> bool)
    requires forall i :: 0 <= i < |s| ==> !p(s[i])
    ensures Filter(s, p) == []
  {
    if s != [] {
      FilterNone(s[1..], p);
    }
  }

  /** The outputs of `f` on every element, numbered on from `first`, one
      after another. */
  function FlatMap<A, B>(s: seq<A>, first: nat, f: (A, nat) -> seq<B>): seq<B>
    decreases |s|
  {
    if s == [] then [] else f(s[0], first) + FlatMap(s[1..], first + 1, f)
  }

  /** Mapping a concatenation maps its parts, the second numbered on from
      where the first stopped. */
  lemma {:induction false} FlatMapConcat<A, B>(a: seq<A>, b: seq<A>, first: nat, f: (A, nat) -> seq<B>)
    ensures FlatMap(a + b, first, f) == FlatMap(a, first, f) + FlatMap(b, first + |a|, f)
    decreases |a|
  {
    if a == [] {
      assert a + b == b;
    } else {
      assert (a + b)[0] == a[0] && (a + b)[1..] == a[1..] + b;
      FlatMapConcat(a[1..], b, first + 1, f);
    }
  }
}
