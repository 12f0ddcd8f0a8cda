/** Sequence predicates and a sum over finite sets, shared by the ledger models. */
module Collections {

  /** No element occurs twice in `s`. */
  predicate Distinct<T(==)>(s: seq<T>) {
    forall i, j :: 0 <= i < j < |s| ==> s[i] != s[j]
  }

  /** Prepending an element keeps a sequence duplicate-free exactly when the element is new. */
  lemma DistinctCons<T>(a: T, t: seq<T>)
    ensures Distinct([a] + t) <==> a !in t && Distinct(t)
  {
    if a !in t && Distinct(t) {
      forall i, j | 0 <= i < j < |[a] + t| ensures ([a] + t)[i] != ([a] + t)[j] {
        if i > 0 {
          assert ([a] + t)[i] == t[i - 1];
        }
      }
    }
    if Distinct([a] + t) {
      assert forall i, j :: 0 <= i < j < |t| ==> t[i] == ([a] + t)[i + 1] && t[j] == ([a] + t)[j + 1];
      forall k | 0 <= k < |t| ensures t[k] != a {
        assert ([a] + t)[k + 1] == t[k];
        assert ([a] + t)[0] == a;
        assert ([a] + t)[0] != ([a] + t)[k + 1];
      }
    }
  }

  /** A sequence with no members is empty. */
  lemma NoMembers<T>(s: seq<T>)
    requires forall x :: x !in s
    ensures s == []
  {
    if |s| > 0 {
      HeadMember(s);
      assert false;
    }
  }

  /** The first element of a non-empty sequence is one of its members. */
  lemma HeadMember<T>(s: seq<T>)
    requires |s| > 0
    ensures s[0] in s
  {
  }

  /** `order` lists every element of `keys` exactly once: one possible
      iteration order of a hash map whose key set is `keys`. */
  predicate IsEnumeration<T(==)>(order: seq<T>, keys: set<T>) {
    && |order| == |keys|
    && Distinct(order)
    && (forall i :: 0 <= i < |order| ==> order[i] in keys)
    && (forall x :: x in keys ==> x in order)
  }

  /** Some element of a non-empty set. */
  ghost function Pick<T>(s: set<T>): (x: T)
    requires s != {}
    ensures x in s
  {
    var x :| x in s; x
  }

  /** The sum of `f` over the elements of the finite set `s`. */
  ghost function SumSet<T>(s: set<T>, f: T -> real): real
    decreases |s|
  {
    if s == {} then 0.0
    else
      var x := Pick(s);
      f(x) + SumSet(s - {x}, f)
  }

  /** Any element may be taken out of the sum first, not only the one `Pick` chooses. */
  lemma {:induction false} SumSetRemove<T>(s: set<T>, f: T -> real, y: T)
    requires y in s
    ensures SumSet(s, f) == f(y) + SumSet(s - {y}, f)
    decreases |s|
  {
    var x := Pick(s);
    if x != y {
      SumSetRemove(s - {x}, f, y);
      SumSetRemove(s - {y}, f, x);
      assert s - {x} - {y} == s - {y} - {x};
    }
  }

  /** Adding a fresh element adds its value. */
  lemma SumSetInsert<T>(s: set<T>, f: T -> real, y: T)
    requires y !in s
    ensures SumSet(s + {y}, f) == f(y) + SumSet(s, f)
  {
    SumSetRemove(s + {y}, f, y);
    assert s + {y} - {y} == s;
  }

  /** Two functions that agree on `s` have the same sum over it. */
  lemma {:induction false} SumSetExt<T>(s: set<T>, f: T -> real, g: T -> real)
    requires forall x :: x in s ==> f(x) == g(x)
    ensures SumSet(s, f) == SumSet(s, g)
    decreases |s|
  {
    if s != {} {
      var x := Pick(s);
      SumSetExt(s - {x}, f, g);
    }
  }

  /** The sum of a pointwise sum is the sum of the sums. */
  lemma {:induction false} SumSetAdd<T>(s: set<T>, f: T -> real, g: T -> real, h: T -> real)
    requires forall x :: x in s ==> h(x) == f(x) + g(x)
    ensures SumSet(s, h) == SumSet(s, f) + SumSet(s, g)
    decreases |s|
  {
    if s != {} {
      var x := Pick(s);
      SumSetAdd(s - {x}, f, g, h);
      SumSetRemove(s, f, x);
      SumSetRemove(s, g, x);
    }
  }

  /** The sum of a pointwise difference is the difference of the sums. */
  lemma {:induction false} SumSetSub<T>(s: set<T>, f: T -> real, g: T -> real, h: T -> real)
    requires forall x :: x in s ==> h(x) == f(x) - g(x)
    ensures SumSet(s, h) == SumSet(s, f) - SumSet(s, g)
    decreases |s|
  {
    if s != {} {
      var x := Pick(s);
      SumSetSub(s - {x}, f, g, h);
      SumSetRemove(s, f, x);
      SumSetRemove(s, g, x);
    }
  }

  /** A function that is zero on `s` sums to zero. */
  lemma {:induction false} SumSetZero<T>(s: set<T>, f: T -> real)
    requires forall x :: x in s ==> f(x) == 0.0
    ensures SumSet(s, f) == 0.0
    decreases |s|
  {
    if s != {} {
      SumSetZero(s - {Pick(s)}, f);
    }
  }

  /** Changing the value at one element by `d` changes the sum by `d`. */
  lemma SumSetUpdate<T>(s: set<T>, f: T -> real, g: T -> real, y: T, d: real)
    requires y in s
    requires g(y) == f(y) + d
    requires forall x :: x in s && x != y ==> g(x) == f(x)
    ensures SumSet(s, g) == SumSet(s, f) + d
  {
    SumSetRemove(s, f, y);
    SumSetRemove(s, g, y);
    SumSetExt(s - {y}, f, g);
  }

  /** Maps over the same keys have the same size. */
  lemma SameKeysSize<K, V, W>(a: map<K, V>, b: map<K, W>)
    requires a.Keys == b.Keys
    ensures |a| == |b|
  {
    assert |a| == |a.Keys|;
    assert |b| == |b.Keys|;
  }

  /** `n` copies of `c` added up. */
  function Times(n: nat, c: real): (r: real)
    ensures c >= 0.0 ==> r >= 0.0
    ensures c >= 0.0 && n >= 1 ==> r >= c
  {
    if n == 0 then 0.0 else c + Times(n - 1, c)
  }

  /** A function at most `c` on `s` sums to at most `|s|` copies of `c`. */
  lemma {:induction false} SumSetAtMost<T>(s: set<T>, f: T -> real, c: real)
    requires forall x :: x in s ==> f(x) <= c
    ensures SumSet(s, f) <= Times(|s|, c)
    decreases |s|
  {
    if s != {} {
      var x := Pick(s);
      SumSetAtMost(s - {x}, f, c);
    }
  }

  /** A function at least `c` on `s` sums to at least `|s|` copies of `c`. */
  lemma {:induction false} SumSetAtLeast<T>(s: set<T>, f: T -> real, c: real)
    requires forall x :: x in s ==> f(x) >= c
    ensures SumSet(s, f) >= Times(|s|, c)
    decreases |s|
  {
    if s != {} {
      var x := Pick(s);
      SumSetAtLeast(s - {x}, f, c);
    }
  }

  /** Values that sum to zero and are each at most `c` are each at least
      minus `|s| - 1` copies of `c`: what one is short, the others make up. */
  lemma SumZeroAtMost<T>(s: set<T>, f: T -> real, c: real, y: T)
    requires y in s && SumSet(s, f) == 0.0
    requires forall x :: x in s ==> f(x) <= c
    ensures f(y) >= -Times(|s| - 1, c)
  {
    SumSetAtMost(s - {y}, f, c);
    SumSetRemove(s, f, y);
  }

  /** Values that sum to zero and are each at least `-c` are each at most
      `|s| - 1` copies of `c`. */
  lemma SumZeroAtLeast<T>(s: set<T>, f: T -> real, c: real, y: T)
    requires y in s && SumSet(s, f) == 0.0
    requires forall x :: x in s ==> f(x) >= -c
    ensures f(y) <= Times(|s| - 1, c)
  {
    SumSetAtLeast(s - {y}, f, -c);
    TimesNeg(|s| - 1, c);
    SumSetRemove(s, f, y);
  }

  lemma {:induction false} TimesNeg(n: nat, c: real)
    ensures Times(n, -c) == -Times(n, c)
  {
    if n > 0 { TimesNeg(n - 1, c); }
  }
}
