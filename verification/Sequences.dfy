/** Sequences that stand for lists: elements that occur once, and taking one out. */
module Sequences {

  ghost predicate NoRepeats<T>(s: seq<T>)
  {
    forall i, j :: 0 <= i < j < |s| ==> s[i] != s[j]
  }

  ghost function Elements<T>(s: seq<T>): set<T>
  {
    set x | x in s
  }

  lemma {:induction false} ElementCount<T>(s: seq<T>)
    requires NoRepeats(s)
    ensures |Elements(s)| == |s|
  {
    if s == [] {
      assert Elements(s) == {};
    } else {
      var (n, t) := (|s| - 1, s[..|s| - 1]);
      forall i | 0 <= i < n ensures t[i] != s[n] { assert t[i] == s[i]; }
      ElementCount(t);
      assert s == t + [s[n]];
      ElementsMore(t, s[n]);
    }
  }

  lemma {:induction false} ElementsMore<T>(s: seq<T>, x: T)
    ensures Elements(s + [x]) == Elements(s) + {x}
  {
  }

  ghost function RemoveAt<T>(s: seq<T>, k: nat): seq<T>
    requires k < |s|
  {
    s[..k] + s[k + 1..]
  }

  ghost predicate IsRemoveAt<T>(r: seq<T>, s: seq<T>, k: nat)
  {
    && |r| == |s| - 1 && k < |s|
    && (forall i {:trigger r[i]} :: 0 <= i < k ==> r[i] == s[i]) && (forall i :: k <= i < |r| ==> r[i] == s[i + 1])
  }

  lemma {:induction false} RemoveAtIs<T>(s: seq<T>, k: nat)
    requires k < |s|
    ensures IsRemoveAt(RemoveAt(s, k), s, k) && s == s[..k] + [s[k]] + s[k + 1..]
  {
  }

  /** `s` without the first `x`. */
  ghost function Without<T>(s: seq<T>, x: T): seq<T>
  {
    if s == [] then [] else if s[0] == x then s[1..] else [s[0]] + Without(s[1..], x)
  }

  lemma {:induction false} WithoutAt<T>(a: seq<T>, x: T, b: seq<T>)
    requires x !in a
    ensures Without(a + [x] + b, x) == a + b
  {
    if a != [] {
      WithoutAt(a[1..], x, b);
      Behind(a, x, b);
    } else {
      assert ([] + [x] + b)[1..] == b;
    }
  }

  lemma {:induction false} Behind<T>(a: seq<T>, x: T, b: seq<T>)
    requires a != []
    ensures (a + [x] + b)[0] == a[0] && (a + [x] + b)[1..] == a[1..] + [x] + b && a + b == [a[0]] + (a[1..] + b)
  {
  }

  lemma {:induction false} WithoutIsRemoveAt<T>(s: seq<T>, k: nat)
    requires NoRepeats(s) && k < |s|
    ensures Without(s, s[k]) == RemoveAt(s, k)
  {
    RemoveAtIs(s, k);
    forall i | 0 <= i < k ensures s[..k][i] != s[k] { assert s[..k][i] == s[i]; }
    WithoutAt(s[..k], s[k], s[k + 1..]);
  }

  lemma {:induction false} WithoutAbsent<T>(s: seq<T>, x: T)
    requires x !in s
    ensures Without(s, x) == s
  {
    if s != [] {
      assert s[0] in s;
      WithoutAbsent(s[1..], x);
    }
  }
}
