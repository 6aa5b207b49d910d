/** The display list operations `update` and `delEntities` rely on, on plain
    sequences: `indexOf`, `splice(i, 1)`, deleting a batch of entries one by
    one, and splitting a pass into the entries to delete and the survivors. */
module DisplayList {

  /** `indexOf`: the first position holding x, or -1. */
  function IndexOf<T(==)>(s: seq<T>, x: T): (i: int)
    ensures -1 <= i < |s|
    ensures i == -1 <==> x !in s
    ensures 0 <= i ==> s[i] == x && x !in s[..i]
  {
    if s == [] then -1
    else if s[0] == x then 0
    else
      var k := IndexOf(s[1..], x);
      assert k >= 0 ==> s[..k + 1] == [s[0]] + s[1..][..k];
      if k == -1 then -1 else k + 1
  }

  /** `splice(indexOf(x), 1)` guarded by `index !== -1`: removes the first
      occurrence of x, and nothing when x is absent. */
  function RemoveFirst<T(==)>(s: seq<T>, x: T): (r: seq<T>)
    ensures x !in s ==> r == s
    ensures x in s ==> |r| == |s| - 1 && multiset(r) == multiset(s) - multiset{x}
  {
    var i := IndexOf(s, x);
    if i == -1 then s
    else
      assert s == s[..i] + [s[i]] + s[i + 1..];
      s[..i] + s[i + 1..]
  }

  /** The splice `delEntities` performs is `RemoveFirst`. */
  lemma RemoveFirstSplices<T>(s: seq<T>, x: T, i: int)
    requires i == IndexOf(s, x)
    ensures RemoveFirst(s, x) == if i == -1 then s else s[..i] + s[i + 1..]
  {
  }

  /** `delEntities(ds)`: the entries of ds removed from s one after the other. */
  function Without<T(==)>(s: seq<T>, ds: seq<T>): seq<T>
    decreases |ds|
  {
    if ds == [] then s else RemoveFirst(Without(s, ds[..|ds| - 1]), ds[|ds| - 1])
  }

  /** The entries s[i] with b[i] == v, in their order in s. */
  function Pick<T>(s: seq<T>, b: seq<bool>, v: bool): seq<T>
    requires |b| == |s|
    decreases |s|
  {
    if s == [] then []
    else Pick(s[..|s| - 1], b[..|b| - 1], v) + (if b[|b| - 1] == v then [s[|s| - 1]] else [])
  }

  /** The order `draw` visits the list in: last entry first. */
  function Reversed<T>(s: seq<T>): (r: seq<T>)
    ensures |r| == |s|
    ensures forall k :: 0 <= k < |s| ==> r[k] == s[|s| - 1 - k]
  {
    if s == [] then [] else [s[|s| - 1]] + Reversed(s[..|s| - 1])
  }

  /** The first occurrence is found past a prefix that does not hold x. */
  lemma {:induction false} RemoveFirstAfter<T>(a: seq<T>, x: T, c: seq<T>)
    requires x !in a
    ensures RemoveFirst(a + [x] + c, x) == a + c
  {
    var s := a + [x] + c;
    assert s[|a|] == x;
    IndexOfPast(a, x, c);
    assert s[..|a|] == a && s[|a| + 1..] == c;
  }

  lemma {:induction false} IndexOfPast<T>(a: seq<T>, x: T, c: seq<T>)
    requires x !in a
    ensures IndexOf(a + [x] + c, x) == |a|
    decreases |a|
  {
    var s := a + [x] + c;
    if a != [] {
      assert s[0] == a[0] != x;
      assert s[1..] == a[1..] + [x] + c;
      IndexOfPast(a[1..], x, c);
    }
  }

  /** Picking distributes over concatenation. */
  lemma {:induction false} PickAppend<T>(s1: seq<T>, b1: seq<bool>, s2: seq<T>, b2: seq<bool>, v: bool)
    requires |b1| == |s1| && |b2| == |s2|
    ensures Pick(s1 + s2, b1 + b2, v) == Pick(s1, b1, v) + Pick(s2, b2, v)
    decreases |s2|
  {
    if s2 == [] {
      assert s1 + s2 == s1 && b1 + b2 == b1;
    } else {
      var n := |s2| - 1;
      var s, b := s1 + s2, b1 + b2;
      assert s[..|s| - 1] == s1 + s2[..n] && b[..|b| - 1] == b1 + b2[..n];
      PickLast(s, b, v);
      PickLast(s2, b2, v);
      PickAppend(s1, b1, s2[..n], b2[..n], v);
    }
  }

  /** The entries to delete and the survivors partition the pass: together
      they are exactly its entries. */
  lemma {:induction false} PickPartitions<T>(s: seq<T>, b: seq<bool>)
    requires |b| == |s|
    ensures |Pick(s, b, true)| + |Pick(s, b, false)| == |s|
    ensures multiset(Pick(s, b, true)) + multiset(Pick(s, b, false)) == multiset(s)
    decreases |s|
  {
    if s != [] {
      var n := |s| - 1;
      PickPartitions(s[..n], b[..n]);
      PickLast(s, b, true);
      PickLast(s, b, false);
      MultisetOfLast(s);
      OneSideGrows(Pick(s[..n], b[..n], true), Pick(s[..n], b[..n], false), s[n], b[n]);
    }
  }

  /** The last entry of s is picked exactly when its flag matches. */
  lemma PickLast<T>(s: seq<T>, b: seq<bool>, v: bool)
    requires |b| == |s| > 0
    ensures Pick(s, b, v) == Pick(s[..|s| - 1], b[..|s| - 1], v) + (if b[|s| - 1] == v then [s[|s| - 1]] else [])
  {
  }

  lemma MultisetOfLast<T>(s: seq<T>)
    requires |s| > 0
    ensures multiset(s) == multiset(s[..|s| - 1]) + multiset{s[|s| - 1]}
  {
    assert s == s[..|s| - 1] + [s[|s| - 1]];
  }

  /** Adding x to one of two lists adds it once to their joint contents. */
  lemma OneSideGrows<T>(t: seq<T>, f: seq<T>, x: T, side: bool)
    ensures |t + (if side then [x] else [])| + |f + (if side then [] else [x])| == |t| + |f| + 1
    ensures multiset(t + (if side then [x] else [])) + multiset(f + (if side then [] else [x]))
         == multiset(t) + multiset(f) + multiset{x}
  {
    if side {
      assert f + [] == f;
    } else {
      assert t + [] == t;
    }
  }

  /** Picking never adds an entry. */
  lemma {:induction false} PickOnlyFrom<T>(s: seq<T>, b: seq<bool>, v: bool, x: T)
    requires |b| == |s| && x !in s
    ensures x !in Pick(s, b, v)
    decreases |s|
  {
    if s != [] {
      var n := |s| - 1;
      assert x !in s[..n] by { assert forall k :: 0 <= k < n ==> s[..n][k] == s[k]; }
      PickOnlyFrom(s[..n], b[..n], v, x);
    }
  }

  /** Every entry lands on the side its flag names. */
  lemma {:induction false} PickContains<T>(s: seq<T>, b: seq<bool>, i: nat)
    requires |b| == |s| && i < |s|
    ensures s[i] in Pick(s, b, b[i])
    decreases |s|
  {
    var n := |s| - 1;
    if i < n {
      PickContains(s[..n], b[..n], i);
      assert s[..n][i] == s[i] && b[..n][i] == b[i];
    }
  }

  /** A run of entries that are all flagged v is picked whole. */
  lemma {:induction false} PickAll<T>(s: seq<T>, b: seq<bool>, v: bool)
    requires |b| == |s| && forall i :: 0 <= i < |b| ==> b[i] == v
    ensures Pick(s, b, v) == s && Pick(s, b, !v) == []
    decreases |s|
  {
    if s != [] {
      PickAll(s[..|s| - 1], b[..|b| - 1], v);
    }
  }

  /** Survivors keep a prefix in which nothing is flagged. */
  lemma PickKeepsPrefix<T>(s: seq<T>, b: seq<bool>, n: nat)
    requires |b| == |s| && n <= |s| && forall i :: 0 <= i < n ==> !b[i]
    ensures |Pick(s, b, false)| >= n && Pick(s, b, false)[..n] == s[..n]
  {
    assert s == s[..n] + s[n..] && b == b[..n] + b[n..];
    PickAppend(s[..n], b[..n], s[n..], b[n..], false);
    PickAll(s[..n], b[..n], false);
  }

  /** Every flagged entry occurs exactly once in the list. */
  predicate FlaggedOnce<T(==)>(s: seq<T>, b: seq<bool>)
    requires |b| == |s|
  {
    forall i :: 0 <= i < |s| && b[i] ==> multiset(s)[s[i]] == 1
  }

  /** Deleting the flagged entries one by one with `indexOf`/`splice` leaves
      exactly the unflagged ones in their order, provided every flagged entry
      occurs only once in the list. */
  lemma DeletingPickedKeepsRest<T>(s: seq<T>, b: seq<bool>)
    requires |b| == |s|
    requires FlaggedOnce(s, b)
    ensures Without(s, Pick(s, b, true)) == Pick(s, b, false)
  {
    forall i | 0 <= i < |s| && b[i]
      ensures s[i] !in s[..i]
    {
      UniqueNotBefore(s, i);
    }
    DeletingBefore(s, b, []);
    assert s + [] == s;
  }

  /** The general case: deleting the flagged entries of `pre` from `pre + rest`,
      where no flagged entry occurs earlier in `pre`. */
  lemma {:induction false} DeletingBefore<T>(pre: seq<T>, b: seq<bool>, rest: seq<T>)
    requires |b| == |pre|
    requires forall i :: 0 <= i < |pre| && b[i] ==> pre[i] !in pre[..i]
    ensures Without(pre + rest, Pick(pre, b, true)) == Pick(pre, b, false) + rest
    decreases |pre|
  {
    if pre == [] {
      assert pre + rest == rest;
    } else {
      var n := |pre| - 1;
      var p, x := pre[..n], pre[n];
      assert pre + rest == p + ([x] + rest);
      forall i | 0 <= i < n && b[..n][i]
        ensures p[i] !in p[..i]
      {
        assert p[..i] == pre[..i];
      }
      DeletingBefore(p, b[..n], [x] + rest);
      var ds, kept := Pick(p, b[..n], true), Pick(p, b[..n], false);
      if b[n] {
        assert x !in p by { assert pre[..n] == p; }
        PickOnlyFrom(p, b[..n], false, x);
        DeleteOneMore(pre + rest, ds, kept, x, rest);
        assert Pick(pre, b, true) == ds + [x];
        assert Pick(pre, b, false) == kept;
      } else {
        Regroup(kept, x, rest);
        assert Pick(pre, b, true) == ds;
        assert Pick(pre, b, false) == kept + [x];
      }
    }
  }

  lemma Regroup<T>(a: seq<T>, x: T, c: seq<T>)
    ensures a + ([x] + c) == (a + [x]) + c
  {
  }

  /** Deleting one more entry that sits right after the survivors so far. */
  lemma DeleteOneMore<T>(s: seq<T>, ds: seq<T>, kept: seq<T>, x: T, c: seq<T>)
    requires Without(s, ds) == kept + ([x] + c) && x !in kept
    ensures Without(s, ds + [x]) == kept + c
  {
    calc {
      Without(s, ds + [x]);
    == { WithoutLast(s, ds, x); }
      RemoveFirst(Without(s, ds), x);
    == { assert kept + ([x] + c) == kept + [x] + c; }
      RemoveFirst(kept + [x] + c, x);
    == { RemoveFirstAfter(kept, x, c); }
      kept + c;
    }
  }

  /** One more entry of the pass is one more step of `Pick`. */
  lemma PickStep<T>(s: seq<T>, b: seq<bool>, j: nat, v: bool)
    requires |b| == |s| && j < |s|
    ensures Pick(s[..j + 1], b[..j + 1], v)
         == Pick(s[..j], b[..j], v) + (if b[j] == v then [s[j]] else [])
  {
    assert s[..j + 1][..j] == s[..j] && b[..j + 1][..j] == b[..j];
  }

  /** One more visited entry, and its flag, extend the picks of the prefix. */
  lemma PickExtend<T>(s: seq<T>, b: seq<bool>, j: nat, x: bool, v: bool)
    requires |b| == j < |s|
    ensures Pick(s[..j + 1], b + [x], v) == Pick(s[..j], b, v) + (if x == v then [s[j]] else [])
  {
    assert s[..j + 1][..j] == s[..j] && (b + [x])[..j] == b;
  }

  /** Deleting one more entry removes its first occurrence from what is left. */
  lemma WithoutLast<T>(s: seq<T>, ds: seq<T>, x: T)
    ensures Without(s, ds + [x]) == RemoveFirst(Without(s, ds), x)
  {
    assert (ds + [x])[..|ds|] == ds;
  }

  /** A list that only grew at its end still starts with the old prefixes. */
  lemma TakeOfExtension<T>(s: seq<T>, t: seq<T>, n: nat)
    requires |s| <= |t| && t[..|s|] == s && n <= |s|
    ensures t[..n] == s[..n]
  {
    assert forall k :: 0 <= k < n ==> t[..n][k] == t[..|s|][k];
  }

  lemma TakeOneMore<T>(s: seq<T>, j: nat)
    requires j < |s|
    ensures s[..j + 1] == s[..j] + [s[j]]
  {
  }

  /** An entry that occurs once does not occur before its position. */
  lemma UniqueNotBefore<T>(s: seq<T>, j: nat)
    requires j < |s| && multiset(s)[s[j]] == 1
    ensures multiset(s[..j])[s[j]] == 0
  {
    assert s == s[..j] + [s[j]] + s[j + 1..];
    assert multiset(s) == multiset(s[..j]) + multiset{s[j]} + multiset(s[j + 1..]);
  }
}
