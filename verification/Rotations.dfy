/** The order on cyclic rotations of a block that both block sorts of bzip2 realise.
    A rotation is named by the index of its first character.  Comparison looks at a given
    number h of characters, wrapping at the end of the block; comparing |s| characters
    compares whole rotations.  Rotations of a periodic block can be equal, so the order on
    whole rotations is a weak one. */
module Rotations {

  ghost predicate IsBytes(s: seq<int>)
  {
    forall i | 0 <= i < |s| :: 0 <= s[i] < 256
  }

  function Next(n: nat, i: nat): nat
    requires i < n
  {
    if i + 1 == n then 0 else i + 1
  }

  function Prev(n: nat, i: nat): nat
    requires i < n
  {
    if i == 0 then n - 1 else i - 1
  }

  /** The position h characters further on, for h up to one full turn. */
  function Shift(n: nat, i: nat, h: nat): nat
    requires i < n && h <= n
  {
    if i + h < n then i + h else i + h - n
  }

  /** Rotations i and j agree on their first h characters. */
  ghost predicate Eq(s: seq<int>, i: nat, j: nat, h: nat)
    requires i < |s| && j < |s|
    decreases h
  {
    h == 0 || (s[i] == s[j] && Eq(s, Next(|s|, i), Next(|s|, j), h - 1))
  }

  /** Rotation i is smaller than rotation j within the first h characters. */
  ghost predicate Lt(s: seq<int>, i: nat, j: nat, h: nat)
    requires i < |s| && j < |s|
    decreases h
  {
    h > 0 && (s[i] < s[j] || (s[i] == s[j] && Lt(s, Next(|s|, i), Next(|s|, j), h - 1)))
  }

  ghost predicate Le(s: seq<int>, i: nat, j: nat, h: nat)
    requires i < |s| && j < |s|
  {
    !Lt(s, j, i, h)
  }

  lemma {:induction false} Trichotomy(s: seq<int>, i: nat, j: nat, h: nat)
    requires i < |s| && j < |s|
    ensures Eq(s, i, j, h) <==> !Lt(s, i, j, h) && !Lt(s, j, i, h)
    ensures !(Lt(s, i, j, h) && Lt(s, j, i, h))
    ensures Eq(s, i, j, h) == Eq(s, j, i, h)
    decreases h
  {
    if h > 0 { Trichotomy(s, Next(|s|, i), Next(|s|, j), h - 1); }
  }

  lemma {:induction false} LeTransitive(s: seq<int>, i: nat, j: nat, k: nat, h: nat)
    requires i < |s| && j < |s| && k < |s|
    requires Le(s, i, j, h) && Le(s, j, k, h)
    ensures Le(s, i, k, h)
    ensures Lt(s, i, j, h) || Lt(s, j, k, h) ==> Lt(s, i, k, h)
    decreases h
  {
    if h > 0 && s[i] == s[j] == s[k] {
      LeTransitive(s, Next(|s|, i), Next(|s|, j), Next(|s|, k), h - 1);
    }
  }

  lemma {:induction false} EqReflexive(s: seq<int>, i: nat, h: nat)
    requires i < |s|
    ensures Eq(s, i, i, h)
    decreases h
  {
    if h > 0 { EqReflexive(s, Next(|s|, i), h - 1); }
  }

  /** Comparing a + b characters is comparing a of them and, on a tie, the next b. */
  lemma {:induction false} Split(s: seq<int>, i: nat, j: nat, a: nat, b: nat)
    requires i < |s| && j < |s| && a <= |s|
    ensures Eq(s, i, j, a + b) <==>
            Eq(s, i, j, a) && Eq(s, Shift(|s|, i, a), Shift(|s|, j, a), b)
    ensures Lt(s, i, j, a + b) <==>
            Lt(s, i, j, a) || (Eq(s, i, j, a) && Lt(s, Shift(|s|, i, a), Shift(|s|, j, a), b))
    decreases a
  {
    if a > 0 { Split(s, Next(|s|, i), Next(|s|, j), a - 1, b); }
  }

  /** Deeper comparisons keep every strict verdict; shallower ones keep every tie. */
  lemma {:induction false} Deepen(s: seq<int>, i: nat, j: nat, a: nat, b: nat)
    requires i < |s| && j < |s| && a <= b
    ensures Lt(s, i, j, a) ==> Lt(s, i, j, b)
    ensures Eq(s, i, j, b) ==> Eq(s, i, j, a)
    decreases a
  {
    if a > 0 { Deepen(s, Next(|s|, i), Next(|s|, j), a - 1, b - 1); }
  }

  /** Once |s| characters agree, all do: the comparison has come full circle. */
  lemma {:induction false} FullCircle(s: seq<int>, i: nat, j: nat, h: nat)
    requires i < |s| && j < |s|
    requires Eq(s, i, j, |s|)
    ensures Eq(s, i, j, h)
    decreases h
  {
    if h <= |s| {
      Deepen(s, i, j, h, |s|);
    } else {
      FullCircle(s, i, j, h - |s|);
      Split(s, i, j, |s|, h - |s|);
    }
  }

  /** Beyond |s| characters the verdict no longer changes. */
  lemma DeepEnough(s: seq<int>, i: nat, j: nat, h: nat)
    requires i < |s| && j < |s| && |s| <= h
    ensures Lt(s, i, j, h) == Lt(s, i, j, |s|)
    ensures Eq(s, i, j, h) == Eq(s, i, j, |s|)
  {
    Deepen(s, i, j, |s|, h);
    Trichotomy(s, i, j, |s|);
    Trichotomy(s, i, j, h);
    if Eq(s, i, j, |s|) { FullCircle(s, i, j, h); } else if Lt(s, j, i, |s|) {
      Deepen(s, j, i, |s|, h);
    }
  }

  /** p lists 0 .. n-1, each once. */
  ghost predicate IsPerm(p: seq<int>, n: nat)
  {
    && |p| == n
    && (forall a | 0 <= a < n :: 0 <= p[a] < n)
    && (forall a, b | 0 <= a < b < n :: p[a] != p[b])
  }

  /** p lists all rotations of s in non-decreasing order of their first h characters. */
  ghost predicate SortedTo(s: seq<int>, p: seq<int>, h: nat)
  {
    && IsPerm(p, |s|)
    && forall a, b | 0 <= a < b < |s| :: Le(s, p[a], p[b], h)
  }

  /** The outcome of a block sort: all rotations, in cyclic order. */
  ghost predicate SortedRotations(s: seq<int>, p: seq<int>)
  {
    SortedTo(s, p, |s|)
  }
}
