/** The k-subsets of [0, n) the search visits, each written as its members in
    increasing order, listed in the order the search reaches them: the smallest member
    runs over start, start + 1, ..., and for each choice the remaining members are
    chosen above it. */
module Combinations {

  /** Strictly increasing members. */
  predicate Increasing(c: seq<nat>) {
    forall i, j :: 0 <= i < j < |c| ==> c[i] < c[j]
  }

  /** c is an r-subset of [start, n), written in increasing order. */
  predicate IsCombo(c: seq<nat>, start: nat, r: nat, n: nat) {
    |c| == r && Increasing(c) && forall i :: 0 <= i < |c| ==> start <= c[i] < n
  }

  /** Lexicographic order on member lists. */
  predicate LexLess(a: seq<nat>, b: seq<nat>) {
    |a| > 0 && |b| > 0 && (a[0] < b[0] || (a[0] == b[0] && LexLess(a[1..], b[1..])))
  }

  /** Strictly increasing in lexicographic order. */
  predicate LexOrdered(cs: seq<seq<nat>>) {
    forall i, j :: 0 <= i < j < |cs| ==> LexLess(cs[i], cs[j])
  }

  /** Each list of cs with v put in front. */
  function Prefixed(v: nat, cs: seq<seq<nat>>): (r: seq<seq<nat>>)
    ensures |r| == |cs| && forall i :: 0 <= i < |cs| ==> r[i] == [v] + cs[i]
  {
    seq(|cs|, i requires 0 <= i < |cs| => [v] + cs[i])
  }

  /** The r-subsets of [start, n) in the order the search visits them. */
  function Combos(start: nat, r: nat, n: nat): (cs: seq<seq<nat>>)
    decreases r, 1, 0
  {
    if r == 0 then [[]] else CombosFrom(start, r, n)
  }

  /** Those whose smallest member is v or more: while v + r <= n, the ones starting
      with v, then the ones starting later. */
  function CombosFrom(v: nat, r: nat, n: nat): (cs: seq<seq<nat>>)
    requires r >= 1
    decreases r, 0, n - v
  {
    if v + r > n then [] else Prefixed(v, Combos(v + 1, r - 1, n)) + CombosFrom(v + 1, r, n)
  }

  /** Every listed entry is an r-subset of [start, n). */
  lemma {:induction false} CombosSound(start: nat, r: nat, n: nat)
    ensures forall i :: 0 <= i < |Combos(start, r, n)| ==> IsCombo(Combos(start, r, n)[i], start, r, n)
    decreases r, 1, 0
  {
    if r > 0 {
      CombosFromSound(start, r, n);
    }
  }

  lemma {:induction false} CombosFromSound(v: nat, r: nat, n: nat)
    requires r >= 1
    ensures forall i :: 0 <= i < |CombosFrom(v, r, n)| ==> IsCombo(CombosFrom(v, r, n)[i], v, r, n)
    decreases r, 0, n - v
  {
    if v + r <= n {
      var head := Combos(v + 1, r - 1, n);
      CombosSound(v + 1, r - 1, n);
      CombosFromSound(v + 1, r, n);
      var cs := CombosFrom(v, r, n);
      forall i | 0 <= i < |cs| ensures IsCombo(cs[i], v, r, n) {
        if i < |head| {
          var c := head[i];
          assert cs[i] == [v] + c;
          assert IsCombo(c, v + 1, r - 1, n);
        } else {
          assert cs[i] == CombosFrom(v + 1, r, n)[i - |head|];
        }
      }
    }
  }

  /** The members of an increasing list are at least its first plus their position. */
  lemma {:induction false} IncreasingGap(c: seq<nat>, i: nat)
    requires Increasing(c) && i < |c|
    ensures c[i] >= c[0] + i
  {
    if i > 0 {
      IncreasingGap(c, i - 1);
    }
  }

  /** Every r-subset of [start, n) is listed. */
  lemma {:induction false} CombosComplete(start: nat, r: nat, n: nat, c: seq<nat>)
    requires IsCombo(c, start, r, n)
    ensures c in Combos(start, r, n)
    decreases r, 1, 0
  {
    if r > 0 {
      CombosFromComplete(start, r, n, c);
    }
  }

  lemma {:induction false} CombosFromComplete(v: nat, r: nat, n: nat, c: seq<nat>)
    requires r >= 1 && IsCombo(c, v, r, n)
    ensures c in CombosFrom(v, r, n)
    decreases r, 0, n - v
  {
    IncreasingGap(c, r - 1);
    assert v + r <= n;
    if c[0] == v {
      TailCombo(c, v, r, n);
      CombosComplete(v + 1, r - 1, n, c[1..]);
      PrefixedHas(v, Combos(v + 1, r - 1, n), c[1..]);
      assert c == [v] + c[1..];
    } else {
      RaisedCombo(c, v, r, n);
      CombosFromComplete(v + 1, r, n, c);
    }
  }

  /** Dropping the smallest member v leaves an (r - 1)-subset of [v + 1, n). */
  lemma TailCombo(c: seq<nat>, v: nat, r: nat, n: nat)
    requires r >= 1 && IsCombo(c, v, r, n) && c[0] == v
    ensures IsCombo(c[1..], v + 1, r - 1, n)
  {
    var tail := c[1..];
    forall i | 0 <= i < |tail| ensures v + 1 <= tail[i] < n {
      assert tail[i] == c[i + 1];
    }
  }

  /** A subset of [v, n) without v is a subset of [v + 1, n). */
  lemma RaisedCombo(c: seq<nat>, v: nat, r: nat, n: nat)
    requires r >= 1 && IsCombo(c, v, r, n) && c[0] != v
    ensures IsCombo(c, v + 1, r, n)
  {
    forall i | 0 <= i < |c| ensures v + 1 <= c[i] {
      if i > 0 {
        assert c[0] < c[i];
      }
    }
  }

  /** Prefixing every list of cs with v prefixes each one that cs holds. */
  lemma PrefixedHas(v: nat, cs: seq<seq<nat>>, t: seq<nat>)
    requires t in cs
    ensures [v] + t in Prefixed(v, cs)
  {
    var m :| 0 <= m < |cs| && cs[m] == t;
    assert Prefixed(v, cs)[m] == [v] + t;
  }

  /** The list is strictly increasing in lexicographic order. */
  lemma {:induction false} CombosOrdered(start: nat, r: nat, n: nat)
    ensures LexOrdered(Combos(start, r, n))
    decreases r, 1, 0
  {
    if r > 0 {
      assert Combos(start, r, n) == CombosFrom(start, r, n);
      CombosFromOrdered(start, r, n);
    }
  }

  lemma {:induction false} CombosFromOrdered(v: nat, r: nat, n: nat)
    requires r >= 1
    ensures LexOrdered(CombosFrom(v, r, n))
    decreases r, 0, n - v
  {
    if v + r <= n {
      var head := Combos(v + 1, r - 1, n);
      var rest := CombosFrom(v + 1, r, n);
      var cs := CombosFrom(v, r, n);
      CombosOrdered(v + 1, r - 1, n);
      CombosFromOrdered(v + 1, r, n);
      CombosFromSound(v + 1, r, n);
      forall i, j | 0 <= i < j < |cs| ensures LexLess(cs[i], cs[j]) {
        if j < |head| {
          assert cs[i] == [v] + head[i] && cs[j] == [v] + head[j];
          assert cs[i][1..] == head[i] && cs[j][1..] == head[j];
          assert LexLess(head[i], head[j]);
          assert cs[i][0] == cs[j][0];
        } else if i < |head| {
          assert cs[i] == [v] + head[i];
          assert cs[j] == rest[j - |head|];
          assert IsCombo(rest[j - |head|], v + 1, r, n);
          assert cs[i][0] == v < v + 1 <= cs[j][0];
        } else {
          assert cs[i] == rest[i - |head|] && cs[j] == rest[j - |head|];
          assert LexLess(rest[i - |head|], rest[j - |head|]);
        }
      }
    }
  }

  /** Lexicographic order is strict, so a strictly ordered list repeats nothing. */
  lemma {:induction false} LexLessIrreflexive(a: seq<nat>)
    ensures !LexLess(a, a)
    decreases |a|
  {
    if |a| > 0 {
      LexLessIrreflexive(a[1..]);
    }
  }

  /** Each r-subset of [start, n) is listed exactly once. */
  lemma CombosDistinct(start: nat, r: nat, n: nat)
    ensures var cs := Combos(start, r, n); forall i, j :: 0 <= i < j < |cs| ==> cs[i] != cs[j]
  {
    var cs := Combos(start, r, n);
    CombosOrdered(start, r, n);
    forall i, j | 0 <= i < j < |cs| ensures cs[i] != cs[j] {
      LexLessIrreflexive(cs[i]);
    }
  }
}
