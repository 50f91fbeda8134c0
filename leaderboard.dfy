/** The small table of best groups found so far: a multimap from score to group,
    kept as a sequence sorted by score. Among equal scores the older entry comes
    first, because the multimap places a new element after every equal key. */
module Leaderboards {

  /** A score and the membership vector of its group. */
  type Entry = (real, seq<bool>)

  /** The order a multimap iterates in: non-decreasing keys. */
  predicate Sorted(s: seq<Entry>) {
    forall i, j :: 0 <= i < j < |s| ==> s[i].0 <= s[j].0
  }

  /** Where a multimap places a new element: after every entry whose key is not greater. */
  function Insert(s: seq<Entry>, x: Entry): (r: seq<Entry>)
    ensures |r| == |s| + 1
  {
    if |s| == 0 then [x]
    else if s[0].0 <= x.0 then [s[0]] + Insert(s[1..], x)
    else [x] + s
  }

  /** Insertion adds exactly the new entry. */
  lemma {:induction false} InsertMultiset(s: seq<Entry>, x: Entry)
    ensures multiset(Insert(s, x)) == multiset(s) + multiset{x}
  {
    if |s| > 0 && s[0].0 <= x.0 {
      InsertMultiset(s[1..], x);
      assert s == [s[0]] + s[1..];
    }
  }

  /** Insertion keeps every key at least b when the old keys and the new key are. */
  lemma {:induction false} InsertKeys(s: seq<Entry>, x: Entry, b: real)
    requires b <= x.0 && forall i :: 0 <= i < |s| ==> b <= s[i].0
    ensures forall i :: 0 <= i < |Insert(s, x)| ==> b <= Insert(s, x)[i].0
  {
    if |s| > 0 && s[0].0 <= x.0 {
      InsertKeys(s[1..], x, b);
      assert Insert(s, x) == [s[0]] + Insert(s[1..], x);
    }
  }

  /** Insertion keeps the table sorted. */
  lemma {:induction false} InsertSorted(s: seq<Entry>, x: Entry)
    requires Sorted(s)
    ensures Sorted(Insert(s, x))
  {
    if |s| > 0 && s[0].0 <= x.0 {
      var rest := Insert(s[1..], x);
      InsertSorted(s[1..], x);
      InsertKeys(s[1..], x, s[0].0);
      assert Insert(s, x) == [s[0]] + rest;
    }
  }


  /** The index of the first entry whose key exceeds key, or |s| when there is none. */
  function UpperBound(s: seq<Entry>, key: real): (i: nat)
    ensures i <= |s|
    ensures forall j :: 0 <= j < i ==> s[j].0 <= key
    ensures i < |s| ==> s[i].0 > key
  {
    if |s| == 0 || s[0].0 > key then 0 else 1 + UpperBound(s[1..], key)
  }

  /** Insertion puts the new entry at the upper bound of its key and leaves every
      other entry in place. */
  lemma {:induction false} InsertAtUpperBound(s: seq<Entry>, x: Entry)
    ensures Insert(s, x) == s[..UpperBound(s, x.0)] + [x] + s[UpperBound(s, x.0)..]
  {
    if |s| > 0 && s[0].0 <= x.0 {
      InsertAtUpperBound(s[1..], x);
      var i := UpperBound(s[1..], x.0);
      assert s[..i + 1] == [s[0]] + s[1..][..i];
      assert s[i + 1..] == s[1..][i..];
    }
  }

  /** In a sorted table every entry from the upper bound on has a greater key. */
  lemma UpperBoundSorted(s: seq<Entry>, key: real)
    requires Sorted(s)
    ensures forall j :: UpperBound(s, key) <= j < |s| ==> s[j].0 > key
  {
  }

  /** One finished group offered to the table, as the leaf of the search does it: the
      first group always goes in; later a group goes in only when its score beats the
      smallest key, and then the smallest entry is dropped first when the table
      already holds more than five. */
  function Offer(s: seq<Entry>, score: real, group: seq<bool>): (r: seq<Entry>)
  {
    if |s| == 0 then [(score, group)]
    else if score > s[0].0 then Insert(if |s| > 5 then s[1..] else s, (score, group))
    else s
  }

  /** The table after offering each entry of offers in turn. */
  function OfferAll(s: seq<Entry>, offers: seq<Entry>): (r: seq<Entry>)
    decreases |offers|
  {
    if |offers| == 0 then s
    else OfferAll(Offer(s, offers[0].0, offers[0].1), offers[1..])
  }

  lemma OfferSorted(s: seq<Entry>, score: real, group: seq<bool>)
    requires Sorted(s)
    ensures Sorted(Offer(s, score, group))
  {
    if |s| > 0 && score > s[0].0 {
      InsertSorted(if |s| > 5 then s[1..] else s, (score, group));
    }
  }

  /** A table of at most six entries stays within six, and is never empty after an offer. */
  lemma OfferBounded(s: seq<Entry>, score: real, group: seq<bool>)
    requires |s| <= 6
    ensures 1 <= |Offer(s, score, group)| <= 6
  {
  }

  /** An offer that does not beat the smallest key leaves the table unchanged. */
  lemma OfferIgnored(s: seq<Entry>, score: real, group: seq<bool>)
    requires |s| > 0 && score <= s[0].0
    ensures Offer(s, score, group) == s
  {
  }

  /** An offer into an empty table, or one beating the smallest key, is kept; besides it
      the table loses at most its first entry, and that only when it held more than five. */
  lemma OfferAccepted(s: seq<Entry>, score: real, group: seq<bool>)
    requires |s| == 0 || score > s[0].0
    ensures var r := Offer(s, score, group);
      (score, group) in r &&
      multiset(r) == (if |s| > 5 then multiset(s[1..]) else multiset(s)) + multiset{(score, group)}
  {
    var r := Offer(s, score, group);
    if |s| > 0 {
      InsertMultiset(if |s| > 5 then s[1..] else s, (score, group));
    }
    assert (score, group) in multiset(r);
  }

  /** The smallest key of a sorted table never decreases. */
  lemma OfferMinimum(s: seq<Entry>, score: real, group: seq<bool>)
    requires Sorted(s) && |s| > 0
    ensures var r := Offer(s, score, group); |r| > 0 && r[0].0 >= s[0].0
  {
    var r := Offer(s, score, group);
    if score > s[0].0 {
      var t := if |s| > 5 then s[1..] else s;
      InsertMultiset(t, (score, group));
      assert r[0] in multiset(r);
      assert r[0] in multiset(t) || r[0] == (score, group);
    }
  }

  /** Offering a + b is offering a, then b. */
  lemma {:induction false} OfferAllAppend(s: seq<Entry>, a: seq<Entry>, b: seq<Entry>)
    ensures OfferAll(s, a + b) == OfferAll(OfferAll(s, a), b)
    decreases |a|
  {
    if |a| > 0 {
      var t := Offer(s, a[0].0, a[0].1);
      assert (a + b)[0] == a[0] && (a + b)[1..] == a[1..] + b;
      assert OfferAll(s, a + b) == OfferAll(t, a[1..] + b);
      OfferAllAppend(t, a[1..], b);
    } else {
      assert a + b == b;
    }
  }

  /** Any run of offers keeps the table sorted, within six entries, and not empty once
      it held the sentinel; its smallest key never goes down, so every key stays at
      least the starting minimum. */
  lemma {:induction false} OfferAllInvariant(s: seq<Entry>, offers: seq<Entry>)
    requires Sorted(s) && 1 <= |s| <= 6
    ensures var r := OfferAll(s, offers);
      Sorted(r) && 1 <= |r| <= 6 && r[0].0 >= s[0].0 &&
      forall e :: e in r ==> e.0 >= s[0].0
    decreases |offers|
  {
    if |offers| > 0 {
      var t := Offer(s, offers[0].0, offers[0].1);
      OfferSorted(s, offers[0].0, offers[0].1);
      OfferBounded(s, offers[0].0, offers[0].1);
      OfferMinimum(s, offers[0].0, offers[0].1);
      OfferAllInvariant(t, offers[1..]);
    } else {
      forall e | e in s ensures e.0 >= s[0].0 {
        var i :| 0 <= i < |s| && s[i] == e;
      }
    }
  }

  /** The optimalGroups multimap. */
  class Leaderboard {
    var entries: seq<Entry>

    /** A multimap iterates its entries in key order. */
    ghost predicate Valid()
      reads this
    {
      Sorted(entries)
    }

    /** An empty multimap. */
    constructor ()
      ensures Valid() && entries == []
    {
      entries := [];
    }

    /** emplace: the new entry goes at the upper bound of its key. */
    method Emplace(score: real, group: seq<bool>)
      requires Valid()
      modifies this
      ensures Valid() && entries == Insert(old(entries), (score, group))
    {
      InsertSorted(entries, (score, group));
      entries := Insert(entries, (score, group));
    }

    /** erase(begin()): drops an entry with the smallest key. */
    method EraseFirst()
      requires Valid() && |entries| > 0
      modifies this
      ensures Valid() && entries == old(entries)[1..]
      ensures forall e :: e in entries ==> old(entries)[0].0 <= e.0
    {
      entries := entries[1..];
    }
  }
}
