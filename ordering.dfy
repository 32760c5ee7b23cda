/**
 * The two orders the summary puts things in: a project's day labels in
 * ascending string order (Go's sort.Slice with a < b on the label strings),
 * and a day's pieces by start (sort.Slice comparing starts).  sort.Slice is
 * not stable, so for pieces with equal starts any order is allowed; the
 * contracts below say exactly that: sorted, and a permutation.
 */
module Ordering {
  import opened Entries
  import opened DayLabels

  predicate SortedByStart(s: seq<Entry>)
  {
    forall i, j :: 0 <= i < j < |s| ==> s[i].start <= s[j].start
  }

  /** x inserted into a sorted sequence after every piece that starts no later. */
  method InsertByStart(t: seq<Entry>, x: Entry) returns (u: seq<Entry>)
    requires SortedByStart(t)
    ensures SortedByStart(u)
    ensures multiset(u) == multiset(t) + multiset{x}
  {
    var k := 0;
    while k < |t| && t[k].start <= x.start
      invariant 0 <= k <= |t|
      invariant forall i :: 0 <= i < k ==> t[i].start <= x.start
    {
      k := k + 1;
    }
    u := t[..k] + [x] + t[k..];
    assert t == t[..k] + t[k..];
  }

  /** The pieces of s ordered by start. */
  method SortByStart(s: seq<Entry>) returns (t: seq<Entry>)
    ensures SortedByStart(t)
    ensures multiset(t) == multiset(s)
  {
    t := [];
    var i := 0;
    while i < |s|
      invariant 0 <= i <= |s|
      invariant SortedByStart(t)
      invariant multiset(t) == multiset(s[..i])
    {
      t := InsertByStart(t, s[i]);
      assert s[..i + 1] == s[..i] + [s[i]];
      i := i + 1;
    }
    assert s[..i] == s;
  }

  predicate StrictlyAscending(s: seq<string>)
  {
    forall i, j :: 0 <= i < j < |s| ==> LexLess(s[i], s[j])
  }

  /** x, which t does not hold, inserted into a strictly ascending t. */
  method InsertLabel(t: seq<string>, x: string) returns (u: seq<string>)
    requires StrictlyAscending(t) && x !in t
    ensures StrictlyAscending(u)
    ensures forall l :: l in u <==> l in t || l == x
  {
    var k := 0;
    while k < |t| && LexLess(t[k], x)
      invariant 0 <= k <= |t|
      invariant forall i :: 0 <= i < k ==> LexLess(t[i], x)
    {
      k := k + 1;
    }
    if k < |t| {
      LexLessTotal(t[k], x);
      forall i | k <= i < |t|
        ensures LexLess(x, t[i])
      {
        if i > k {
          LexLessTransitive(x, t[k], t[i]);
        }
      }
    }
    u := t[..k] + [x] + t[k..];
    assert t == t[..k] + t[k..];
    forall i, j | 0 <= i < j < |u|
      ensures LexLess(u[i], u[j])
    {
      if i < k && j > k {
        LexLessTransitive(u[i], x, u[j]);
      }
    }
  }

  /** The labels of a set in ascending string order. */
  method SortLabels(keys: set<string>) returns (t: seq<string>)
    ensures StrictlyAscending(t)
    ensures forall l :: l in t <==> l in keys
  {
    t := [];
    var rest := keys;
    while rest != {}
      invariant rest <= keys
      invariant StrictlyAscending(t)
      invariant forall l :: l in t <==> l in keys && l !in rest
      decreases rest
    {
      var l :| l in rest;
      t := InsertLabel(t, l);
      rest := rest - {l};
    }
  }

  /** A strictly ascending sequence holds each label once. */
  lemma AscendingIsDistinct(s: seq<string>)
    requires StrictlyAscending(s)
    ensures forall i, j :: 0 <= i < |s| && 0 <= j < |s| && i != j ==> s[i] != s[j]
  {
    forall i, j | 0 <= i < |s| && 0 <= j < |s| && i != j
      ensures s[i] != s[j]
    {
      if i < j {
        LexLessIrreflexive(s[i]);
      } else {
        LexLessIrreflexive(s[j]);
      }
    }
  }
}
