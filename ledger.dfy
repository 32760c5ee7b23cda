/**
 * What filing one piece does to the report's state: its duration goes into
 * exactly one of the weekday and weekend totals, and also into the matching
 * nightly total when the piece is nightly; and the piece is appended to the
 * list filed under its project and its day label.  AccountAll and IndexAll
 * are the same steps applied to a sequence of pieces in order.
 */
module Ledger {
  import opened Entries
  import opened Segments

  /** The four running totals, in seconds. */
  datatype Totals = Totals(weekday: int, weekend: int, nightlyWeekday: int, nightlyWeekend: int)

  const NoTotals := Totals(0, 0, 0, 0)

  /** Project id -> day label -> the pieces filed there, in filing order. */
  type Mapping = map<int, map<string, seq<Entry>>>

  /** The totals after filing piece p. */
  function Account(t: Totals, p: Entry): (u: Totals)
    ensures u.weekday + u.weekend == t.weekday + t.weekend + Duration(p)
    ensures u.nightlyWeekday + u.nightlyWeekend ==
      t.nightlyWeekday + t.nightlyWeekend + (if IsNightly(p) then Duration(p) else 0)
    ensures IsWorkday(p) ==> u.weekend == t.weekend && u.nightlyWeekend == t.nightlyWeekend
    ensures !IsWorkday(p) ==> u.weekday == t.weekday && u.nightlyWeekday == t.nightlyWeekday
  {
    var d := Duration(p);
    var t' :=
      if IsNightly(p) then
        if IsWorkday(p) then t.(nightlyWeekday := t.nightlyWeekday + d)
        else t.(nightlyWeekend := t.nightlyWeekend + d)
      else t;
    if IsWorkday(p) then t'.(weekday := t'.weekday + d) else t'.(weekend := t'.weekend + d)
  }

  function AccountAll(t: Totals, ps: seq<Entry>): Totals
  {
    if ps == [] then t else Account(AccountAll(t, ps[..|ps| - 1]), ps[|ps| - 1])
  }

  /** The pieces of ps that keep selects, in order. */
  function Where(ps: seq<Entry>, keep: Entry -> bool): (r: seq<Entry>)
    ensures forall p :: p in r <==> p in ps && keep(p)
  {
    if ps == [] then []
    else Where(ps[..|ps| - 1], keep) + (if keep(ps[|ps| - 1]) then [ps[|ps| - 1]] else [])
  }

  /** The list filed under project pid and label l, empty when there is none. */
  function Lookup(m: Mapping, pid: int, l: string): seq<Entry>
  {
    if pid in m && l in m[pid] then m[pid][l] else []
  }

  /** The mapping after filing piece p: p is appended to its project's list for its day,
      creating the project's map and the day's list when they are missing. */
  function Index(m: Mapping, p: Entry): (m': Mapping)
    ensures Lookup(m', p.projectId, FormatDay(p)) == Lookup(m, p.projectId, FormatDay(p)) + [p]
    ensures forall pid, l :: (pid != p.projectId || l != FormatDay(p)) ==> Lookup(m', pid, l) == Lookup(m, pid, l)
    ensures m'.Keys == m.Keys + {p.projectId}
    ensures m'[p.projectId].Keys == (if p.projectId in m then m[p.projectId].Keys else {}) + {FormatDay(p)}
    ensures forall pid :: pid in m && pid != p.projectId ==> m'[pid] == m[pid]
  {
    var inner := if p.projectId in m then m[p.projectId] else map[];
    var day := FormatDay(p);
    var list := if day in inner then inner[day] else [];
    m[p.projectId := inner[day := list + [p]]]
  }

  function IndexAll(m: Mapping, ps: seq<Entry>): Mapping
  {
    if ps == [] then m else Index(IndexAll(m, ps[..|ps| - 1]), ps[|ps| - 1])
  }

  // ---------------------------------------------------------------------
  // Filing a sequence of pieces
  // ---------------------------------------------------------------------

  /** Filing one more piece after ps. */
  lemma FileOne(t: Totals, m: Mapping, ps: seq<Entry>, p: Entry)
    ensures AccountAll(t, ps + [p]) == Account(AccountAll(t, ps), p)
    ensures IndexAll(m, ps + [p]) == Index(IndexAll(m, ps), p)
  {
    assert (ps + [p])[..|ps|] == ps;
  }

  lemma WhereAppend(ps: seq<Entry>, p: Entry, keep: Entry -> bool)
    ensures Where(ps + [p], keep) == Where(ps, keep) + (if keep(p) then [p] else [])
  {
    assert (ps + [p])[..|ps|] == ps;
  }

  lemma SumOfWhereAppend(ps: seq<Entry>, p: Entry, keep: Entry -> bool)
    ensures SumDurations(Where(ps + [p], keep)) == SumDurations(Where(ps, keep)) + (if keep(p) then Duration(p) else 0)
  {
    WhereAppend(ps, p, keep);
    SumDurationsAppend(Where(ps, keep), if keep(p) then [p] else []);
    assert SumDurations([p]) == Duration(p) + SumDurations([]);
  }

  /** Each total grows by the durations of exactly the pieces that belong in it. */
  lemma {:induction false} AccountAllBuckets(t: Totals, ps: seq<Entry>)
    ensures AccountAll(t, ps).weekday == t.weekday + SumDurations(Where(ps, IsWorkday))
    ensures AccountAll(t, ps).weekend == t.weekend + SumDurations(Where(ps, (x: Entry) => !IsWorkday(x)))
    ensures AccountAll(t, ps).nightlyWeekday == t.nightlyWeekday + SumDurations(Where(ps, (x: Entry) => IsNightly(x) && IsWorkday(x)))
    ensures AccountAll(t, ps).nightlyWeekend == t.nightlyWeekend + SumDurations(Where(ps, (x: Entry) => IsNightly(x) && !IsWorkday(x)))
    decreases |ps|
  {
    if ps != [] {
      var init, p := ps[..|ps| - 1], ps[|ps| - 1];
      assert ps == init + [p];
      AccountAllBuckets(t, init);
      SumOfWhereAppend(init, p, IsWorkday);
      SumOfWhereAppend(init, p, (x: Entry) => !IsWorkday(x));
      SumOfWhereAppend(init, p, (x: Entry) => IsNightly(x) && IsWorkday(x));
      SumOfWhereAppend(init, p, (x: Entry) => IsNightly(x) && !IsWorkday(x));
    }
  }

  /** Weekday plus weekend grows by the sum of all filed durations. */
  lemma {:induction false} AccountAllTotal(t: Totals, ps: seq<Entry>)
    ensures AccountAll(t, ps).weekday + AccountAll(t, ps).weekend == t.weekday + t.weekend + SumDurations(ps)
    decreases |ps|
  {
    if ps != [] {
      var init, p := ps[..|ps| - 1], ps[|ps| - 1];
      assert ps == init + [p];
      AccountAllTotal(t, init);
      SumDurationsAppend(init, [p]);
      assert SumDurations([p]) == Duration(p) + SumDurations([]);
    }
  }

  /** Filing the pieces of e adds e's duration to weekday plus weekend, less one second for
      each of the |Pieces(e)| - 1 cuts. */
  lemma FilingLosesOneSecondPerCut(t: Totals, e: Entry)
    ensures AccountAll(t, Pieces(e)).weekday + AccountAll(t, Pieces(e)).weekend ==
      t.weekday + t.weekend + Duration(e) - (|Pieces(e)| - 1)
  {
    AccountAllTotal(t, Pieces(e));
    PiecesConserveDuration(e);
  }

  /** Filing a + b is filing a, then b. */
  lemma {:induction false} AccountAllConcat(t: Totals, a: seq<Entry>, b: seq<Entry>)
    ensures AccountAll(t, a + b) == AccountAll(AccountAll(t, a), b)
    decreases |b|
  {
    if b == [] {
      assert a + b == a;
    } else {
      assert (a + b)[..|a + b| - 1] == a + b[..|b| - 1];
      AccountAllConcat(t, a, b[..|b| - 1]);
    }
  }

  /** Filing a + b is filing a, then b. */
  lemma {:induction false} IndexAllConcat(m: Mapping, a: seq<Entry>, b: seq<Entry>)
    ensures IndexAll(m, a + b) == IndexAll(IndexAll(m, a), b)
    decreases |b|
  {
    if b == [] {
      assert a + b == a;
    } else {
      assert (a + b)[..|a + b| - 1] == a + b[..|b| - 1];
      IndexAllConcat(m, a, b[..|b| - 1]);
    }
  }

  /** Every list grows by exactly the pieces filed under its project and label, in filing
      order, and keeps what it held. */
  lemma {:induction false} IndexAllLookup(m: Mapping, ps: seq<Entry>, pid: int, l: string)
    ensures Lookup(IndexAll(m, ps), pid, l) ==
      Lookup(m, pid, l) + Where(ps, (x: Entry) => x.projectId == pid && FormatDay(x) == l)
    decreases |ps|
  {
    if ps != [] {
      var init, p := ps[..|ps| - 1], ps[|ps| - 1];
      assert ps == init + [p];
      IndexAllLookup(m, init, pid, l);
      WhereAppend(init, p, (x: Entry) => x.projectId == pid && FormatDay(x) == l);
    }
  }

  /** The projects of the pieces in ps. */
  ghost function ProjectIds(ps: seq<Entry>): set<int>
  {
    set p | p in ps :: p.projectId
  }

  lemma ProjectIdsAppend(ps: seq<Entry>, p: Entry)
    ensures ProjectIds(ps + [p]) == ProjectIds(ps) + {p.projectId}
  {
    assert forall x :: x in ps + [p] <==> x in ps || x == p;
  }

  /** The projects indexed are the ones there were plus those of the filed pieces. */
  lemma {:induction false} IndexAllKeys(m: Mapping, ps: seq<Entry>)
    ensures IndexAll(m, ps).Keys == m.Keys + ProjectIds(ps)
    decreases |ps|
  {
    if ps != [] {
      var init, p := ps[..|ps| - 1], ps[|ps| - 1];
      assert ps == init + [p];
      IndexAllKeys(m, init);
      ProjectIdsAppend(init, p);
    }
  }
}
