/**
 * What AddEntry does to one entry before it files anything: apply the first
 * rule that cuts, again and again, to both halves, until no rule cuts.  The
 * report keeps the halves on a stack and takes the most recently pushed
 * (the later half) first, so the pieces come out latest first.  Pieces(e)
 * is that sequence of pieces, in the order they are filed.
 *
 * Why it ends: an ordered entry (start <= stop) is always cut strictly inside
 * itself, so its span shrinks.  An inverted entry (stop < start) can only be
 * cut at a later midnight or hour of the start's day, and the day rule keeps
 * moving its start to the next midnight until the day of the month matches
 * the stop's; Calendar.DayOfMonthRecurs bounds that walk.  Weight measures
 * both cases at once: each cut splits it exactly, minus one.
 */
module Segments {
  import opened Clock
  import Calendar
  import opened Entries

  /** The last instant the walk of an inverted entry can reach: the end of the first day,
      from the start's day on, whose day of the month is the stop's. */
  ghost function Horizon(e: Entry): int
  {
    StartOfDay(e.start) + SecondsPerDay * (Calendar.DaysUntil(DayNumber(e.start), Day(e.stop)) + 1)
  }

  ghost function Weight(e: Entry): (w: nat)
  {
    if e.start <= e.stop then 2 * (e.stop - e.start) + 1 else 2 * (Horizon(e) - e.start) + 1
  }

  /** Cutting an entry splits its weight between the halves, less one. */
  lemma SplitWeight(e: Entry)
    requires NextSplit(e) != []
    ensures Weight(NextSplit(e)[0]) + Weight(NextSplit(e)[1]) + 1 == Weight(e)
  {
    var r := NextSplit(e);
    if e.stop < e.start {
      HorizonOfLaterHalf(e, r[1]);
    }
  }

  /** The later half of an inverted entry keeps its horizon. */
  lemma HorizonOfLaterHalf(e: Entry, q: Entry)
    requires e.stop < e.start < q.start && q.stop == e.stop
    requires Day(e.start) != Day(e.stop) ==> DayNumber(q.start) == DayNumber(e.start) + 1 && SecondOfDay(q.start) == 0
    requires Day(e.start) == Day(e.stop) ==> DayNumber(q.start) == DayNumber(e.start)
    ensures Horizon(q) == Horizon(e)
  {
    var n, d := DayNumber(e.start), Day(e.stop);
    Calendar.DayOfMonthRange(DayNumber(e.stop));
    if Day(e.start) != d {
      Calendar.DaysUntilStep(n, d);
      assert StartOfDay(q.start) == StartOfDay(e.start) + SecondsPerDay;
    } else {
      Calendar.DaysUntilDone(n, d);
    }
  }

  /** The pieces AddEntry files for e, in filing order. */
  ghost function Pieces(e: Entry): (ps: seq<Entry>)
    ensures |ps| >= 1
    decreases Weight(e)
  {
    var r := NextSplit(e);
    if r == [] then [e] else SplitWeight(e); Pieces(r[1]) + Pieces(r[0])
  }

  /** A piece no rule cuts is filed as it is. */
  lemma PiecesOfTerminal(e: Entry)
    requires IsTerminal(e)
    ensures Pieces(e) == [e]
  {
  }

  /** A cut entry files its later half's pieces, then its earlier half's. */
  lemma PiecesOfCut(e: Entry, p: Entry, q: Entry)
    requires NextSplit(e) == [p, q]
    ensures Pieces(e) == Pieces(q) + Pieces(p)
  {
  }

  /** An entry cut into two pieces no rule cuts is filed as those two, later first. */
  lemma TwoPieces(e: Entry, p: Entry, q: Entry)
    requires NextSplit(e) == [p, q] && IsTerminal(p) && IsTerminal(q)
    ensures Pieces(e) == [q, p]
  {
    PiecesOfCut(e, p, q);
    PiecesOfTerminal(p);
    PiecesOfTerminal(q);
  }

  function SumDurations(ps: seq<Entry>): int
  {
    if ps == [] then 0 else Duration(ps[0]) + SumDurations(ps[1..])
  }

  lemma {:induction false} SumDurationsAppend(a: seq<Entry>, b: seq<Entry>)
    ensures SumDurations(a + b) == SumDurations(a) + SumDurations(b)
    decreases |a|
  {
    if a == [] {
      assert a + b == b;
    } else {
      assert (a + b)[1..] == a[1..] + b;
      SumDurationsAppend(a[1..], b);
    }
  }

  /** Every filed piece is one no rule cuts, and keeps the entry's project, tags and
      description. */
  lemma {:induction false} PiecesAreFinal(e: Entry)
    ensures forall i :: 0 <= i < |Pieces(e)| ==>
      IsTerminal(Pieces(e)[i]) &&
      Pieces(e)[i].projectId == e.projectId &&
      Pieces(e)[i].tags == e.tags &&
      Pieces(e)[i].description == e.description
    decreases Weight(e)
  {
    var r := NextSplit(e);
    if r != [] {
      SplitWeight(e);
      PiecesAreFinal(r[1]);
      PiecesAreFinal(r[0]);
    }
  }

  /** Every piece of an ordered entry is ordered and lies inside it. */
  lemma {:induction false} PiecesInside(e: Entry)
    requires e.start <= e.stop
    ensures forall i :: 0 <= i < |Pieces(e)| ==>
      e.start <= Pieces(e)[i].start <= Pieces(e)[i].stop <= e.stop
    decreases Weight(e)
  {
    var r := NextSplit(e);
    if r != [] {
      SplitWeight(e);
      PiecesInside(r[1]);
      PiecesInside(r[0]);
    }
  }

  /** Some entry of ps holds the second t. */
  ghost predicate Covers(ps: seq<Entry>, t: int)
  {
    exists i :: 0 <= i < |ps| && ps[i].start <= t <= ps[i].stop
  }

  lemma CoversConcat(a: seq<Entry>, b: seq<Entry>, t: int)
    requires Covers(a, t) || Covers(b, t)
    ensures Covers(a + b, t)
  {
    if Covers(a, t) {
      var i :| 0 <= i < |a| && a[i].start <= t <= a[i].stop;
      assert (a + b)[i] == a[i];
    } else {
      var i :| 0 <= i < |b| && b[i].start <= t <= b[i].stop;
      assert (a + b)[|a| + i] == b[i];
    }
  }

  /** Every second of an ordered entry lies in one of its pieces: the cuts leave no hole. */
  lemma {:induction false} PiecesCover(e: Entry, t: int)
    requires e.start <= t <= e.stop
    ensures Covers(Pieces(e), t)
    decreases Weight(e)
  {
    var r := NextSplit(e);
    if r == [] {
      assert Pieces(e)[0] == e;
    } else {
      SplitWeight(e);
      var p, q := r[0], r[1];
      PiecesOfCut(e, p, q);
      if t < q.start {
        PiecesCover(p, t);
      } else {
        PiecesCover(q, t);
      }
      CoversConcat(Pieces(q), Pieces(p), t);
    }
  }

  /** A piece no rule cuts, ordered, whose stop's day is fewer than 28 days after its start's
      day, lies within one day. */
  lemma TerminalWithinOneDay(p: Entry)
    requires IsTerminal(p) && p.start <= p.stop && DayNumber(p.stop) - DayNumber(p.start) < 28
    ensures DayNumber(p.start) == DayNumber(p.stop)
  {
    DayNumberMonotone(p.start, p.stop);
    var k := DayNumber(p.stop) - DayNumber(p.start);
    if k > 0 {
      Calendar.DayOfMonthDiffers(DayNumber(p.start), k);
    }
  }

  /** An ordered entry whose stop's day is fewer than 28 days after its start's day is filed
      as pieces that each start and stop on one calendar day, a day of the entry, so the
      label of a piece's start is right for all of it. */
  lemma PiecesWithinOneDay(e: Entry)
    requires e.start <= e.stop && DayNumber(e.stop) - DayNumber(e.start) < 28
    ensures forall i :: 0 <= i < |Pieces(e)| ==>
      DayNumber(Pieces(e)[i].start) == DayNumber(Pieces(e)[i].stop) &&
      DayNumber(e.start) <= DayNumber(Pieces(e)[i].start) <= DayNumber(e.stop)
  {
    PiecesInside(e);
    PiecesAreFinal(e);
    forall i | 0 <= i < |Pieces(e)|
      ensures DayNumber(Pieces(e)[i].start) == DayNumber(Pieces(e)[i].stop)
      ensures DayNumber(e.start) <= DayNumber(Pieces(e)[i].start) <= DayNumber(e.stop)
    {
      var p := Pieces(e)[i];
      DayNumberMonotone(e.start, p.start);
      DayNumberMonotone(p.start, p.stop);
      DayNumberMonotone(p.stop, e.stop);
      TerminalWithinOneDay(p);
    }
  }

  /** ... and every day from the start's to the stop's has a piece: an entry crossing N
      midnights has a piece starting on each of its N + 1 days. */
  lemma PiecesCoverDays(e: Entry, d: int)
    requires e.start <= e.stop && DayNumber(e.stop) - DayNumber(e.start) < 28
    requires DayNumber(e.start) <= d <= DayNumber(e.stop)
    ensures exists i :: 0 <= i < |Pieces(e)| && DayNumber(Pieces(e)[i].start) == d
  {
    var t := if d == DayNumber(e.start) then e.start else d * SecondsPerDay;
    assert DayNumber(t) == d;
    assert e.start <= t <= e.stop;
    PiecesCover(e, t);
    PiecesWithinOneDay(e);
    var i :| 0 <= i < |Pieces(e)| && Pieces(e)[i].start <= t <= Pieces(e)[i].stop;
    DayNumberMonotone(Pieces(e)[i].start, t);
    DayNumberMonotone(t, Pieces(e)[i].stop);
  }

  /** Each entry of s begins one second after the next one ends. */
  predicate Tiled(s: seq<Entry>)
  {
    forall i :: 0 <= i < |s| - 1 ==> s[i].start == s[i + 1].stop + 1
  }

  /** Every entry of s after the first is ordered. */
  predicate TailOrdered(s: seq<Entry>)
  {
    forall i :: 0 < i < |s| ==> s[i].start <= s[i].stop
  }

  lemma TiledConcat(a: seq<Entry>, b: seq<Entry>)
    requires a != [] && b != [] && Tiled(a) && Tiled(b)
    requires a[|a| - 1].start == b[0].stop + 1
    ensures Tiled(a + b) && (a + b)[0] == a[0] && (a + b)[|a + b| - 1] == b[|b| - 1]
  {
    forall i: int | 0 <= i < |a + b| - 1
      ensures (a + b)[i].start == (a + b)[i + 1].stop + 1
    {
      if i == |a| - 1 {
        assert (a + b)[i] == a[|a| - 1] && (a + b)[i + 1] == b[0];
      } else if i < |a| - 1 {
        assert (a + b)[i] == a[i] && (a + b)[i + 1] == a[i + 1];
      } else {
        assert (a + b)[i] == b[i - |a|] && (a + b)[i + 1] == b[i - |a| + 1];
      }
    }
  }

  lemma OrderedConcat(a: seq<Entry>, b: seq<Entry>)
    requires a != [] && b != [] && TailOrdered(a) && TailOrdered(b) && b[0].start <= b[0].stop
    ensures TailOrdered(a + b) && (a + b)[0] == a[0]
  {
    forall i: int | 0 < i < |a + b|
      ensures (a + b)[i].start <= (a + b)[i].stop
    {
      if i < |a| {
        assert (a + b)[i] == a[i];
      } else {
        assert (a + b)[i] == b[i - |a|];
      }
    }
  }

  /** The pieces tile the entry, latest first: the first filed ends at the entry's stop, the
      last filed begins at its start, and each piece begins one second after the next
      filed one ends. */
  lemma {:induction false} PiecesTile(e: Entry)
    ensures Pieces(e)[0].stop == e.stop
    ensures Pieces(e)[|Pieces(e)| - 1].start == e.start
    ensures Tiled(Pieces(e))
    decreases Weight(e)
  {
    var r := NextSplit(e);
    if r != [] {
      SplitWeight(e);
      PiecesTile(r[1]);
      PiecesTile(r[0]);
      TiledConcat(Pieces(r[1]), Pieces(r[0]));
    }
  }

  /** Every piece but the first filed is ordered; the first is ordered exactly when the
      entry is. */
  lemma {:induction false} PiecesOrdered(e: Entry)
    ensures Pieces(e)[0].start <= Pieces(e)[0].stop <==> e.start <= e.stop
    ensures TailOrdered(Pieces(e))
    decreases Weight(e)
  {
    var r := NextSplit(e);
    if r != [] {
      SplitWeight(e);
      PiecesOrdered(r[1]);
      PiecesOrdered(r[0]);
      OrderedConcat(Pieces(r[1]), Pieces(r[0]));
    }
  }

  /** Each cut loses one second: the filed durations add up to the entry's duration
      less one second per cut, and there is one cut fewer than there are pieces. */
  lemma {:induction false} PiecesConserveDuration(e: Entry)
    ensures SumDurations(Pieces(e)) == Duration(e) - (|Pieces(e)| - 1)
    decreases Weight(e)
  {
    var r := NextSplit(e);
    if r == [] {
      assert SumDurations([e]) == Duration(e) + SumDurations([]);
    } else {
      SplitWeight(e);
      PiecesConserveDuration(r[1]);
      PiecesConserveDuration(r[0]);
      SumDurationsAppend(Pieces(r[1]), Pieces(r[0]));
    }
  }

  // ---------------------------------------------------------------------
  // The work stack of AddEntry
  // ---------------------------------------------------------------------

  /** What a stack (top last) still yields, when each entry on it yields pieces(e). */
  ghost function Pending(stack: seq<Entry>, pieces: Entry -> seq<Entry>): seq<Entry>
  {
    if stack == [] then [] else pieces(stack[|stack| - 1]) + Pending(stack[..|stack| - 1], pieces)
  }

  ghost function StackWeight(stack: seq<Entry>, weight: Entry -> nat): nat
  {
    if stack == [] then 0 else weight(stack[|stack| - 1]) + StackWeight(stack[..|stack| - 1], weight)
  }

  lemma PendingOfPush(rest: seq<Entry>, top: Entry, pieces: Entry -> seq<Entry>, weight: Entry -> nat)
    ensures Pending(rest + [top], pieces) == pieces(top) + Pending(rest, pieces)
    ensures StackWeight(rest + [top], weight) == weight(top) + StackWeight(rest, weight)
  {
    assert (rest + [top])[..|rest|] == rest;
  }

  /** Replacing the top of a stack by two entries that together yield what it yields keeps
      the pending output, and lightens the stack when their weights add up to less. */
  lemma PushTwo(rest: seq<Entry>, top: Entry, p: Entry, q: Entry, pieces: Entry -> seq<Entry>, weight: Entry -> nat)
    requires pieces(top) == pieces(q) + pieces(p)
    requires weight(top) == weight(p) + weight(q) + 1
    ensures Pending(rest + [p, q], pieces) == Pending(rest + [top], pieces)
    ensures StackWeight(rest + [p, q], weight) + 1 == StackWeight(rest + [top], weight)
  {
    var below := rest + [p];
    assert rest + [p, q] == below + [q];
    PendingOfPush(below, q, pieces, weight);
    assert Pending(rest + [p, q], pieces) == pieces(q) + Pending(below, pieces);
    assert StackWeight(rest + [p, q], weight) == weight(q) + StackWeight(below, weight);
    PendingOfPush(rest, p, pieces, weight);
    PendingOfPush(rest, top, pieces, weight);
    assert pieces(q) + (pieces(p) + Pending(rest, pieces)) == (pieces(q) + pieces(p)) + Pending(rest, pieces);
  }

  /** Replacing the top of AddEntry's stack by its two halves (the later half on top) leaves
      the pieces still to be filed unchanged and the stack lighter by one. */
  lemma PushHalves(stack: seq<Entry>)
    requires stack != [] && NextSplit(stack[|stack| - 1]) != []
    ensures Pending(stack[..|stack| - 1] + NextSplit(stack[|stack| - 1]), Pieces) == Pending(stack, Pieces)
    ensures StackWeight(stack[..|stack| - 1] + NextSplit(stack[|stack| - 1]), Weight) + 1 == StackWeight(stack, Weight)
  {
    Unpop(stack);
    ReplaceTop(stack[..|stack| - 1], stack[|stack| - 1]);
  }


  lemma Unpop(stack: seq<Entry>)
    requires stack != []
    ensures stack[..|stack| - 1] + [stack[|stack| - 1]] == stack
  {
  }

  lemma ReplaceTop(rest: seq<Entry>, top: Entry)
    requires NextSplit(top) != []
    ensures Pending(rest + NextSplit(top), Pieces) == Pending(rest + [top], Pieces)
    ensures StackWeight(rest + NextSplit(top), Weight) + 1 == StackWeight(rest + [top], Weight)
  {
    var r := NextSplit(top);
    SplitWeight(top);
    assert r == [r[0], r[1]];
    assert Pieces(top) == Pieces(r[1]) + Pieces(r[0]);
    PushTwo(rest, top, r[0], r[1], Pieces, Weight);
  }

  /** Popping a piece no rule cuts files exactly that piece, and the stack gets lighter. */
  lemma PopTerminal(stack: seq<Entry>)
    requires stack != [] && NextSplit(stack[|stack| - 1]) == []
    ensures Pending(stack, Pieces) == [stack[|stack| - 1]] + Pending(stack[..|stack| - 1], Pieces)
    ensures StackWeight(stack[..|stack| - 1], Weight) < StackWeight(stack, Weight)
  {
  }

  /** Once the stack is empty nothing is pending. */
  lemma Drained(done: seq<Entry>, stack: seq<Entry>)
    requires stack == []
    ensures done + Pending(stack, Pieces) == done
  {
    assert done + [] == done;
  }

  /** Moving the piece just filed from the pending output to the filed ones. */
  lemma Regroup(done: seq<Entry>, top: Entry, later: seq<Entry>)
    ensures (done + [top]) + later == done + ([top] + later)
  {
  }
}
