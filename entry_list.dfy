/**
 * The report's state and its operations: EntryList keeps the four running
 * totals and the index of filed pieces (project id -> day label -> pieces);
 * AddEntry cuts one entry into pieces with an explicit stack and files each
 * piece; GetProjectIDs lists the projects other than 0; the summary sorts
 * each project's days by label and each day's pieces by start (in place, as
 * the report does) and returns the sections it would print; and
 * CreateFromRawEntries builds a list from fetched entries, filing each entry
 * once per "Extra" tag it carries.
 */
module Reports {
  import opened Clock
  import opened Entries
  import opened Segments
  import opened Ledger
  import opened Ordering

  /** An entry as fetched, with its start and stop already read as Unix seconds. */
  datatype RawEntry = RawEntry(pid: int, start: int, description: string, stop: int, tags: seq<string>)

  /** The fetched entry with its instants moved into the report's zone. */
  function ToEntry(r: RawEntry): (e: Entry)
    ensures e.projectId == r.pid && e.tags == r.tags && e.description == r.description
    ensures Duration(e) == r.stop - r.start
  {
    Entry(r.pid, r.tags, r.description, InZone(r.start), InZone(r.stop))
  }

  /** One printed piece: the piece and whether it is marked [NIGHT] rather than [DAY]. */
  datatype Line = Line(entry: Entry, nightly: bool)
  datatype DaySection = DaySection(day: string, lines: seq<Line>)
  datatype ProjectSection = ProjectSection(projectId: int, name: string, days: seq<DaySection>)
  datatype Summary = Summary(totals: Totals, projects: seq<ProjectSection>)

  ghost predicate LinesFor(lines: seq<Line>, es: seq<Entry>)
  {
    |lines| == |es| && forall i :: 0 <= i < |es| ==> lines[i] == Line(es[i], IsNightly(es[i]))
  }

  /** after is before with every list sorted by start, nothing added or lost. */
  ghost predicate SortedVersion(before: map<string, seq<Entry>>, after: map<string, seq<Entry>>)
  {
    after.Keys == before.Keys &&
    forall l :: l in before ==> SortedByStart(after[l]) && multiset(after[l]) == multiset(before[l])
  }

  /** sec is the section printed for project pid, whose days are in inner. */
  ghost predicate IsSection(sec: ProjectSection, pid: int, name: string, inner: map<string, seq<Entry>>)
  {
    sec.projectId == pid && sec.name == name &&
    (forall i, j :: 0 <= i < j < |sec.days| ==> DayLabels.LexLess(sec.days[i].day, sec.days[j].day)) &&
    (forall l :: l in inner <==> exists i :: 0 <= i < |sec.days| && sec.days[i].day == l) &&
    (forall i :: 0 <= i < |sec.days| ==> sec.days[i].day in inner && LinesFor(sec.days[i].lines, inner[sec.days[i].day]))
  }

  /** The name printed for a project: its fetched name, or empty when it has none. */
  function ProjectName(projects: map<int, string>, pid: int): string
  {
    if pid in projects then projects[pid] else ""
  }

  method DayLines(es: seq<Entry>) returns (lines: seq<Line>)
    ensures LinesFor(lines, es)
  {
    lines := [];
    var i := 0;
    while i < |es|
      invariant 0 <= i <= |es|
      invariant LinesFor(lines, es[..i])
    {
      lines := lines + [Line(es[i], IsNightly(es[i]))];
      i := i + 1;
    }
  }

  /** One project's part of the summary: its days in label order, each day's pieces sorted
      by start; also returns the project's index with those lists sorted. */
  method SummarizeProject(pid: int, name: string, inner: map<string, seq<Entry>>)
    returns (sec: ProjectSection, sorted: map<string, seq<Entry>>)
    ensures SortedVersion(inner, sorted)
    ensures IsSection(sec, pid, name, sorted)
  {
    var days := SortLabels(inner.Keys);
    AscendingIsDistinct(days);
    var sections;
    sections, sorted := SummarizeDays(days, inner);
    sec := ProjectSection(pid, name, sections);
  }

  /** The sections of the given days, in that order, each day's pieces sorted by start; also
      returns inner with those lists sorted. */
  method SummarizeDays(days: seq<string>, inner: map<string, seq<Entry>>)
    returns (sections: seq<DaySection>, sorted: map<string, seq<Entry>>)
    requires forall l :: l in days <==> l in inner
    requires forall i, j :: 0 <= i < |days| && 0 <= j < |days| && i != j ==> days[i] != days[j]
    ensures SortedVersion(inner, sorted)
    ensures |sections| == |days|
    ensures forall k :: 0 <= k < |days| ==> sections[k].day == days[k] && LinesFor(sections[k].lines, sorted[days[k]])
  {
    sorted := inner;
    sections := [];
    var i := 0;
    while i < |days|
      invariant 0 <= i <= |days|
      invariant |sections| == i
      invariant sorted.Keys == inner.Keys
      invariant forall l :: l in inner ==> multiset(sorted[l]) == multiset(inner[l])
      invariant forall k :: 0 <= k < i ==> SortedByStart(sorted[days[k]])
      invariant forall k :: 0 <= k < i ==> sections[k].day == days[k] && LinesFor(sections[k].lines, sorted[days[k]])
    {
      var list := SortByStart(sorted[days[i]]);
      sorted := sorted[days[i] := list];
      var lines := DayLines(list);
      sections := sections + [DaySection(days[i], lines)];
      i := i + 1;
    }
    forall l | l in inner
      ensures SortedByStart(sorted[l])
    {
      var k :| 0 <= k < |days| && days[k] == l;
    }
  }

  /** The cutting rules tried in the report's order; the first that cuts gives the two
      halves, and no pieces means the entry is filed as it is. */
  method TrySplits(top: Entry) returns (entries: seq<Entry>)
    ensures entries == NextSplit(top)
  {
    entries := SplitInDifferentDays(top);
    if |entries| > 0 {
      return;
    }
    entries := SplitAfter9PM(top);
    if |entries| > 0 {
      return;
    }
    entries := SplitBefore6AM(top);
    if |entries| > 0 {
      return;
    }
    entries := SplitBeforeSaturdayNoon(top);
  }

  class EntryList {
    var weekday: int
    var weekend: int
    var nightlyWeekday: int
    var nightlyWeekend: int
    var entryMapping: Mapping

    function Current(): Totals
      reads this
    {
      Totals(weekday, weekend, nightlyWeekday, nightlyWeekend)
    }

    /** An empty list: no time counted, nothing indexed. */
    constructor ()
      ensures Current() == NoTotals && entryMapping == map[]
    {
      weekday, weekend, nightlyWeekday, nightlyWeekend := 0, 0, 0, 0;
      entryMapping := map[];
    }

    /** Cuts item into pieces and files each one: the totals and the index become those
        after filing Pieces(item) in order. */
    method AddEntry(item: Entry)
      modifies this
      ensures Current() == AccountAll(old(Current()), Pieces(item))
      ensures entryMapping == IndexAll(old(entryMapping), Pieces(item))
    {
      var stack := [item];
      ghost var done: seq<Entry> := [];
      assert Pending(stack, Pieces) == Pieces(item) by {
        PendingOfPush([], item, Pieces, Weight);
      }
      while |stack| > 0
        invariant done + Pending(stack, Pieces) == Pieces(item)
        invariant Current() == AccountAll(old(Current()), done)
        invariant entryMapping == IndexAll(old(entryMapping), done)
        decreases StackWeight(stack, Weight)
      {
        var top := stack[|stack| - 1];
        ghost var whole := stack;
        stack := stack[..|stack| - 1];

        var entries := TrySplits(top);
        if |entries| > 0 {
          stack := stack + entries;
          PushHalves(whole);
          continue;
        }

        PopTerminal(whole);
        Regroup(done, top, Pending(stack, Pieces));
        File(top);
        FileOne(old(Current()), old(entryMapping), done, top);
        done := done + [top];
      }
      Drained(done, stack);
    }

    /** Files one piece no rule cuts: appends it to its project's list for its day and adds
        its duration to the totals it belongs in. */
    method File(top: Entry)
      modifies this
      ensures Current() == Account(old(Current()), top)
      ensures entryMapping == Index(old(entryMapping), top)
    {
      ghost var before := entryMapping;
      if top.projectId !in entryMapping {
        entryMapping := entryMapping[top.projectId := map[]];
      }
      var day := FormatDay(top);
      var inner := entryMapping[top.projectId];
      var list := if day in inner then inner[day] else [];
      entryMapping := entryMapping[top.projectId := inner[day := list + [top]]];
      assert entryMapping == before[top.projectId := inner[day := list + [top]]];

      if IsNightly(top) {
        if IsWorkday(top) {
          nightlyWeekday := nightlyWeekday + Duration(top);
        } else {
          nightlyWeekend := nightlyWeekend + Duration(top);
        }
      }
      if IsWorkday(top) {
        weekday := weekday + Duration(top);
      } else {
        weekend := weekend + Duration(top);
      }
    }

    /** The indexed projects other than 0, each once, in no particular order. */
    method GetProjectIDs() returns (ids: seq<int>)
      ensures forall pid :: pid in ids <==> pid in entryMapping && pid != 0
      ensures forall i, j :: 0 <= i < j < |ids| ==> ids[i] != ids[j]
    {
      ids := [];
      var rest := entryMapping.Keys;
      while rest != {}
        invariant rest <= entryMapping.Keys
        invariant forall pid :: pid in ids <==> pid in entryMapping && pid != 0 && pid !in rest
        invariant forall i, j :: 0 <= i < j < |ids| ==> ids[i] != ids[j]
        decreases rest
      {
        NonEmpty(rest);
        var pid :| pid in rest;
        if pid != 0 {
          ids := ids + [pid];
        }
        rest := rest - {pid};
      }
    }

    /** The summary: the four totals, then one section per indexed project (0 included), in
        no particular order; each day's list in the index is left sorted by start. */
    method GetSummaryWithProjectInformation(projects: map<int, string>) returns (s: Summary)
      modifies this
      ensures Current() == old(Current())
      ensures entryMapping.Keys == old(entryMapping).Keys
      ensures forall pid :: pid in entryMapping ==> SortedVersion(old(entryMapping)[pid], entryMapping[pid])
      ensures s.totals == Current()
      ensures forall k :: 0 <= k < |s.projects| ==>
        s.projects[k].projectId in entryMapping &&
        IsSection(s.projects[k], s.projects[k].projectId, ProjectName(projects, s.projects[k].projectId),
                  entryMapping[s.projects[k].projectId])
      ensures forall pid :: pid in entryMapping ==> exists k :: 0 <= k < |s.projects| && s.projects[k].projectId == pid
      ensures forall i, j :: 0 <= i < j < |s.projects| ==> s.projects[i].projectId != s.projects[j].projectId
    {
      var sections, sorted := SummarizeProjects(entryMapping, projects);
      entryMapping := sorted;
      s := Summary(Current(), sections);
    }
  }

  /** One section per project of m, in no particular order, and m with every day's list
      sorted by start. */
  method SummarizeProjects(m: Mapping, projects: map<int, string>)
    returns (sections: seq<ProjectSection>, sorted: Mapping)
    ensures sorted.Keys == m.Keys
    ensures forall pid :: pid in m ==> SortedVersion(m[pid], sorted[pid])
    ensures forall k :: 0 <= k < |sections| ==>
      sections[k].projectId in m &&
      IsSection(sections[k], sections[k].projectId, ProjectName(projects, sections[k].projectId),
                sorted[sections[k].projectId])
    ensures forall pid :: pid in m ==> exists k :: 0 <= k < |sections| && sections[k].projectId == pid
    ensures forall i, j :: 0 <= i < j < |sections| ==> sections[i].projectId != sections[j].projectId
  {
    sorted := m;
    sections := [];
    var rest := m.Keys;
    while rest != {}
      invariant rest <= m.Keys && sorted.Keys == m.Keys
      invariant forall pid :: pid in rest ==> sorted[pid] == m[pid]
      invariant forall pid :: pid in m && pid !in rest ==> SortedVersion(m[pid], sorted[pid])
      invariant forall k :: 0 <= k < |sections| ==>
        sections[k].projectId in m && sections[k].projectId !in rest &&
        IsSection(sections[k], sections[k].projectId, ProjectName(projects, sections[k].projectId),
                  sorted[sections[k].projectId])
      invariant forall pid :: pid in m && pid !in rest ==>
        exists k :: 0 <= k < |sections| && sections[k].projectId == pid
      invariant forall i, j :: 0 <= i < j < |sections| ==> sections[i].projectId != sections[j].projectId
      decreases rest
    {
      NonEmpty(rest);
      var pid :| pid in rest;
      var sec, days := SummarizeProject(pid, ProjectName(projects, pid), sorted[pid]);
      SectionsGrow(m, projects, rest, sections, sorted, sec, days);
      sections := sections + [sec];
      sorted := sorted[pid := days];
      rest := rest - {pid};
    }
  }

  /** Adding the section of a project not yet summarized keeps the sections distinct, each
      one faithful to its (unchanged) project, and covers that project too. */
  lemma SectionsGrow(m: Mapping, projects: map<int, string>, rest: set<int>, sections: seq<ProjectSection>,
                     sorted: Mapping, sec: ProjectSection, days: map<string, seq<Entry>>)
    requires sec.projectId in rest && rest <= m.Keys && sorted.Keys == m.Keys
    requires IsSection(sec, sec.projectId, ProjectName(projects, sec.projectId), days)
    requires forall k :: 0 <= k < |sections| ==>
      sections[k].projectId in m && sections[k].projectId !in rest &&
      IsSection(sections[k], sections[k].projectId, ProjectName(projects, sections[k].projectId),
                sorted[sections[k].projectId])
    requires forall pid :: pid in m && pid !in rest ==>
      exists k :: 0 <= k < |sections| && sections[k].projectId == pid
    requires forall i, j :: 0 <= i < j < |sections| ==> sections[i].projectId != sections[j].projectId
    ensures var sections', sorted', rest' := sections + [sec], sorted[sec.projectId := days], rest - {sec.projectId};
      (forall k :: 0 <= k < |sections'| ==>
        sections'[k].projectId in m && sections'[k].projectId !in rest' &&
        IsSection(sections'[k], sections'[k].projectId, ProjectName(projects, sections'[k].projectId),
                  sorted'[sections'[k].projectId])) &&
      (forall pid :: pid in m && pid !in rest' ==>
        exists k :: 0 <= k < |sections'| && sections'[k].projectId == pid) &&
      (forall i, j :: 0 <= i < j < |sections'| ==> sections'[i].projectId != sections'[j].projectId)
  {
    var sections', pid := sections + [sec], sec.projectId;
    forall q | q in m && q !in rest - {pid}
      ensures exists k :: 0 <= k < |sections'| && sections'[k].projectId == q
    {
      if q == pid {
        assert sections'[|sections|].projectId == q;
      } else {
        var k :| 0 <= k < |sections| && sections[k].projectId == q;
        assert sections'[k] == sections[k];
      }
    }
  }

  /** Visiting a set of project ids in no given order: a non-empty set has a member to pick. */
  lemma NonEmpty(s: set<int>)
    requires s != {}
    ensures exists x :: x in s
  {
    if forall x :: x !in s {
      assert false;
    }
  }

  /** How many times the tag "Extra" occurs among the tags. */
  function ExtraCount(tags: seq<string>): nat
  {
    if tags == [] then 0
    else ExtraCount(tags[..|tags| - 1]) + (if tags[|tags| - 1] == "Extra" then 1 else 0)
  }

  /** ps, n times over. */
  ghost function Repeat(ps: seq<Entry>, n: nat): seq<Entry>
  {
    if n == 0 then [] else Repeat(ps, n - 1) + ps
  }

  /** Everything CreateFromRawEntries files, in filing order: the pieces of each fetched
      entry, once per "Extra" tag it carries. */
  ghost function Filed(raws: seq<RawEntry>): seq<Entry>
  {
    if raws == [] then []
    else
      var r := raws[|raws| - 1];
      Filed(raws[..|raws| - 1]) + Repeat(Pieces(ToEntry(r)), ExtraCount(r.tags))
  }

  /** A new list with the fetched entries filed: totals and index are those after filing
      Filed(raws) into an empty list. */
  method CreateFromRawEntries(raws: seq<RawEntry>) returns (list: EntryList)
    ensures fresh(list)
    ensures list.Current() == AccountAll(NoTotals, Filed(raws))
    ensures list.entryMapping == IndexAll(map[], Filed(raws))
  {
    list := new EntryList();
    var i := 0;
    while i < |raws|
      invariant 0 <= i <= |raws|
      invariant fresh(list)
      invariant list.Current() == AccountAll(NoTotals, Filed(raws[..i]))
      invariant list.entryMapping == IndexAll(map[], Filed(raws[..i]))
    {
      var raw := raws[i];
      ghost var filed := Filed(raws[..i]);
      ghost var pieces := Pieces(ToEntry(raw));
      ghost var sofar := filed;
      TagsStart(filed, pieces, raw.tags);
      var j := 0;
      while j < |raw.tags|
        invariant 0 <= j <= |raw.tags|
        invariant sofar == filed + Repeat(pieces, ExtraCount(raw.tags[..j]))
        invariant list.Current() == AccountAll(NoTotals, sofar)
        invariant list.entryMapping == IndexAll(map[], sofar)
      {
        TagStep(filed, pieces, raw.tags, j);
        if raw.tags[j] == "Extra" {
          list.AddEntry(ToEntry(raw));
          assert list.Current() == AccountAll(AccountAll(NoTotals, sofar), pieces);
          assert list.entryMapping == IndexAll(IndexAll(map[], sofar), pieces);
          AccountAllConcat(NoTotals, sofar, pieces);
          IndexAllConcat(map[], sofar, pieces);
          sofar := sofar + pieces;
        } else {
          assert sofar + [] == sofar;
        }
        j := j + 1;
      }
      FiledStep(raws, i);
      assert raw.tags[..j] == raw.tags;
      i := i + 1;
    }
    assert raws[..i] == raws;
  }

  lemma TagsStart(filed: seq<Entry>, pieces: seq<Entry>, tags: seq<string>)
    ensures filed + Repeat(pieces, ExtraCount(tags[..0])) == filed
  {
    assert tags[..0] == [];
    assert filed + [] == filed;
  }

  lemma TagStep(filed: seq<Entry>, pieces: seq<Entry>, tags: seq<string>, j: int)
    requires 0 <= j < |tags|
    ensures filed + Repeat(pieces, ExtraCount(tags[..j + 1])) ==
      filed + Repeat(pieces, ExtraCount(tags[..j])) + (if tags[j] == "Extra" then pieces else [])
  {
    assert tags[..j + 1][..j] == tags[..j];
    if tags[j] != "Extra" {
      assert filed + Repeat(pieces, ExtraCount(tags[..j])) + [] == filed + Repeat(pieces, ExtraCount(tags[..j]));
    }
  }

  lemma FiledStep(raws: seq<RawEntry>, i: int)
    requires 0 <= i < |raws|
    ensures Filed(raws[..i + 1]) == Filed(raws[..i]) + Repeat(Pieces(ToEntry(raws[i])), ExtraCount(raws[i].tags))
  {
    assert raws[..i + 1][..i] == raws[..i];
  }

  /** A fetched entry carrying "Extra" once, alone, files its pieces once. */
  lemma FiledOnce(r: RawEntry)
    requires ExtraCount(r.tags) == 1
    ensures Filed([r]) == Pieces(ToEntry(r))
  {
    var ps := Pieces(ToEntry(r));
    assert [r][..0] == [];
    assert Repeat(ps, 1) == Repeat(ps, 0) + ps == ps;
    assert Filed([r]) == Filed([]) + Repeat(ps, 1);
  }

  /** A fetched entry without the tag "Extra" (including one with no tags) files nothing. */
  lemma UntaggedFilesNothing(raws: seq<RawEntry>, r: RawEntry)
    requires "Extra" !in r.tags
    ensures Filed(raws + [r]) == Filed(raws)
  {
    assert (raws + [r])[..|raws|] == raws;
    NoExtra(r.tags);
  }

  lemma {:induction false} NoExtra(tags: seq<string>)
    requires "Extra" !in tags
    ensures ExtraCount(tags) == 0
    decreases |tags|
  {
    if tags != [] {
      NoExtra(tags[..|tags| - 1]);
    }
  }

  /** ExtraCount counts the occurrences of "Extra", wherever they are among other tags. */
  lemma {:induction false} ExtraCountsOccurrences(tags: seq<string>)
    ensures ExtraCount(tags) == multiset(tags)["Extra"]
    decreases |tags|
  {
    if tags != [] {
      assert tags == tags[..|tags| - 1] + [tags[|tags| - 1]];
      ExtraCountsOccurrences(tags[..|tags| - 1]);
    }
  }

  /** A fetched entry is filed, after the ones before it, once per "Extra" tag it carries. */
  lemma FiledPerExtraTag(raws: seq<RawEntry>, r: RawEntry)
    ensures Filed(raws + [r]) == Filed(raws) + Repeat(Pieces(ToEntry(r)), multiset(r.tags)["Extra"])
  {
    assert (raws + [r])[..|raws|] == raws;
    ExtraCountsOccurrences(r.tags);
  }
}
