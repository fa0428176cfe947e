/** The progress aggregate: a fold over the rows of a GROUP BY query. */
module ProgressSummary {
  import opened Prelude
  import opened AttemptLifecycle

  datatype Filters = Filters(
    runtimeChannel: Option<RuntimeChannel>,
    reconciliationStatus: Option<CompletionStatus>,
    technicalVersion: Option<string>)

  /** The WHERE clause; an empty technical version is no filter. */
  predicate Matches(a: Attempt, tenantId: string, studentProfileId: string, f: Filters) {
    && a.identity.tenantId == tenantId
    && a.identity.studentProfileId == studentProfileId
    && (f.runtimeChannel.Some? ==> a.identity.runtimeChannel == f.runtimeChannel.value)
    && (f.reconciliationStatus.Some? ==> a.completionStatus == f.reconciliationStatus)
    && (f.technicalVersion.Some? && f.technicalVersion.value != "" ==>
          a.identity.runtimeVersion == f.technicalVersion)
  }

  datatype Group = Group(state: AttemptState, status: Option<CompletionStatus>, count: nat)

  predicate InGroup(a: Attempt, g: Group) {
    a.state == g.state && a.completionStatus == g.status
  }

  /** What GROUP BY attempt_state, completion_status returns, in no particular order. */
  ghost predicate IsGrouping(rows: seq<Attempt>, groups: seq<Group>) {
    && (forall i :: 0 <= i < |groups| ==> groups[i].count == Count(rows, (a: Attempt) => InGroup(a, groups[i])))
    && (forall i, j :: 0 <= i < j < |groups| ==>
          groups[i].state != groups[j].state || groups[i].status != groups[j].status)
    && (forall k :: 0 <= k < |rows| ==> exists i :: 0 <= i < |groups| && InGroup(rows[k], groups[i]))
  }

  datatype Summary = Summary(
    totalAttempts: nat,
    byAttemptState: map<AttemptState, nat>,
    byCompletionStatus: map<CompletionStatus, nat>)

  /** The counts of the groups that satisfy `keep`, added up. */
  function SumOf(groups: seq<Group>, keep: Group -> bool): nat {
    if |groups| == 0 then 0
    else SumOf(Front(groups), keep) + if keep(Last(groups)) then Last(groups).count else 0
  }

  function At<K>(m: map<K, nat>, k: K): nat {
    if k in m then m[k] else 0
  }

  lemma SumOfNext(groups: seq<Group>, i: nat, keep: Group -> bool)
    requires i < |groups|
    ensures SumOf(groups[..i + 1], keep) == SumOf(groups[..i], keep) + if keep(groups[i]) then groups[i].count else 0
  {
    assert Front(groups[..i + 1]) == groups[..i] && Last(groups[..i + 1]) == groups[i];
  }

  function HasState(state: AttemptState): Group -> bool {
    (g: Group) => g.state == state
  }

  function HasStatus(status: CompletionStatus): Group -> bool {
    (g: Group) => g.status == Some(status)
  }

  function Any(): Group -> bool {
    (g: Group) => true
  }

  method Summarize(groups: seq<Group>) returns (s: Summary)
    ensures s.totalAttempts == SumOf(groups, Any())
    ensures forall state :: At(s.byAttemptState, state) == SumOf(groups, HasState(state))
    ensures forall status :: At(s.byCompletionStatus, status) == SumOf(groups, HasStatus(status))
    ensures forall state :: state in s.byAttemptState <==> exists i :: 0 <= i < |groups| && groups[i].state == state
  {
    var totalAttempts := 0;
    var byAttemptState: map<AttemptState, nat> := map[];
    var byCompletionStatus: map<CompletionStatus, nat> := map[];
    for i := 0 to |groups|
      invariant totalAttempts == SumOf(groups[..i], Any())
      invariant forall state :: At(byAttemptState, state) == SumOf(groups[..i], HasState(state))
      invariant forall status :: At(byCompletionStatus, status) == SumOf(groups[..i], HasStatus(status))
      invariant forall state :: state in byAttemptState <==> exists k :: 0 <= k < i && groups[k].state == state
    {
      var row := groups[i];
      SumOfNext(groups, i, Any());
      forall state ensures SumOf(groups[..i + 1], HasState(state)) ==
        SumOf(groups[..i], HasState(state)) + if row.state == state then row.count else 0
      {
        SumOfNext(groups, i, HasState(state));
      }
      forall status ensures SumOf(groups[..i + 1], HasStatus(status)) ==
        SumOf(groups[..i], HasStatus(status)) + if row.status == Some(status) then row.count else 0
      {
        SumOfNext(groups, i, HasStatus(status));
      }
      totalAttempts := totalAttempts + row.count;
      byAttemptState := byAttemptState[row.state := At(byAttemptState, row.state) + row.count];
      if row.status.Some? {
        byCompletionStatus :=
          byCompletionStatus[row.status.value := At(byCompletionStatus, row.status.value) + row.count];
      }
    }
    assert groups[..|groups|] == groups;
    s := Summary(totalAttempts, byAttemptState, byCompletionStatus);
  }

  // ---------------------------------------------------------------- conservation

  /** Some group that satisfies `keep` holds this row. */
  predicate InSome(groups: seq<Group>, keep: Group -> bool, a: Attempt) {
    exists i :: 0 <= i < |groups| && keep(groups[i]) && InGroup(a, groups[i])
  }

  lemma {:induction false} SumCountsRows(rows: seq<Attempt>, groups: seq<Group>, keep: Group -> bool)
    requires forall i :: 0 <= i < |groups| ==> groups[i].count == Count(rows, (a: Attempt) => InGroup(a, groups[i]))
    requires forall i, j :: 0 <= i < j < |groups| ==>
      groups[i].state != groups[j].state || groups[i].status != groups[j].status
    ensures SumOf(groups, keep) == Count(rows, (a: Attempt) => InSome(groups, keep, a))
  {
    if |groups| == 0 {
      CountNothing(rows, (a: Attempt) => InSome(groups, keep, a));
    } else {
      var front, last := Front(groups), Last(groups);
      SumCountsRows(rows, front, keep);
      var inFront := (a: Attempt) => InSome(front, keep, a);
      var inLast := (a: Attempt) => InGroup(a, last);
      var either := (a: Attempt) => InSome(groups, keep, a);
      forall k | 0 <= k < |rows|
        ensures either(rows[k]) <==> inFront(rows[k]) || (keep(last) && inLast(rows[k]))
        ensures !(inFront(rows[k]) && inLast(rows[k]))
      {
        if inFront(rows[k]) {
          var i :| 0 <= i < |front| && keep(front[i]) && InGroup(rows[k], front[i]);
          assert keep(groups[i]) && InGroup(rows[k], groups[i]);
        }
        if keep(last) && inLast(rows[k]) {
          assert keep(groups[|groups| - 1]) && InGroup(rows[k], groups[|groups| - 1]);
        }
      }
      assert last.count == Count(rows, inLast) by {
        assert groups[|groups| - 1] == last;
        CountAgrees(rows, (a: Attempt) => InGroup(a, groups[|groups| - 1]), inLast);
      }
      if keep(last) {
        CountSplits(rows, inFront, inLast, either);
      } else {
        CountAgrees(rows, inFront, either);
      }
    }
  }

  /** Summing the groups with a property counts the rows with it. */
  lemma GroupsCountRows(rows: seq<Attempt>, groups: seq<Group>, keep: Group -> bool, rowKeep: Attempt -> bool)
    requires IsGrouping(rows, groups)
    requires forall a: Attempt, g: Group :: InGroup(a, g) ==> keep(g) == rowKeep(a)
    ensures SumOf(groups, keep) == Count(rows, rowKeep)
  {
    SumCountsRows(rows, groups, keep);
    var inSome := (a: Attempt) => InSome(groups, keep, a);
    forall k | 0 <= k < |rows| ensures inSome(rows[k]) == rowKeep(rows[k]) {
      var i :| 0 <= i < |groups| && InGroup(rows[k], groups[i]);
      assert keep(groups[i]) == rowKeep(rows[k]);
    }
    CountAgrees(rows, inSome, rowKeep);
  }

  function InState(rows: seq<Attempt>, state: AttemptState): nat {
    Count(rows, (a: Attempt) => a.state == state)
  }

  function WithStatus(rows: seq<Attempt>, status: CompletionStatus): nat {
    Count(rows, (a: Attempt) => a.completionStatus == Some(status))
  }

  /** What a summary says of the rows it was computed from. */
  ghost predicate Summarizes(s: Summary, rows: seq<Attempt>) {
    && s.totalAttempts == |rows|
    && (forall state :: At(s.byAttemptState, state) == InState(rows, state))
    && (forall status :: At(s.byCompletionStatus, status) == WithStatus(rows, status))
  }

  /** GROUP BY and the fold together count the matching rows, however the groups come out. */
  lemma SummaryCountsRows(rows: seq<Attempt>, groups: seq<Group>, s: Summary)
    requires IsGrouping(rows, groups)
    requires s.totalAttempts == SumOf(groups, Any())
    requires forall state :: At(s.byAttemptState, state) == SumOf(groups, HasState(state))
    requires forall status :: At(s.byCompletionStatus, status) == SumOf(groups, HasStatus(status))
    ensures Summarizes(s, rows)
  {
    GroupsCountRows(rows, groups, Any(), (a: Attempt) => true);
    CountEverything(rows);
    forall state ensures At(s.byAttemptState, state) == InState(rows, state) {
      GroupsCountRows(rows, groups, HasState(state), (a: Attempt) => a.state == state);
    }
    forall status ensures At(s.byCompletionStatus, status) == WithStatus(rows, status) {
      GroupsCountRows(rows, groups, HasStatus(status), (a: Attempt) => a.completionStatus == Some(status));
    }
  }

  /** The whole of `summarizeForStudent`: `groups` is what the GROUP BY query returned for `rows`. */
  method SummarizeRows(ghost rows: seq<Attempt>, groups: seq<Group>) returns (s: Summary)
    requires IsGrouping(rows, groups)
    ensures Summarizes(s, rows)
  {
    s := Summarize(groups);
    SummaryCountsRows(rows, groups, s);
  }

  lemma {:induction false} CountEverything(rows: seq<Attempt>)
    ensures Count(rows, (a: Attempt) => true) == |rows|
  {
    if |rows| > 0 { CountEverything(Front(rows)); }
  }

  /**
   * Totals are conserved: the states add up to the total, and on rows that satisfy
   * the table's CHECK the completion statuses add up to the attempts submitted or
   * completed.
   */
  lemma {:induction false} TotalsAreConserved(rows: seq<Attempt>, s: Summary)
    requires Summarizes(s, rows)
    requires forall i :: 0 <= i < |rows| ==> LifecycleCheck(rows[i])
    ensures var m := s.byAttemptState;
            At(m, Created) + At(m, InProgress) + At(m, CompletionSubmitted) + At(m, Completed)
            + At(m, Abandoned) + At(m, Expired) == s.totalAttempts
    ensures var m := s.byCompletionStatus;
            At(m, AcceptedNotConsolidated) + At(m, ReconciliationRequired) + At(m, Consolidated)
            == At(s.byAttemptState, CompletionSubmitted) + At(s.byAttemptState, Completed)
    ensures At(s.byCompletionStatus, Consolidated) == At(s.byAttemptState, Completed)
  {
    StatesAddUp(rows);
  }

  lemma {:induction false} StatesAddUp(rows: seq<Attempt>)
    requires forall i :: 0 <= i < |rows| ==> LifecycleCheck(rows[i])
    ensures InState(rows, Created) + InState(rows, InProgress) + InState(rows, CompletionSubmitted)
            + InState(rows, Completed) + InState(rows, Abandoned) + InState(rows, Expired) == |rows|
    ensures WithStatus(rows, AcceptedNotConsolidated) + WithStatus(rows, ReconciliationRequired)
            + WithStatus(rows, Consolidated)
            == InState(rows, CompletionSubmitted) + InState(rows, Completed)
    ensures WithStatus(rows, Consolidated) == InState(rows, Completed)
  {
    if |rows| > 0 {
      assert LifecycleCheck(rows[|rows| - 1]);
      StatesAddUp(Front(rows));
    }
  }

  /** The rows a student's summary is about. */
  function MatchingRows(table: seq<Attempt>, tenantId: string, studentProfileId: string, f: Filters): seq<Attempt> {
    Filter(table, (a: Attempt) => Matches(a, tenantId, studentProfileId, f))
  }

  /** The rows counted are the student's own that satisfy every filter given. */
  lemma MatchingRowsAreTheStudents(table: seq<Attempt>, tenantId: string, studentProfileId: string, f: Filters, a: Attempt)
    ensures a in MatchingRows(table, tenantId, studentProfileId, f) <==>
      && a in table
      && a.identity.tenantId == tenantId && a.identity.studentProfileId == studentProfileId
      && f.runtimeChannel in {None, Some(a.identity.runtimeChannel)}
      && (f.reconciliationStatus.None? || f.reconciliationStatus == a.completionStatus)
      && (f.technicalVersion in {None, Some("")} || f.technicalVersion == a.identity.runtimeVersion)
  {
    FilterMembers(table, (a: Attempt) => Matches(a, tenantId, studentProfileId, f));
  }

  /** The summary filtered by a completion status has as its total the entry of that status without the filter. */
  lemma StatusFilterIsAnEntry(table: seq<Attempt>, tenantId: string, studentProfileId: string, f: Filters,
                              status: CompletionStatus, all: Summary, filtered: Summary)
    requires f.reconciliationStatus == None
    requires Summarizes(all, MatchingRows(table, tenantId, studentProfileId, f))
    requires Summarizes(filtered, MatchingRows(table, tenantId, studentProfileId, f.(reconciliationStatus := Some(status))))
    ensures filtered.totalAttempts == At(all.byCompletionStatus, status)
    ensures At(filtered.byCompletionStatus, status) == filtered.totalAttempts
  {
    FilteredStatusCounts(table, tenantId, studentProfileId, f, status);
  }

  lemma {:induction false} FilteredStatusCounts(table: seq<Attempt>, tenantId: string, studentProfileId: string, f: Filters,
                                                status: CompletionStatus)
    requires f.reconciliationStatus == None
    ensures var narrowed := MatchingRows(table, tenantId, studentProfileId, f.(reconciliationStatus := Some(status)));
            && |narrowed| == WithStatus(MatchingRows(table, tenantId, studentProfileId, f), status)
            && WithStatus(narrowed, status) == |narrowed|
  {
    if |table| > 0 {
      FilteredStatusCounts(Front(table), tenantId, studentProfileId, f, status);
      var g := f.(reconciliationStatus := Some(status));
      var all, narrowed := MatchingRows(Front(table), tenantId, studentProfileId, f),
                           MatchingRows(Front(table), tenantId, studentProfileId, g);
      var a := Last(table);
      assert Front(all + [a]) == all && Last(all + [a]) == a;
      assert Front(narrowed + [a]) == narrowed && Last(narrowed + [a]) == a;
      assert Matches(a, tenantId, studentProfileId, g) <==>
        Matches(a, tenantId, studentProfileId, f) && a.completionStatus == Some(status);
    }
  }

  function Channel(f: Filters, channel: Option<RuntimeChannel>): Filters {
    f.(runtimeChannel := channel)
  }

  /** The summaries by runtime channel add up, entry by entry, to the one without that filter. */
  lemma ChannelsPartition(table: seq<Attempt>, tenantId: string, studentProfileId: string, f: Filters,
                          all: Summary, web: Summary, roblox: Summary, legacy: Summary)
    requires Summarizes(all, MatchingRows(table, tenantId, studentProfileId, Channel(f, None)))
    requires Summarizes(web, MatchingRows(table, tenantId, studentProfileId, Channel(f, Some(Web))))
    requires Summarizes(roblox, MatchingRows(table, tenantId, studentProfileId, Channel(f, Some(Roblox))))
    requires Summarizes(legacy, MatchingRows(table, tenantId, studentProfileId, Channel(f, Some(UnknownLegacy))))
    ensures all.totalAttempts == web.totalAttempts + roblox.totalAttempts + legacy.totalAttempts
    ensures forall state ::
      At(all.byAttemptState, state) ==
      At(web.byAttemptState, state) + At(roblox.byAttemptState, state) + At(legacy.byAttemptState, state)
    ensures forall status ::
      At(all.byCompletionStatus, status) ==
      At(web.byCompletionStatus, status) + At(roblox.byCompletionStatus, status) + At(legacy.byCompletionStatus, status)
  {
    ChannelsSplitRows(table, tenantId, studentProfileId, f, (a: Attempt) => true);
    CountEverything(MatchingRows(table, tenantId, studentProfileId, Channel(f, None)));
    CountEverything(MatchingRows(table, tenantId, studentProfileId, Channel(f, Some(Web))));
    CountEverything(MatchingRows(table, tenantId, studentProfileId, Channel(f, Some(Roblox))));
    CountEverything(MatchingRows(table, tenantId, studentProfileId, Channel(f, Some(UnknownLegacy))));
    forall state ensures
      At(all.byAttemptState, state) ==
      At(web.byAttemptState, state) + At(roblox.byAttemptState, state) + At(legacy.byAttemptState, state)
    {
      ChannelsSplitRows(table, tenantId, studentProfileId, f, (a: Attempt) => a.state == state);
    }
    forall status ensures
      At(all.byCompletionStatus, status) ==
      At(web.byCompletionStatus, status) + At(roblox.byCompletionStatus, status) + At(legacy.byCompletionStatus, status)
    {
      ChannelsSplitRows(table, tenantId, studentProfileId, f, (a: Attempt) => a.completionStatus == Some(status));
    }
  }

  /** How many matching rows satisfy `keep`. */
  function Matching(table: seq<Attempt>, tenantId: string, studentProfileId: string, f: Filters,
                    keep: Attempt -> bool): nat
  {
    Count(MatchingRows(table, tenantId, studentProfileId, f), keep)
  }

  lemma {:induction false} ChannelsSplitRows(table: seq<Attempt>, tenantId: string, studentProfileId: string,
                                             f: Filters, keep: Attempt -> bool)
    ensures Matching(table, tenantId, studentProfileId, Channel(f, None), keep) ==
            Matching(table, tenantId, studentProfileId, Channel(f, Some(Web)), keep)
            + Matching(table, tenantId, studentProfileId, Channel(f, Some(Roblox)), keep)
            + Matching(table, tenantId, studentProfileId, Channel(f, Some(UnknownLegacy)), keep)
  {
    if |table| > 0 {
      ChannelsSplitRows(Front(table), tenantId, studentProfileId, f, keep);
      MatchingNext(table, tenantId, studentProfileId, Channel(f, None), keep);
      MatchingNext(table, tenantId, studentProfileId, Channel(f, Some(Web)), keep);
      MatchingNext(table, tenantId, studentProfileId, Channel(f, Some(Roblox)), keep);
      MatchingNext(table, tenantId, studentProfileId, Channel(f, Some(UnknownLegacy)), keep);
      EachRowHasOneChannel(Last(table), tenantId, studentProfileId, f);
    }
  }

  /** 1 if the row matches, else 0. */
  function Hit(a: Attempt, tenantId: string, studentProfileId: string, f: Filters): nat {
    if Matches(a, tenantId, studentProfileId, f) then 1 else 0
  }

  lemma EachRowHasOneChannel(a: Attempt, tenantId: string, studentProfileId: string, f: Filters)
    ensures Hit(a, tenantId, studentProfileId, Channel(f, None)) ==
            Hit(a, tenantId, studentProfileId, Channel(f, Some(Web)))
            + Hit(a, tenantId, studentProfileId, Channel(f, Some(Roblox)))
            + Hit(a, tenantId, studentProfileId, Channel(f, Some(UnknownLegacy)))
  {
  }

  lemma MatchingNext(table: seq<Attempt>, tenantId: string, studentProfileId: string, f: Filters, keep: Attempt -> bool)
    requires |table| > 0
    ensures Matching(table, tenantId, studentProfileId, f, keep) ==
            Matching(Front(table), tenantId, studentProfileId, f, keep)
            + if keep(Last(table)) then Hit(Last(table), tenantId, studentProfileId, f) else 0
  {
    var rows := MatchingRows(table, tenantId, studentProfileId, f);
    if Matches(Last(table), tenantId, studentProfileId, f) {
      assert Front(rows) == MatchingRows(Front(table), tenantId, studentProfileId, f);
    }
  }
}
