/**
 * Every interleaving of any number of callers over the idempotency table. A run
 * is an arbitrary sequence of statements: nothing ties a caller's second
 * statement, or its finish, to the one before it, so every schedule is covered.
 */
module IdempotencyRuns {
  import opened Prelude
  import opened IdempotencyRecord

  datatype Statement =
    | Upsert(key: Key, hash: string, now: int)
    | Select(key: Key, hash: string, now: int)
    | FinishAt(key: Key, generation: nat, finish: Finish, now: int)

  type Run = seq<Statement>

  function Step(t: Table, s: Statement): Table {
    match s
    case Upsert(k, hash, now) => AfterUpsert(t, k, hash, now)
    case Select(_, _, _) => t
    case FinishAt(k, generation, f, now) => AfterFinish(t, k, generation, f, now)
  }

  /** The table after a run that starts from the empty table. */
  function After(run: Run): Table {
    if |run| == 0 then map[] else Step(After(Front(run)), Last(run))
  }

  datatype TimedGrant = TimedGrant(grant: Grant, at: int)

  /** The grants (NEW and REOPENED answers) given out for `k`, in order. */
  function Grants(run: Run, k: Key): seq<TimedGrant> {
    if |run| == 0 then []
    else
      var earlier := Grants(Front(run), k);
      match Last(run)
      case Upsert(key, hash, now) =>
        var g := UpsertResult(After(Front(run)), key, hash, now);
        if key == k && g.Some? then earlier + [TimedGrant(g.value, now)] else earlier
      case _ => earlier
  }

  datatype Commit = Commit(generation: nat, finish: Finish, at: int)

  /** The finishes that committed for `k`, in order. */
  function Commits(run: Run, k: Key): seq<Commit> {
    if |run| == 0 then []
    else
      var earlier := Commits(Front(run), k);
      match Last(run)
      case FinishAt(key, generation, f, now) =>
        if key == k && MayFinish(After(Front(run)), k, generation)
        then earlier + [Commit(generation, f, now)] else earlier
      case _ => earlier
  }

  predicate RetryableFail(f: Finish) {
    f.FailWith? && f.retryable
  }

  /** The record shows the outcome of the last committed finish. */
  predicate Reflects(r: Record, f: Finish) {
    match f
    case CompleteWith(response) =>
      r.status == Completed && r.response == Some(response) && r.failureRetryable == None
    case FailWith(retryable, response) =>
      r.status == Failed && r.response == Some(response) && r.failureRetryable == Some(retryable)
  }

  /** What a key's grants and commits are, given how its record ended up. */
  ghost predicate HistoryFits(t: Table, k: Key, grants: seq<TimedGrant>, commits: seq<Commit>) {
    && (k in t <==> |grants| > 0)
    && (forall i :: 0 <= i < |grants| ==>
          grants[i].grant == Grant(i == 0, INITIAL_GENERATION + i))
    && (forall i :: 0 <= i < |commits| ==> commits[i].generation == INITIAL_GENERATION + i)
    && (forall i :: 0 <= i < |commits| && i + 1 < |grants| ==> RetryableFail(commits[i].finish))
    && (k !in t ==> |commits| == 0)
    && (k in t ==>
          && t[k].generation == INITIAL_GENERATION + |grants| - 1
          && (t[k].status == Pending ==>
                |commits| == |grants| - 1 && t[k].response == None && t[k].failureRetryable == None)
          && (t[k].status != Pending ==>
                |commits| == |grants| && Reflects(t[k], Last(commits).finish)))
  }

  /**
   * Over every interleaving, a key's whole history is determined: generations are
   * granted 1, 2, 3, ... once each, the first as NEW and the others as REOPENED;
   * the i-th committed finish carries the i-th generation; every finish that was
   * followed by another grant was a retryable failure; and the record shows the
   * last one.
   */
  lemma {:induction false} HistoryDeterminesRecord(run: Run, k: Key)
    ensures HistoryFits(After(run), k, Grants(run, k), Commits(run, k))
  {
    if |run| > 0 {
      HistoryDeterminesRecord(Front(run), k);
    }
  }

  lemma EachGenerationGrantedOnce(run: Run, k: Key, i: nat, j: nat)
    requires i < |Grants(run, k)| && j < |Grants(run, k)|
    ensures Grants(run, k)[i].grant.generation == Grants(run, k)[j].grant.generation ==> i == j
    ensures j == i + 1 ==>
      Grants(run, k)[j].grant.generation == Grants(run, k)[i].grant.generation + 1
    ensures Grants(run, k)[i].grant.insertedFresh <==> i == 0
  {
    HistoryDeterminesRecord(run, k);
  }

  /** One finish per generation at most, one `complete` per key at most, and it is the last word. */
  lemma OneFinishPerGeneration(run: Run, k: Key, i: nat, j: nat)
    requires i < |Commits(run, k)| && j < |Commits(run, k)|
    ensures Commits(run, k)[i].generation == Commits(run, k)[j].generation ==> i == j
    ensures !RetryableFail(Commits(run, k)[i].finish) ==>
      i == |Commits(run, k)| - 1 && i == |Grants(run, k)| - 1
    ensures i < |Grants(run, k)| && Grants(run, k)[i].grant.generation == Commits(run, k)[i].generation
  {
    HistoryDeterminesRecord(run, k);
  }

  /** Committed failures are the reopenings, plus one if the record is FAILED now. */
  lemma {:induction false} FailuresAreReopenings(run: Run, k: Key)
    ensures Count(Commits(run, k), (c: Commit) => c.finish.FailWith?) ==
            Count(Grants(run, k), (g: TimedGrant) => !g.grant.insertedFresh)
            + if k in After(run) && After(run)[k].status == Failed then 1 else 0
  {
    HistoryDeterminesRecord(run, k);
    var grants, commits := Grants(run, k), Commits(run, k);
    CountReopenings(grants);
    if |grants| > 0 {
      var settled := commits[..|grants| - 1];
      CountAllFails(settled);
      if |commits| == |grants| {
        assert Front(commits) == settled;
      } else {
        assert commits == settled;
      }
    }
  }

  lemma {:induction false} CountReopenings(grants: seq<TimedGrant>)
    requires forall i :: 0 <= i < |grants| ==> (grants[i].grant.insertedFresh <==> i == 0)
    ensures Count(grants, (g: TimedGrant) => !g.grant.insertedFresh) == if |grants| == 0 then 0 else |grants| - 1
  {
    if |grants| > 0 { CountReopenings(Front(grants)); }
  }

  lemma {:induction false} CountAllFails(commits: seq<Commit>)
    requires forall i :: 0 <= i < |commits| ==> commits[i].finish.FailWith?
    ensures Count(commits, (c: Commit) => c.finish.FailWith?) == |commits|
  {
    if |commits| > 0 { CountAllFails(Front(commits)); }
  }

  // ---------------------------------------------------------------- what later statements keep

  /** Keys are independent: a record depends only on the statements about its own key. */
  lemma {:induction false} KeysAreIndependent(run: Run, k: Key)
    ensures var own := Filter(run, (s: Statement) => s.key == k);
            && (k in After(run) <==> k in After(own))
            && (k in After(run) ==> After(run)[k] == After(own)[k])
  {
    if |run| > 0 {
      KeysAreIndependent(Front(run), k);
      var own := Filter(run, (s: Statement) => s.key == k);
      if Last(run).key == k {
        assert Front(own) == Filter(Front(run), (s: Statement) => s.key == k);
      }
    }
  }

  /** A COMPLETED or non-retryably FAILED record. */
  predicate Terminal(r: Record) {
    r.status == Completed || (r.status == Failed && r.failureRetryable != Some(true))
  }

  lemma {:induction false} LaterRecord(run: Run, more: Run, k: Key)
    requires k in After(run)
    ensures k in After(run + more)
    ensures After(run + more)[k].requestHash == After(run)[k].requestHash
    ensures After(run + more)[k].generation >= After(run)[k].generation
    ensures Terminal(After(run)[k]) ==> After(run + more)[k] == After(run)[k]
  {
    if |more| == 0 {
      assert run + more == run;
    } else {
      LaterRecord(run, Front(more), k);
      assert Front(run + more) == run + Front(more);
    }
  }

  /**
   * Once a finish without retry has committed, every later `begin` with the same
   * request replays exactly its response, every other request conflicts, every
   * finish is stale, and nothing changes any more.
   */
  lemma FinalOutcomeIsReplayed(run: Run, more: Run, k: Key, hash: string, now: int, later: int)
    requires k in After(run) && Terminal(After(run)[k])
    ensures |Commits(run, k)| > 0
    ensures var t := After(run + more);
            var f := Last(Commits(run, k)).finish;
            && UpsertResult(t, k, hash, now) == None
            && AfterUpsert(t, k, hash, now) == t
            && Classify(t, k, hash, later) ==
                 (if hash != After(run)[k].requestHash then Ok(ConflictDifferentPayload)
                  else if f.CompleteWith? then Ok(DuplicateSamePayload(Some(f.response)))
                  else Ok(FailedTerminal(Some(f.response))))
            && forall g: nat, any: Finish :: AfterFinish(t, k, g, any, later) == t
  {
    HistoryDeterminesRecord(run, k);
    LaterRecord(run, more, k);
  }

  /** The hash of the first upsert of `k`, if any. */
  function FirstHash(run: Run, k: Key): Option<string> {
    if |run| == 0 then None
    else if FirstHash(Front(run), k).Some? then FirstHash(Front(run), k)
    else match Last(run)
      case Upsert(key, hash, _) => if key == k then Some(hash) else None
      case _ => None
  }

  /** A record exists exactly from the first upsert of its key on, and keeps that request's hash. */
  lemma {:induction false} HashIsTheFirst(run: Run, k: Key)
    ensures FirstHash(run, k) == if k in After(run) then Some(After(run)[k].requestHash) else None
  {
    if |run| > 0 {
      HashIsTheFirst(Front(run), k);
    }
  }

  /** A request hash that differs from the first one conflicts at every status, for ever. */
  lemma OtherPayloadAlwaysConflicts(run: Run, more: Run, k: Key, hash: string, now: int, later: int)
    requires k in After(run) && After(run)[k].requestHash != hash
    ensures AtomicBegin(After(run + more), k, hash, now) == Ok(ConflictDifferentPayload)
    ensures Classify(After(run + more), k, hash, later) == Ok(ConflictDifferentPayload)
    ensures AfterUpsert(After(run + more), k, hash, now) == After(run + more)
  {
    LaterRecord(run, more, k);
  }

  /** A caller whose generation has already been finished can never finish it again. */
  lemma StaleCallerChangesNothing(run: Run, more: Run, k: Key, i: nat, f: Finish, now: int)
    requires i < |Commits(run, k)|
    ensures !MayFinish(After(run + more), k, Commits(run, k)[i].generation)
    ensures After(run + more + [FinishAt(k, Commits(run, k)[i].generation, f, now)]) == After(run + more)
  {
    HistoryDeterminesRecord(run, k);
    HistoryDeterminesRecord(run + more, k);
    CommitsGrow(run, more, k);
    var last := FinishAt(k, Commits(run, k)[i].generation, f, now);
    assert Front(run + more + [last]) == run + more;
  }

  lemma {:induction false} CommitsGrow(run: Run, more: Run, k: Key)
    ensures Commits(run, k) <= Commits(run + more, k)
  {
    if |more| == 0 {
      assert run + more == run;
    } else {
      CommitsGrow(run, Front(more), k);
      assert Front(run + more) == run + Front(more);
    }
  }

  // ---------------------------------------------------------------- begin is two statements

  /** Equal answers, up to the number of seconds advised. */
  predicate SameAnswer(a: BeginOutcome, b: BeginOutcome) {
    a == b || (a.RetryTooSoon? && b.RetryTooSoon?)
  }

  /**
   * `begin` answers as if both its statements had run at one of their two moments,
   * whatever other callers do in between, and its "no existing row" error never
   * happens. It answers as at the second moment unless the record has become
   * reopenable in between; then, and only then, as at the first.
   */
  lemma BeginIsAtomicAtOneMoment(run: Run, between: Run, k: Key, hash: string, now: int, later: int)
    requires UpsertResult(After(run), k, hash, now) == None
    ensures var t1 := After(run);
            var t2 := After(run + [Upsert(k, hash, now)] + between);
            && Classify(t2, k, hash, later).Ok?
            && AtomicBegin(t1, k, hash, now).Ok? && AtomicBegin(t2, k, hash, later).Ok?
            && var answer := Classify(t2, k, hash, later).value;
               var reopenable := k in t2 && MayReopen(t2[k], hash, later);
               && (!reopenable ==> SameAnswer(answer, AtomicBegin(t2, k, hash, later).value))
               && (reopenable ==> !SameAnswer(answer, AtomicBegin(t2, k, hash, later).value))
               && (reopenable ==> SameAnswer(answer, AtomicBegin(t1, k, hash, now).value))
  {
    var started := run + [Upsert(k, hash, now)];
    assert Front(started) == run && Last(started) == Upsert(k, hash, now);
    assert After(started) == After(run);
    LaterRecord(started, between, k);
  }

  // ---------------------------------------------------------------- timestamps

  /** A pending record is stamped by its grant, a settled one by the finish that settled it. */
  lemma {:induction false} RecordIsStampedByItsLastStatement(run: Run, k: Key)
    requires k in After(run)
    ensures |Grants(run, k)| > 0 && (After(run)[k].status != Pending ==> |Commits(run, k)| > 0)
    ensures After(run)[k].updatedAt ==
            if After(run)[k].status == Pending then Last(Grants(run, k)).at else Last(Commits(run, k)).at
  {
    HistoryDeterminesRecord(run, k);
    if k in After(Front(run)) {
      HistoryDeterminesRecord(Front(run), k);
      RecordIsStampedByItsLastStatement(Front(run), k);
    }
  }

  /** The i-th reopening comes more than the retry window after the failure that it answers. */
  ghost predicate WaitsForTheWindow(grants: seq<TimedGrant>, commits: seq<Commit>) {
    forall i :: 0 <= i < |grants| - 1 ==> i < |commits| && grants[i + 1].at > commits[i].at + RETRY_WINDOW
  }

  lemma {:induction false} ReopeningsWaitForTheWindow(run: Run, k: Key)
    ensures WaitsForTheWindow(Grants(run, k), Commits(run, k))
  {
    if |run| > 0 {
      ReopeningsWaitForTheWindow(Front(run), k);
      HistoryDeterminesRecord(Front(run), k);
      var grants, commits := Grants(Front(run), k), Commits(Front(run), k);
      if k in After(Front(run)) {
        RecordIsStampedByItsLastStatement(Front(run), k);
      }
      forall i | 0 <= i < |Grants(run, k)| - 1
        ensures i < |Commits(run, k)| && Grants(run, k)[i + 1].at > Commits(run, k)[i].at + RETRY_WINDOW
      {
        if i < |grants| - 1 {
          assert Grants(run, k)[i + 1] == grants[i + 1] && Commits(run, k)[i] == commits[i];
        } else {
          assert |commits| == |grants| && commits[i] == Last(commits) && Commits(run, k) == commits;
        }
      }
    }
  }

  /**
   * What `begin` answers a request with the recorded payload while nothing is final: 30 s while the
   * key is pending, and after a retryable failure the least number of whole seconds that covers
   * what is left of the window since that failure, on the millisecond clock.
   */
  lemma UnsettledAnswersWithTheWait(run: Run, k: Key, now: int)
    requires k in After(run) && !Terminal(After(run)[k])
    ensures var answer := Classify(After(run), k, After(run)[k].requestHash, now);
            && answer.Ok? && answer.value.RetryTooSoon?
            && var wait := answer.value.retryAfterSeconds;
               if After(run)[k].status == Pending then wait == 30
               else
                 && |Commits(run, k)| > 0
                 && var left := 30_000 - (now / 1000 - Last(Commits(run, k)).at / 1000);
                    if left <= 0 then wait == 0 else (wait - 1) * 1000 < left <= wait * 1000
  {
    RecordIsStampedByItsLastStatement(run, k);
  }

  // ---------------------------------------------------------------- pacing

  /** All callers read one clock, and it never goes back. */
  ghost predicate ClockNeverGoesBack(run: Run) {
    forall i, j :: 0 <= i < j < |run| ==> run[i].now <= run[j].now
  }

  ghost predicate Paced(grants: seq<TimedGrant>) {
    forall i :: 0 < i < |grants| ==> grants[i].at > grants[i - 1].at + RETRY_WINDOW
  }

  lemma {:induction false} SuccessiveGrantsArePaced(run: Run, k: Key)
    requires ClockNeverGoesBack(run)
    ensures Paced(Grants(run, k))
    ensures k in After(run) ==>
      |Grants(run, k)| > 0 && Last(Grants(run, k)).at <= After(run)[k].updatedAt
    ensures k in After(run) ==> After(run)[k].updatedAt <= Last(run).now
  {
    if |run| > 0 {
      SuccessiveGrantsArePaced(Front(run), k);
      HistoryDeterminesRecord(Front(run), k);
      if |run| > 1 {
        assert run[|run| - 2].now <= run[|run| - 1].now;
      }
    }
  }

  /** `g` reopenings take more than 30 * g seconds. */
  lemma {:induction false} ReopeningsTakeTime(run: Run, k: Key, g: nat)
    requires ClockNeverGoesBack(run)
    requires 0 < g < |Grants(run, k)|
    ensures Grants(run, k)[g].at - Grants(run, k)[0].at > g * RETRY_WINDOW
  {
    SuccessiveGrantsArePaced(run, k);
    if g > 1 { ReopeningsTakeTime(run, k, g - 1); }
  }

  /** Between statement and clock reading the advised wait stays within 0 and 30 seconds. */
  lemma AdvisedWaitIsBounded(updatedAt: int, now: int)
    requires updatedAt <= now
    ensures 0 <= RetryAfter(updatedAt, now) <= RETRY_WINDOW_SECONDS
    ensures RetryAfter(updatedAt, now) == 0 <==> ElapsedMillis(updatedAt, now) >= RETRY_WINDOW_SECONDS * 1000
  {
    assert ElapsedMillis(updatedAt, now) >= 0;
  }

  /**
   * The advice, taken at `now` on a retryably failed record that nobody touches: a begin
   * (wait - 1) seconds later or sooner never reopens it, one a millisecond past the advised
   * wait always does.
   */
  lemma AdviceNeverTooLong(r: Record, now: int, retryAt: int)
    requires r.status == Failed && r.failureRetryable == Some(true)
    requires r.updatedAt <= now
    ensures
      (RetryAfter(r.updatedAt, now) > 0 &&
       retryAt <= now + (RetryAfter(r.updatedAt, now) - 1) * MICROS_PER_SECOND)
      ==> !MayReopen(r, r.requestHash, retryAt)
    ensures retryAt >= now + RetryAfter(r.updatedAt, now) * MICROS_PER_SECOND + 1000 ==>
      MayReopen(r, r.requestHash, retryAt)
  {
    var e := ElapsedMillis(r.updatedAt, now);
    assert e * 1000 - 1000 < now - r.updatedAt < e * 1000 + 1000;
  }

  /** Elapsed whole seconds within the window, on a clock that stands earlier in its millisecond than the record. */
  predicate AdviceRoundsDown(updatedAt: int, now: int) {
    && ElapsedMillis(updatedAt, now) <= RETRY_WINDOW_SECONDS * 1000
    && ElapsedMillis(updatedAt, now) % 1000 == 0
    && now % 1000 < updatedAt % 1000
  }

  /**
   * Waiting strictly longer than advised reopens an untouched record, at every such moment,
   * exactly when truncating the two clocks to milliseconds has not rounded the advice down.
   */
  lemma AdviceSufficesIffNotRoundedDown(r: Record, now: int)
    requires r.status == Failed && r.failureRetryable == Some(true)
    requires r.updatedAt <= now
    ensures (forall retryAt :: retryAt > now + RetryAfter(r.updatedAt, now) * MICROS_PER_SECOND ==>
               MayReopen(r, r.requestHash, retryAt))
            <==> !AdviceRoundsDown(r.updatedAt, now)
  {
    var e := ElapsedMillis(r.updatedAt, now);
    var wait := RetryAfter(r.updatedAt, now);
    assert now - r.updatedAt == e * 1000 + now % 1000 - r.updatedAt % 1000;
    assert e <= RETRY_WINDOW_SECONDS * 1000 ==> wait == RETRY_WINDOW_SECONDS - e / 1000;
    assert e == e / 1000 * 1000 + e % 1000;
    var soonest := now + wait * MICROS_PER_SECOND + 1;
    assert (forall retryAt :: retryAt > now + wait * MICROS_PER_SECOND ==> MayReopen(r, r.requestHash, retryAt))
      <==> MayReopen(r, r.requestHash, soonest);
  }
}
