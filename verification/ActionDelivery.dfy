/**
 * From the client's accepted actions to the server's replay: posting in any order
 * and any number of times, the append-only log, its reading order, and the check
 * of the final client sequence.
 */
module ActionDelivery {
  import opened Prelude
  import opened StableSorting
  import opened EngineRuntime
  import opened EngineReplay

  datatype LogEntry<A> = LogEntry(
    tenantId: string,
    attemptId: string,
    actionId: string,
    clientSequence: nat,
    occurredAt: int,
    action: A)

  const FIVE_MINUTES: nat := 5 * 60 * 1_000_000

  /** CHECK (occurred_at <= created_at + interval '5 minutes'), the row being created at `now`. */
  predicate OnTime<A>(e: LogEntry<A>, now: int) {
    e.occurredAt <= now + FIVE_MINUTES
  }

  /** UNIQUE (attempt_id, action_id) and UNIQUE (attempt_id, client_sequence). */
  predicate Violates<A>(a: LogEntry<A>, b: LogEntry<A>) {
    a.attemptId == b.attemptId && (a.actionId == b.actionId || a.clientSequence == b.clientSequence)
  }

  predicate MayInsert<A>(entries: seq<LogEntry<A>>, e: LogEntry<A>) {
    forall i :: 0 <= i < |entries| ==> !Violates(entries[i], e)
  }

  ghost predicate UniqueEntries<A>(entries: seq<LogEntry<A>>) {
    forall i, j :: 0 <= i < j < |entries| ==> !Violates(entries[i], entries[j])
  }

  function AfterInsert<A>(entries: seq<LogEntry<A>>, e: LogEntry<A>): seq<LogEntry<A>> {
    if MayInsert(entries, e) then entries + [e] else entries
  }

  /** WHERE attempt_id = $1 AND tenant_id = $2. */
  function OfAttempt<A>(entries: seq<LogEntry<A>>, attemptId: string, tenantId: string): seq<LogEntry<A>> {
    if |entries| == 0 then []
    else
      var earlier := OfAttempt(Front(entries), attemptId, tenantId);
      if Last(entries).attemptId == attemptId && Last(entries).tenantId == tenantId
      then earlier + [Last(entries)] else earlier
  }

  function Sequence<A>(): LogEntry<A> -> int {
    (e: LogEntry<A>) => e.clientSequence
  }

  /** ... ORDER BY client_sequence ASC. */
  function ReadLog<A>(entries: seq<LogEntry<A>>, attemptId: string, tenantId: string): seq<LogEntry<A>> {
    SortBy(OfAttempt(entries, attemptId, tenantId), Sequence<A>())
  }

  class SemanticActionLogRepository<A> {
    var entries: seq<LogEntry<A>>

    ghost predicate Valid()
      reads this
    {
      UniqueEntries(entries)
    }

    constructor ()
      ensures Valid() && entries == []
    {
      entries := [];
    }

    /**
     * `owned` says whether (attempt_id, tenant_id) references an attempt. False stands for the
     * error of a constraint: this foreign key, a unique one, or the CHECK on the times.
     */
    method Insert(e: LogEntry<A>, now: int, owned: bool) returns (inserted: bool)
      requires Valid()
      modifies this
      ensures Valid()
      ensures inserted <==> owned && OnTime(e, now) && MayInsert(old(entries), e)
      ensures entries == if owned && OnTime(e, now) then AfterInsert(old(entries), e) else old(entries)
      ensures old(entries) <= entries
    {
      inserted := owned && e.occurredAt <= now + FIVE_MINUTES && MayInsert(entries, e);
      if inserted {
        entries := entries + [e];
      }
    }

    method FindByAttempt(attemptId: string, tenantId: string) returns (found: seq<LogEntry<A>>)
      requires Valid()
      ensures found == ReadLog(entries, attemptId, tenantId)
      ensures forall e :: e in found <==> e in entries && e.attemptId == attemptId && e.tenantId == tenantId
      ensures forall i, j :: 0 <= i < j < |found| ==> found[i].clientSequence < found[j].clientSequence
    {
      found := ReadLog(entries, attemptId, tenantId);
      ReadLogIsExact(entries, attemptId, tenantId);
    }

    method FindByAttemptAndActionId(attemptId: string, tenantId: string, actionId: string)
      returns (found: Option<LogEntry<A>>)
      ensures found.Some? ==>
        && found.value in entries
        && found.value.attemptId == attemptId
        && found.value.tenantId == tenantId
        && found.value.actionId == actionId
      ensures found.None? ==> forall e :: e in entries ==>
        !(e.attemptId == attemptId && e.tenantId == tenantId && e.actionId == actionId)
    {
      for i := 0 to |entries|
        invariant forall k :: 0 <= k < i ==>
          !(entries[k].attemptId == attemptId && entries[k].tenantId == tenantId && entries[k].actionId == actionId)
      {
        var e := entries[i];
        if e.attemptId == attemptId && e.tenantId == tenantId && e.actionId == actionId {
          return Some(e);
        }
      }
      return None;
    }
  }

  lemma {:induction false} OfAttemptMembers<A>(entries: seq<LogEntry<A>>, attemptId: string, tenantId: string)
    ensures var own := OfAttempt(entries, attemptId, tenantId);
            && (forall e :: e in own <==> e in entries && e.attemptId == attemptId && e.tenantId == tenantId)
            && (forall i :: 0 <= i < |own| ==> own[i] in entries && own[i].attemptId == attemptId)
  {
    if |entries| > 0 {
      OfAttemptMembers(Front(entries), attemptId, tenantId);
      assert entries == Front(entries) + [Last(entries)];
    }
  }

  lemma {:induction false} OfAttemptStaysUnique<A>(entries: seq<LogEntry<A>>, attemptId: string, tenantId: string)
    requires UniqueEntries(entries)
    ensures UniqueEntries(OfAttempt(entries, attemptId, tenantId))
  {
    if |entries| > 0 {
      OfAttemptStaysUnique(Front(entries), attemptId, tenantId);
      OfAttemptMembers(Front(entries), attemptId, tenantId);
      var earlier := OfAttempt(Front(entries), attemptId, tenantId);
      forall i | 0 <= i < |earlier| ensures !Violates(earlier[i], Last(entries)) {
        var k :| 0 <= k < |Front(entries)| && Front(entries)[k] == earlier[i];
        assert entries[k] == earlier[i];
      }
    }
  }

  lemma ReadLogIsStrictlyOrdered<A>(own: seq<LogEntry<A>>)
    requires UniqueEntries(own)
    requires forall e, f :: e in own && f in own ==> e.attemptId == f.attemptId
    ensures var sorted := SortBy(own, Sequence<A>());
            && (forall e :: e in sorted <==> e in own)
            && forall i, j :: 0 <= i < j < |sorted| ==> sorted[i].clientSequence < sorted[j].clientSequence
  {
    var sorted := SortBy(own, Sequence<A>());
    SortIsOrderedPermutation(own, Sequence<A>());
    forall i, j | 0 <= i < j < |sorted| ensures sorted[i].clientSequence < sorted[j].clientSequence {
      var rank := Sequence<A>();
      assert rank(sorted[i]) <= rank(sorted[j]);
      PermutationHasDistinctSequences(own, sorted, i, j);
    }
  }

  /** An action may be dated up to five minutes ahead of the row that records it, in seconds of a million microseconds. */
  lemma FiveMinutesAhead<A>(e: LogEntry<A>, now: int)
    ensures OnTime(e, now) <==> e.occurredAt - now <= 300 * 1_000_000
  {
  }

  /** An attempt has at most one entry per action id, and at most one per client sequence. */
  lemma OneEntryPerAction<A>(entries: seq<LogEntry<A>>, i: nat, j: nat)
    requires UniqueEntries(entries) && i < |entries| && j < |entries|
    requires entries[i].attemptId == entries[j].attemptId
    ensures entries[i].actionId == entries[j].actionId ==> i == j
    ensures entries[i].clientSequence == entries[j].clientSequence ==> i == j
  {
    if i < j {
      assert !Violates(entries[i], entries[j]);
    } else if j < i {
      assert !Violates(entries[j], entries[i]);
    }
  }

  /** Nothing but a clash with an entry of the same attempt keeps an action out. */
  lemma OtherwiseInserted<A>(entries: seq<LogEntry<A>>, e: LogEntry<A>)
    ensures AfterInsert(entries, e) == entries <==>
      exists i :: 0 <= i < |entries| && entries[i].attemptId == e.attemptId
               && (entries[i].actionId == e.actionId || entries[i].clientSequence == e.clientSequence)
    ensures AfterInsert(entries, e) == entries || AfterInsert(entries, e) == entries + [e]
  {
    assert |entries + [e]| != |entries|;
    if i :| 0 <= i < |entries| && entries[i].attemptId == e.attemptId
            && (entries[i].actionId == e.actionId || entries[i].clientSequence == e.clientSequence) {
      assert Violates(entries[i], e);
    } else {
      assert forall i :: 0 <= i < |entries| ==> !Violates(entries[i], e);
    }
  }

  /** What is read is exactly the attempt's entries, in strictly increasing order. */
  lemma ReadLogIsExact<A>(entries: seq<LogEntry<A>>, attemptId: string, tenantId: string)
    requires UniqueEntries(entries)
    ensures var read := ReadLog(entries, attemptId, tenantId);
            && (forall e :: e in read <==> e in entries && e.attemptId == attemptId && e.tenantId == tenantId)
            && forall i, j :: 0 <= i < j < |read| ==> read[i].clientSequence < read[j].clientSequence
  {
    OfAttemptMembers(entries, attemptId, tenantId);
    OfAttemptStaysUnique(entries, attemptId, tenantId);
    ReadLogIsStrictlyOrdered(OfAttempt(entries, attemptId, tenantId));
  }

  lemma PermutationHasDistinctSequences<A>(own: seq<LogEntry<A>>, sorted: seq<LogEntry<A>>, i: nat, j: nat)
    requires UniqueEntries(own)
    requires forall e, f :: e in own && f in own ==> e.attemptId == f.attemptId
    requires multiset(own) == multiset(sorted)
    requires i < j < |sorted|
    ensures sorted[i].clientSequence != sorted[j].clientSequence
  {
    SameMembers(own, sorted);
    var x, y := sorted[i], sorted[j];
    assert x in own && y in own;
    if x.clientSequence == y.clientSequence {
      SequenceNamesEntry(own, x, y);
      OnceInUnique(own, x);
      TwiceCountsTwo(sorted, i, j);
    }
  }

  lemma SequenceNamesEntry<A>(own: seq<LogEntry<A>>, x: LogEntry<A>, y: LogEntry<A>)
    requires UniqueEntries(own)
    requires x in own && y in own && x.attemptId == y.attemptId && x.clientSequence == y.clientSequence
    ensures x == y
  {
    var a :| 0 <= a < |own| && own[a] == x;
    var b :| 0 <= b < |own| && own[b] == y;
    assert Violates(own[a], own[b]) && Violates(own[b], own[a]);
  }

  lemma {:induction false} OnceInUnique<A>(own: seq<LogEntry<A>>, e: LogEntry<A>)
    requires UniqueEntries(own)
    ensures multiset(own)[e] <= 1
  {
    if |own| > 0 {
      OnceInUnique(Front(own), e);
      assert own == Front(own) + [Last(own)];
      if e == Last(own) {
        assert e !in Front(own);
      }
    }
  }

  // ---------------------------------------------------------------- posting

  /** What the client sends: its accepted actions, numbered 0, 1, 2, ... in order, each with its own id. */
  ghost predicate Numbered<A>(messages: seq<LogEntry<A>>, attemptId: string, tenantId: string) {
    && (forall i :: 0 <= i < |messages| ==>
          && messages[i].clientSequence == i
          && messages[i].attemptId == attemptId
          && messages[i].tenantId == tenantId)
    && forall i, j :: 0 <= i < j < |messages| ==> messages[i].actionId != messages[j].actionId
  }

  /**
   * One arrival at the server: message `index` (again, perhaps), which the CHECK on the times
   * may refuse at that moment, or anything of another attempt.
   */
  datatype Arrival<A> = Post(index: nat, onTime: bool) | Elsewhere(entry: LogEntry<A>)

  /** The table after some arrivals; a repeated or conflicting post leaves it alone. */
  function After<A>(messages: seq<LogEntry<A>>, attemptId: string, arrivals: seq<Arrival<A>>): seq<LogEntry<A>> {
    if |arrivals| == 0 then []
    else
      var before := After(messages, attemptId, Front(arrivals));
      match Last(arrivals)
      case Post(i, onTime) => if i < |messages| && onTime then AfterInsert(before, messages[i]) else before
      case Elsewhere(e) => if e.attemptId != attemptId then AfterInsert(before, e) else before
  }

  /** Message `i` has been posted at a moment at which it was on time. */
  ghost predicate Arrived<A>(arrivals: seq<Arrival<A>>, i: nat) {
    exists k :: 0 <= k < |arrivals| && arrivals[k] == Post(i, true)
  }

  /** The messages that have arrived, in the client's order. */
  ghost function Received<A>(messages: seq<LogEntry<A>>, arrivals: seq<Arrival<A>>): seq<LogEntry<A>> {
    if |messages| == 0 then []
    else if Arrived(arrivals, |messages| - 1) then Received(Front(messages), arrivals) + [Last(messages)]
    else Received(Front(messages), arrivals)
  }

  lemma {:induction false} LogHoldsTheArrived<A>(messages: seq<LogEntry<A>>, attemptId: string, tenantId: string,
                                                 arrivals: seq<Arrival<A>>)
    requires Numbered(messages, attemptId, tenantId)
    ensures UniqueEntries(After(messages, attemptId, arrivals))
    ensures forall e :: e in After(messages, attemptId, arrivals) && e.attemptId == attemptId ==>
      e.clientSequence < |messages| && e == messages[e.clientSequence] && Arrived(arrivals, e.clientSequence)
    ensures forall i :: 0 <= i < |messages| && Arrived(arrivals, i) ==> messages[i] in After(messages, attemptId, arrivals)
  {
    if |arrivals| > 0 {
      var front := Front(arrivals);
      LogHoldsTheArrived(messages, attemptId, tenantId, front);
      var before := After(messages, attemptId, front);
      var after := After(messages, attemptId, arrivals);
      forall i | 0 <= i < |messages| && Arrived(arrivals, i) ensures messages[i] in after {
        var k :| 0 <= k < |arrivals| && arrivals[k] == Post(i, true);
        if k < |front| {
          assert front[k] == Post(i, true);
          assert messages[i] in before;
        } else if !MayInsert(before, messages[i]) {
          var c :| 0 <= c < |before| && Violates(before[c], messages[i]);
          assert before[c] in before;
        }
      }
      forall e | e in after && e.attemptId == attemptId
        ensures e.clientSequence < |messages| && e == messages[e.clientSequence] && Arrived(arrivals, e.clientSequence)
      {
        if e in before {
          var k :| 0 <= k < |front| && front[k] == Post(e.clientSequence, true);
          assert arrivals[k] == Post(e.clientSequence, true);
        } else {
          assert Last(arrivals) == Post(e.clientSequence, true);
          assert arrivals[|arrivals| - 1] == Post(e.clientSequence, true);
        }
      }
    }
  }

  lemma {:induction false} ReceivedMembers<A>(messages: seq<LogEntry<A>>, attemptId: string, tenantId: string,
                                              arrivals: seq<Arrival<A>>)
    requires Numbered(messages, attemptId, tenantId)
    ensures var r := Received(messages, arrivals);
            && (forall e :: e in r <==>
                  e.clientSequence < |messages| && e == messages[e.clientSequence] && Arrived(arrivals, e.clientSequence))
            && (forall i :: 0 <= i < |r| ==> r[i].clientSequence < |messages|)
            && forall i, j :: 0 <= i < j < |r| ==> r[i].clientSequence < r[j].clientSequence
  {
    if |messages| > 0 {
      var front := Front(messages);
      ReceivedMembers(front, attemptId, tenantId, arrivals);
      var r := Received(messages, arrivals);
      var earlier := Received(front, arrivals);
      forall e ensures e in r <==>
        e.clientSequence < |messages| && e == messages[e.clientSequence] && Arrived(arrivals, e.clientSequence)
      {
        if e.clientSequence < |front| { assert messages[e.clientSequence] == front[e.clientSequence]; }
      }
    }
  }

  lemma FirstIsMember<T>(s: seq<T>)
    ensures |s| > 0 ==> s[0] in s
  {
  }

  /** Two strictly ordered logs with the same members are the same log. */
  lemma {:induction false} StrictOrderIsUnique<A>(s: seq<LogEntry<A>>, t: seq<LogEntry<A>>)
    requires forall i, j :: 0 <= i < j < |s| ==> s[i].clientSequence < s[j].clientSequence
    requires forall i, j :: 0 <= i < j < |t| ==> t[i].clientSequence < t[j].clientSequence
    requires forall e :: e in s <==> e in t
    ensures s == t
  {
    if |s| == 0 {
      FirstIsMember(t);
    } else {
      assert Last(s) in t && s[|s| - 1] == Last(s);
      assert |t| > 0;
      assert Last(t) in s && t[|t| - 1] == Last(t);
      assert Last(s) == Last(t);
      forall e ensures e in Front(s) <==> e in Front(t) {
        assert e in s <==> e in Front(s) || e == Last(s) by { assert s == Front(s) + [Last(s)]; }
        assert e in t <==> e in Front(t) || e == Last(t) by { assert t == Front(t) + [Last(t)]; }
        assert Last(s) !in Front(s) && Last(t) !in Front(t);
      }
      StrictOrderIsUnique(Front(s), Front(t));
      assert s == Front(s) + [Last(s)] && t == Front(t) + [Last(t)];
    }
  }

  /**
   * Whatever the order of arrival, the repetitions, and the traffic of other
   * attempts, the server reads exactly the messages that arrived, in the client's order.
   */
  lemma ServerReadsWhatArrived<A>(messages: seq<LogEntry<A>>, attemptId: string, tenantId: string,
                                  arrivals: seq<Arrival<A>>)
    requires Numbered(messages, attemptId, tenantId)
    ensures ReadLog(After(messages, attemptId, arrivals), attemptId, tenantId) == Received(messages, arrivals)
  {
    var entries := After(messages, attemptId, arrivals);
    LogHoldsTheArrived(messages, attemptId, tenantId, arrivals);
    OfAttemptMembers(entries, attemptId, tenantId);
    OfAttemptStaysUnique(entries, attemptId, tenantId);
    var own := OfAttempt(entries, attemptId, tenantId);
    ReadLogIsStrictlyOrdered(own);
    ReceivedMembers(messages, attemptId, tenantId, arrivals);
    forall e ensures e in SortBy(own, Sequence<A>()) <==> e in Received(messages, arrivals) {
      if e in Received(messages, arrivals) {
        assert messages[e.clientSequence] in entries;
      }
    }
    StrictOrderIsUnique(SortBy(own, Sequence<A>()), Received(messages, arrivals));
  }

  function ActionsOf<A>(entries: seq<LogEntry<A>>): seq<A> {
    seq(|entries|, i requires 0 <= i < |entries| => entries[i].action)
  }

  ghost predicate AllArrived<A>(messages: seq<LogEntry<A>>, arrivals: seq<Arrival<A>>) {
    forall i :: 0 <= i < |messages| ==> Arrived(arrivals, i)
  }

  lemma {:induction false} AllReceived<A>(messages: seq<LogEntry<A>>, arrivals: seq<Arrival<A>>)
    requires AllArrived(messages, arrivals)
    ensures Received(messages, arrivals) == messages
  {
    if |messages| > 0 {
      AllReceived(Front(messages), arrivals);
      assert Arrived(arrivals, |messages| - 1);
      assert messages == Front(messages) + [Last(messages)];
    }
  }

  /**
   * Client and server agree: when every accepted action has arrived, in whatever
   * order, the server's replay ends in the state the client shows, scores what the
   * client scores, and rejects none of the actions the client accepted.
   */
  lemma ServerReplaysTheClient<C, S, A>(e: Engine<C, S, A>, config: C, messages: seq<LogEntry<A>>,
                                        attemptId: string, tenantId: string, arrivals: seq<Arrival<A>>)
    requires Numbered(messages, attemptId, tenantId)
    requires AllArrived(messages, arrivals)
    ensures var logged := ActionsOf(ReadLog(After(messages, attemptId, arrivals), attemptId, tenantId));
            var shown := ActionsOf(messages);
            var s0 := e.initState(config);
            && logged == shown
            && Fold(e, config, s0, logged) == Fold(e, config, s0, shown)
            && e.evaluate(Fold(e, config, s0, logged), config) == e.evaluate(Fold(e, config, s0, shown), config)
            && (AllAccepted(e, config, s0, shown) ==> Accepted(e, config, s0, logged) == shown)
  {
    ServerReadsWhatArrived(messages, attemptId, tenantId, arrivals);
    AllReceived(messages, arrivals);
    if AllAccepted(e, config, e.initState(config), ActionsOf(messages)) {
      NothingToErase(e, config, e.initState(config), ActionsOf(messages));
    }
  }

  /**
   * What is on the client's screen is what the server computes: if the messages are the host's
   * actions and all have arrived, the server's replay ends in the host's state, and rejects
   * none of them provided the host was mounted with accepted actions.
   */
  lemma ServerReachesTheHost<C, S, A>(host: EngineHost<C, S, A>, messages: seq<LogEntry<A>>,
                                      attemptId: string, tenantId: string, arrivals: seq<Arrival<A>>)
    requires host.Valid() && ActionsOf(messages) == host.Actions()
    requires Numbered(messages, attemptId, tenantId) && AllArrived(messages, arrivals)
    ensures var logged := ActionsOf(ReadLog(After(messages, attemptId, arrivals), attemptId, tenantId));
            var s0 := host.engine.initState(host.config);
            && Fold(host.engine, host.config, s0, logged) == host.state
            && host.engine.evaluate(Fold(host.engine, host.config, s0, logged), host.config)
               == host.engine.evaluate(host.state, host.config)
            && (AllAccepted(host.engine, host.config, s0, host.initialActions) ==>
                  Accepted(host.engine, host.config, s0, logged) == logged)
  {
    ServerReplaysTheClient(host.engine, host.config, messages, attemptId, tenantId, arrivals);
  }

  lemma {:induction false} NothingToErase<C, S, A>(e: Engine<C, S, A>, config: C, s: S, actions: seq<A>)
    requires AllAccepted(e, config, s, actions)
    ensures Accepted(e, config, s, actions) == actions
  {
    if |actions| > 0 {
      var n := |actions| - 1;
      forall i | 0 <= i < n ensures AcceptedAt(e, config, s, Front(actions), i) {
        AcceptedAtPrefix(e, config, s, actions, n, i);
      }
      NothingToErase(e, config, s, Front(actions));
      assert AcceptedAt(e, config, s, actions, n);
    }
  }

  // ---------------------------------------------------------------- the final-sequence check

  /** The largest persisted client sequence, -1 for an empty log. */
  function MaxSequence<A>(entries: seq<LogEntry<A>>): (m: int)
    ensures m >= -1
    ensures forall i :: 0 <= i < |entries| ==> entries[i].clientSequence <= m
    ensures m >= 0 ==> exists i :: 0 <= i < |entries| && entries[i].clientSequence == m
  {
    if |entries| == 0 then -1
    else
      var earlier := MaxSequence(Front(entries));
      assert earlier >= 0 ==> exists i :: 0 <= i < |Front(entries)| && Front(entries)[i].clientSequence == earlier;
      assert forall i :: 0 <= i < |Front(entries)| ==> Front(entries)[i] == entries[i];
      assert entries[|entries| - 1] == Last(entries);
      Max(earlier, Last(entries).clientSequence)
  }

  /** No claim, or an entry at least as high as the claim. */
  predicate CheckFinalClientSequence<A>(finalClientSequence: Option<int>, entries: seq<LogEntry<A>>) {
    finalClientSequence.None? || finalClientSequence.value <= MaxSequence(entries)
  }

  /** No message overtakes a lost one: what arrived is a prefix of what was sent. */
  ghost predicate GapFree<A>(messages: seq<LogEntry<A>>, arrivals: seq<Arrival<A>>) {
    forall i, j :: 0 <= i < j < |messages| && Arrived(arrivals, j) ==> Arrived(arrivals, i)
  }

  lemma MaxReachesLastIffArrived<A>(messages: seq<LogEntry<A>>, attemptId: string, tenantId: string,
                                    arrivals: seq<Arrival<A>>)
    requires Numbered(messages, attemptId, tenantId) && |messages| > 0
    ensures |messages| - 1 <= MaxSequence(Received(messages, arrivals)) <==> Arrived(arrivals, |messages| - 1)
  {
    ReceivedMembers(messages, attemptId, tenantId, arrivals);
    var log := Received(messages, arrivals);
    var last := |messages| - 1;
    if Arrived(arrivals, last) {
      assert messages[last] in log;
      var i :| 0 <= i < |log| && log[i] == messages[last];
    } else {
      forall i | 0 <= i < |log| ensures log[i].clientSequence < last {
        assert log[i] in log;
      }
    }
  }

  lemma LastAndNoGap<A>(messages: seq<LogEntry<A>>, arrivals: seq<Arrival<A>>)
    requires |messages| > 0
    ensures AllArrived(messages, arrivals) <==> Arrived(arrivals, |messages| - 1) && GapFree(messages, arrivals)
  {
    var last := |messages| - 1;
    if Arrived(arrivals, last) && GapFree(messages, arrivals) {
      forall i | 0 <= i < |messages| ensures Arrived(arrivals, i) {
        assert i < last ==> Arrived(arrivals, i);
      }
    }
  }

  /**
   * A client that names its last sequence number passes the check exactly when that
   * last message has arrived; the log is complete exactly when, in addition, there
   * is no gap below it.
   */
  lemma GuardPassesIffLastArrived<A>(messages: seq<LogEntry<A>>, attemptId: string, tenantId: string,
                                     arrivals: seq<Arrival<A>>)
    requires Numbered(messages, attemptId, tenantId) && |messages| > 0
    ensures var log := ReadLog(After(messages, attemptId, arrivals), attemptId, tenantId);
            var passes := CheckFinalClientSequence(Some(|messages| - 1), log);
            && (passes <==> Arrived(arrivals, |messages| - 1))
            && (AllArrived(messages, arrivals) <==> passes && GapFree(messages, arrivals))
  {
    ServerReadsWhatArrived(messages, attemptId, tenantId, arrivals);
    MaxReachesLastIffArrived(messages, attemptId, tenantId, arrivals);
    LastAndNoGap(messages, arrivals);
  }

  lemma ClaimIsReachedIff<A>(read: seq<LogEntry<A>>, claim: Option<int>)
    ensures CheckFinalClientSequence(claim, read) <==>
      claim.None? || claim.value < 0 || exists entry :: entry in read && entry.clientSequence >= claim.value
  {
    var m := MaxSequence(read);
    if m >= 0 {
      var k :| 0 <= k < |read| && read[k].clientSequence == m;
      assert read[k] in read;
    }
  }

  /** Any claim passes exactly when it is no claim, negative, or reached by some message that arrived. */
  lemma GuardDecidesClaim<A>(messages: seq<LogEntry<A>>, attemptId: string, tenantId: string,
                             arrivals: seq<Arrival<A>>, claim: Option<int>)
    requires Numbered(messages, attemptId, tenantId)
    ensures CheckFinalClientSequence(claim, ReadLog(After(messages, attemptId, arrivals), attemptId, tenantId)) <==>
      claim.None? || claim.value < 0 || exists i :: claim.value <= i < |messages| && Arrived(arrivals, i)
  {
    ServerReadsWhatArrived(messages, attemptId, tenantId, arrivals);
    ReceivedMembers(messages, attemptId, tenantId, arrivals);
    var log := Received(messages, arrivals);
    ClaimIsReachedIff(log, claim);
    if claim.Some? && claim.value >= 0 {
      if i :| claim.value <= i < |messages| && Arrived(arrivals, i) {
        assert messages[i] in log && messages[i].clientSequence >= claim.value;
      }
      if e :| e in log && e.clientSequence >= claim.value {
        assert Arrived(arrivals, e.clientSequence);
      }
    }
  }

  /** What the check would have to count: the log is complete exactly when it has as many rows as were sent. */
  lemma CompleteIffCountMatches<A>(messages: seq<LogEntry<A>>, attemptId: string, tenantId: string,
                                   arrivals: seq<Arrival<A>>)
    requires Numbered(messages, attemptId, tenantId)
    ensures AllArrived(messages, arrivals) <==>
      |ReadLog(After(messages, attemptId, arrivals), attemptId, tenantId)| == |messages|
  {
    ServerReadsWhatArrived(messages, attemptId, tenantId, arrivals);
    LostMessageShortensLog(messages, arrivals);
    if AllArrived(messages, arrivals) {
      AllReceived(messages, arrivals);
    }
  }

  /**
   * With in-order delivery, a passing check means the server scores what the client
   * shows; so does it, in any order, whenever no gap is left.
   */
  lemma PassingGuardScoresTheClient<C, S, A>(e: Engine<C, S, A>, config: C, messages: seq<LogEntry<A>>,
                                             attemptId: string, tenantId: string, arrivals: seq<Arrival<A>>)
    requires Numbered(messages, attemptId, tenantId) && |messages| > 0
    requires GapFree(messages, arrivals)
    requires CheckFinalClientSequence(Some(|messages| - 1),
                                      ReadLog(After(messages, attemptId, arrivals), attemptId, tenantId))
    ensures var logged := ActionsOf(ReadLog(After(messages, attemptId, arrivals), attemptId, tenantId));
            var s0 := e.initState(config);
            && Fold(e, config, s0, logged) == Fold(e, config, s0, ActionsOf(messages))
            && e.evaluate(Fold(e, config, s0, logged), config) ==
                 e.evaluate(Fold(e, config, s0, ActionsOf(messages)), config)
  {
    GuardPassesIffLastArrived(messages, attemptId, tenantId, arrivals);
    ServerReplaysTheClient(e, config, messages, attemptId, tenantId, arrivals);
  }

  /** Messages posted one after the other, each after all earlier ones, leave no gap. */
  lemma InOrderDeliveryIsGapFree<A>(messages: seq<LogEntry<A>>, arrivals: seq<Arrival<A>>)
    requires forall k, i :: 0 <= k < |arrivals| && arrivals[k].Post? && 0 <= i < arrivals[k].index ==>
      Arrived(arrivals[..k], i)
    ensures GapFree(messages, arrivals)
  {
    forall i, j | 0 <= i < j < |messages| && Arrived(arrivals, j) ensures Arrived(arrivals, i) {
      var k :| 0 <= k < |arrivals| && arrivals[k] == Post(j, true);
      assert Arrived(arrivals[..k], i);
      var l :| 0 <= l < |arrivals[..k]| && arrivals[..k][l] == Post(i, true);
      assert arrivals[l] == Post(i, true);
    }
  }

  /** An engine that accepts everything, remembers it, and finds only `target` correct. */
  ghost function Recorder<A(!new)>(target: seq<A>): Engine<(), seq<A>, A> {
    Engine("ENG-RECORDER", "RECORDER", "1.0.0", (config: string) => Some(()), (config: ()) => [],
           (s: seq<A>, config: (), a: A) => ActionOutcome(true, s + [a], None),
           (s: seq<A>, config: ()) => if s == target then Evaluated(Correct, 1, "") else Evaluated(Incorrect, 0, ""))
  }

  lemma {:induction false} RecorderRemembers<A(!new)>(target: seq<A>, actions: seq<A>)
    ensures Fold(Recorder(target), (), [], actions) == actions
  {
    if |actions| > 0 {
      RecorderRemembers(target, Front(actions));
      assert actions == Front(actions) + [Last(actions)];
    }
  }

  lemma {:induction false} LostMessageShortensLog<A>(messages: seq<LogEntry<A>>, arrivals: seq<Arrival<A>>)
    ensures |Received(messages, arrivals)| <= |messages|
    ensures |Received(messages, arrivals)| == |messages| ==> AllArrived(messages, arrivals)
  {
    if |messages| > 0 {
      LostMessageShortensLog(Front(messages), arrivals);
    }
  }

  /**
   * Without the hypothesis the check is not enough: whenever a message is missing below the
   * last one, it passes, and there is an engine for which the client shows CORRECT and the
   * server scores INCORRECT.
   */
  lemma GapMisleadsSomeEngine<A(!new)>(messages: seq<LogEntry<A>>, attemptId: string, tenantId: string,
                                       arrivals: seq<Arrival<A>>)
    requires Numbered(messages, attemptId, tenantId) && |messages| > 0
    requires Arrived(arrivals, |messages| - 1) && !GapFree(messages, arrivals)
    ensures var log := ReadLog(After(messages, attemptId, arrivals), attemptId, tenantId);
            var e := Recorder(ActionsOf(messages));
            && CheckFinalClientSequence(Some(|messages| - 1), log)
            && e.evaluate(Fold(e, (), [], ActionsOf(messages)), ()) == Evaluated(Correct, 1, "")
            && e.evaluate(Fold(e, (), [], ActionsOf(log)), ()) == Evaluated(Incorrect, 0, "")
  {
    var log := ReadLog(After(messages, attemptId, arrivals), attemptId, tenantId);
    GuardPassesIffLastArrived(messages, attemptId, tenantId, arrivals);
    ServerReadsWhatArrived(messages, attemptId, tenantId, arrivals);
    LostMessageShortensLog(messages, arrivals);
    assert |ActionsOf(log)| < |ActionsOf(messages)|;
    RecorderRemembers(ActionsOf(messages), ActionsOf(messages));
    RecorderRemembers(ActionsOf(messages), ActionsOf(log));
  }

  /** It takes no more than two messages of which only the last arrives. */
  lemma LastAloneLeavesGap<A>(messages: seq<LogEntry<A>>)
    requires |messages| >= 2
    ensures var arrivals: seq<Arrival<A>> := [Post(|messages| - 1, true)];
            Arrived(arrivals, |messages| - 1) && !GapFree(messages, arrivals)
  {
    var arrivals: seq<Arrival<A>> := [Post(|messages| - 1, true)];
    assert arrivals[0] == Post(|messages| - 1, true);
    assert !Arrived(arrivals, 0);
  }
}
