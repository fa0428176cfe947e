/**
 * Any number of store instances bound to one attempt, each loading, working on and
 * saving its own copy, in any interleaving: together they behave like one
 * orchestrator that runs alone.
 */
module SequenceStateRuns {
  import opened Prelude
  import opened StageOrchestrator
  import opened StageRuns
  import opened StageProgress
  import opened SequenceStateStore

  /** One request: its store's remembered version, its copy of the state, and what it did to that copy. */
  datatype Client = Client(known: Option<nat>, copy: Option<SequenceState>, pending: seq<Op>)

  /** History kept by the model, read by no step: what each successful save wrote. */
  datatype Commit = Commit(client: nat, ops: seq<Op>, state: SequenceState)

  datatype System = System(rows: Table, clients: seq<Client>, commits: seq<Commit>)

  datatype Event =
    | Load(client: nat, runtimeStateId: string)
    | Initialize(client: nat, runtimeStateId: string)
    | Work(client: nat, op: Op)
    | Save(client: nat)
    | Elsewhere(others: Table)

  predicate Enabled(sys: System, e: Event) {
    !e.Elsewhere? ==> e.client < |sys.clients|
  }

  function Worked(d: SequenceDefinition, client: Client, op: Op): Client
    requires client.copy.Some?
  {
    client.(copy := Some(Apply(d, client.copy.value, op)), pending := client.pending + [op])
  }

  function Step(d: SequenceDefinition, b: Binding, sys: System, e: Event): System
    requires WellFormed(d)
  {
    if !Enabled(sys, e) then sys
    else match e
      case Load(c, runtimeStateId) =>
        var client := sys.clients[c];
        var effect := StoreGet(sys.rows, b, client.known, runtimeStateId);
        if effect.outcome.Found? then
          sys.(clients := sys.clients[c := Client(effect.known, Some(effect.outcome.state), [])])
        else sys.(clients := sys.clients[c := client.(known := effect.known)])
      case Initialize(c, runtimeStateId) =>
        // The hosts initialise only when `get` has found nothing.
        if sys.clients[c].known.Some? then sys
        else sys.(clients := sys.clients[c := Client(None, Some(Start(d, runtimeStateId)), [])])
      case Work(c, op) =>
        var client := sys.clients[c];
        if client.copy.None? then sys
        else sys.(clients := sys.clients[c := Worked(d, client, op)])
      case Save(c) =>
        var client := sys.clients[c];
        if client.copy.None? then sys
        else
          var effect := StoreSave(sys.rows, b, client.known, client.copy.value);
          if effect.outcome.Saved? then
            System(effect.rows,
                   sys.clients[c := Client(effect.known, client.copy, [])],
                   sys.commits + [Commit(c, client.pending, client.copy.value)])
          else sys.(rows := effect.rows, clients := sys.clients[c := client.(known := effect.known)])
      case Elsewhere(others) =>
        sys.(rows := (others - {b.key}) + (map k | k in sys.rows && k == b.key :: sys.rows[k]))
  }

  function InitialSystem(clients: nat): System {
    System(map[], seq(clients, i => Client(None, None, [])), [])
  }

  function After(d: SequenceDefinition, b: Binding, clients: nat, events: seq<Event>): System
    requires WellFormed(d)
  {
    if |events| == 0 then InitialSystem(clients)
    else Step(d, b, After(d, b, clients, Front(events)), Last(events))
  }

  // ---------------------------------------------------------------- the invariant

  /** Each committed state is the previous committed one after the committing client's operations. */
  ghost predicate Chain(d: SequenceDefinition, commits: seq<Commit>)
    requires WellFormed(d)
  {
    && (|commits| > 0 ==>
          commits[0].state == RunFrom(d, Start(d, commits[0].state.runtimeStateId), commits[0].ops))
    && forall i :: 0 < i < |commits| ==> commits[i].state == RunFrom(d, commits[i - 1].state, commits[i].ops)
  }

  /** The row is the last commit, its version counts the commits, and its columns repeat its state. */
  predicate RowShows(b: Binding, r: Row, commits: seq<Commit>) {
    && |commits| > 0
    && r.state == Last(commits).state
    && r.version == INITIAL_VERSION + |commits| - 1
    && r.studentProfileId == b.studentProfileId
    && r.enrollmentId == b.enrollmentId
    && r.sequenceId == r.state.sequenceId
    && r.sequenceVersion == r.state.sequenceVersion
    && r.runtimeStateId == r.state.runtimeStateId
    && r.currentStageId == r.state.currentStageId
    && r.completion == r.state.completion
  }

  /** A client's copy is the commit of its remembered version plus its own pending operations. */
  ghost predicate ClientFits(d: SequenceDefinition, c: Client, commits: seq<Commit>)
    requires WellFormed(d)
  {
    match c.known
    case None =>
      c.copy.Some? ==> c.copy.value == RunFrom(d, Start(d, c.copy.value.runtimeStateId), c.pending)
    case Some(v) =>
      && INITIAL_VERSION <= v < INITIAL_VERSION + |commits|
      && c.copy.Some?
      && c.copy.value == RunFrom(d, commits[v - INITIAL_VERSION].state, c.pending)
  }

  ghost predicate Good(d: SequenceDefinition, b: Binding, sys: System)
    requires WellFormed(d)
  {
    && Chain(d, sys.commits)
    && (b.key in sys.rows <==> |sys.commits| > 0)
    && (b.key in sys.rows ==> RowShows(b, sys.rows[b.key], sys.commits))
    && forall c :: 0 <= c < |sys.clients| ==> ClientFits(d, sys.clients[c], sys.commits)
  }

  lemma {:induction false} ChainIsReachable(d: SequenceDefinition, commits: seq<Commit>, i: nat)
    requires WellFormed(d) && Chain(d, commits) && i < |commits|
    ensures Consistent(d, commits[i].state)
    ensures commits[i].state.runtimeStateId == commits[0].state.runtimeStateId
    ensures commits[i].state.sequenceId == d.sequenceId && commits[i].state.sequenceVersion == d.sequenceVersion
    ensures i > 0 ==> Evolves(commits[i - 1].state, commits[i].state)
  {
    if i == 0 {
      StartIsConsistent(d, commits[0].state.runtimeStateId);
      RunKeeps(d, Start(d, commits[0].state.runtimeStateId), commits[0].ops);
    } else {
      ChainIsReachable(d, commits, i - 1);
      RunKeeps(d, commits[i - 1].state, commits[i].ops);
    }
  }

  lemma PendingExtends(d: SequenceDefinition, base: SequenceState, pending: seq<Op>, op: Op)
    ensures RunFrom(d, base, pending + [op]) == Apply(d, RunFrom(d, base, pending), op)
  {
    assert Front(pending + [op]) == pending;
  }

  /** A client's copy is itself a state the orchestrator can reach, with the identities it started from. */
  lemma CopyIsReachable(d: SequenceDefinition, c: Client, commits: seq<Commit>)
    requires WellFormed(d) && Chain(d, commits) && ClientFits(d, c, commits) && c.copy.Some?
    ensures Consistent(d, c.copy.value)
    ensures c.known.Some? ==> c.copy.value.runtimeStateId == commits[0].state.runtimeStateId
  {
    if c.known.Some? {
      var v := c.known.value - INITIAL_VERSION;
      ChainIsReachable(d, commits, v);
      RunKeeps(d, commits[v].state, c.pending);
    } else {
      RunKeeps(d, Start(d, c.copy.value.runtimeStateId), c.pending);
    }
  }

  lemma CommitExtendsChain(d: SequenceDefinition, clients: seq<Client>, commits: seq<Commit>, c: nat)
    requires WellFormed(d) && Chain(d, commits) && c < |clients| && clients[c].copy.Some?
    requires forall i :: 0 <= i < |clients| ==> ClientFits(d, clients[i], commits)
    requires clients[c].known == if |commits| == 0 then None else Some(INITIAL_VERSION + |commits| - 1)
    ensures var client := clients[c];
            var more := commits + [Commit(c, client.pending, client.copy.value)];
            var saved := clients[c := Client(Some(INITIAL_VERSION + |commits|), client.copy, [])];
            && Chain(d, more)
            && forall i :: 0 <= i < |saved| ==> ClientFits(d, saved[i], more)
  {
    var client := clients[c];
    var more := commits + [Commit(c, client.pending, client.copy.value)];
    var saved := clients[c := Client(Some(INITIAL_VERSION + |commits|), client.copy, [])];
    assert ClientFits(d, client, commits);
    forall i | 0 <= i < |saved| ensures ClientFits(d, saved[i], more) {
      if i != c { assert ClientFits(d, clients[i], commits); }
    }
  }

  /** Replacing one client by one that fits keeps the invariant. */
  lemma ClientKeepsGood(d: SequenceDefinition, b: Binding, sys: System, c: nat, client: Client)
    requires WellFormed(d) && Good(d, b, sys) && c < |sys.clients|
    requires ClientFits(d, client, sys.commits)
    ensures Good(d, b, sys.(clients := sys.clients[c := client]))
  {
    var next := sys.clients[c := client];
    forall i | 0 <= i < |next| ensures ClientFits(d, next[i], sys.commits) {
      assert i != c ==> ClientFits(d, sys.clients[i], sys.commits);
    }
  }

  /** A save that succeeds comes from a client that knows the current version, if there is one. */
  lemma SavingClientIsCurrent(d: SequenceDefinition, b: Binding, sys: System, c: nat)
    requires WellFormed(d) && Good(d, b, sys) && c < |sys.clients| && sys.clients[c].copy.Some?
    requires StoreSave(sys.rows, b, sys.clients[c].known, sys.clients[c].copy.value).outcome.Saved?
    ensures sys.clients[c].known == if |sys.commits| == 0 then None else Some(INITIAL_VERSION + |sys.commits| - 1)
  {
    assert ClientFits(d, sys.clients[c], sys.commits);
  }

  /** The row that a successful save leaves shows the new commit. */
  lemma SavedRowShows(d: SequenceDefinition, b: Binding, sys: System, c: nat)
    requires WellFormed(d) && Good(d, b, sys) && c < |sys.clients| && sys.clients[c].copy.Some?
    requires StoreSave(sys.rows, b, sys.clients[c].known, sys.clients[c].copy.value).outcome.Saved?
    ensures var client := sys.clients[c];
            var effect := StoreSave(sys.rows, b, client.known, client.copy.value);
            && effect.known == Some(INITIAL_VERSION + |sys.commits|)
            && b.key in effect.rows
            && RowShows(b, effect.rows[b.key], sys.commits + [Commit(c, client.pending, client.copy.value)])
  {
    var client := sys.clients[c];
    SavingClientIsCurrent(d, b, sys, c);
    assert ClientFits(d, client, sys.commits);
    CopyIsReachable(d, client, sys.commits);
    if |sys.commits| > 0 {
      ChainIsReachable(d, sys.commits, |sys.commits| - 1);
    }
  }

  /** A refused save changes nothing. */
  lemma RefusedSaveIsIdle(d: SequenceDefinition, b: Binding, sys: System, c: nat)
    requires WellFormed(d) && c < |sys.clients| && sys.clients[c].copy.Some?
    requires !StoreSave(sys.rows, b, sys.clients[c].known, sys.clients[c].copy.value).outcome.Saved?
    ensures Step(d, b, sys, Save(c)) == sys
  {
    var client := sys.clients[c];
    assert sys.clients[c := client.(known := client.known)] == sys.clients;
  }

  lemma SavedKeepsGood(d: SequenceDefinition, b: Binding, sys: System, c: nat)
    requires WellFormed(d) && Good(d, b, sys) && c < |sys.clients| && sys.clients[c].copy.Some?
    requires StoreSave(sys.rows, b, sys.clients[c].known, sys.clients[c].copy.value).outcome.Saved?
    ensures Good(d, b, Step(d, b, sys, Save(c)))
  {
    SavingClientIsCurrent(d, b, sys, c);
    SavedRowShows(d, b, sys, c);
    CommitExtendsChain(d, sys.clients, sys.commits, c);
  }

  lemma SaveKeepsGood(d: SequenceDefinition, b: Binding, sys: System, c: nat)
    requires WellFormed(d) && Good(d, b, sys) && c < |sys.clients|
    ensures Good(d, b, Step(d, b, sys, Save(c)))
  {
    var client := sys.clients[c];
    if client.copy.Some? {
      if StoreSave(sys.rows, b, client.known, client.copy.value).outcome.Saved? {
        SavedKeepsGood(d, b, sys, c);
      } else {
        RefusedSaveIsIdle(d, b, sys, c);
      }
    }
  }

  lemma LoadKeepsGood(d: SequenceDefinition, b: Binding, sys: System, c: nat, runtimeStateId: string)
    requires WellFormed(d) && Good(d, b, sys) && c < |sys.clients|
    ensures Good(d, b, Step(d, b, sys, Load(c, runtimeStateId)))
  {
    var next := Step(d, b, sys, Load(c, runtimeStateId));
    assert next.rows == sys.rows && next.commits == sys.commits;
    assert ClientFits(d, sys.clients[c], sys.commits);
    assert ClientFits(d, next.clients[c], sys.commits);
    forall i | 0 <= i < |next.clients| ensures ClientFits(d, next.clients[i], next.commits) {
      assert i != c ==> ClientFits(d, sys.clients[i], sys.commits);
    }
  }

  lemma InitializeKeepsGood(d: SequenceDefinition, b: Binding, sys: System, c: nat, runtimeStateId: string)
    requires WellFormed(d) && Good(d, b, sys) && c < |sys.clients|
    ensures Good(d, b, Step(d, b, sys, Initialize(c, runtimeStateId)))
  {
  }

  lemma ElsewhereKeepsGood(d: SequenceDefinition, b: Binding, sys: System, others: Table)
    requires WellFormed(d) && Good(d, b, sys)
    ensures Good(d, b, Step(d, b, sys, Elsewhere(others)))
  {
  }

  lemma StepKeepsGood(d: SequenceDefinition, b: Binding, sys: System, e: Event)
    requires WellFormed(d) && Good(d, b, sys)
    ensures Good(d, b, Step(d, b, sys, e))
  {
    if Enabled(sys, e) {
      match e {
        case Load(c, runtimeStateId) => LoadKeepsGood(d, b, sys, c, runtimeStateId);
        case Initialize(c, runtimeStateId) => InitializeKeepsGood(d, b, sys, c, runtimeStateId);
        case Work(c, op) => WorkKeepsGood(d, b, sys, c, op);
        case Save(c) => SaveKeepsGood(d, b, sys, c);
        case Elsewhere(others) => ElsewhereKeepsGood(d, b, sys, others);
      }
    }
  }

  lemma WorkedKeepsGood(d: SequenceDefinition, b: Binding, sys: System, c: nat, op: Op)
    requires WellFormed(d) && Good(d, b, sys) && c < |sys.clients| && sys.clients[c].copy.Some?
    ensures Good(d, b, sys.(clients := sys.clients[c := Worked(d, sys.clients[c], op)]))
  {
    var client := sys.clients[c];
    assert ClientFits(d, client, sys.commits);
    WorkExtendsPending(d, client, sys.commits, op);
    ClientKeepsGood(d, b, sys, c, Worked(d, client, op));
  }

  lemma WorkKeepsGood(d: SequenceDefinition, b: Binding, sys: System, c: nat, op: Op)
    requires WellFormed(d) && Good(d, b, sys) && c < |sys.clients|
    ensures Good(d, b, Step(d, b, sys, Work(c, op)))
  {
    if sys.clients[c].copy.Some? {
      WorkedKeepsGood(d, b, sys, c, op);
    }
  }

  lemma WorkExtendsPending(d: SequenceDefinition, client: Client, commits: seq<Commit>, op: Op)
    requires WellFormed(d) && ClientFits(d, client, commits) && client.copy.Some?
    ensures ClientFits(d, Worked(d, client, op), commits)
  {
    if client.known.None? {
      WorkExtendsStart(d, client.copy.value, client.pending, op);
    } else {
      PendingExtends(d, commits[client.known.value - INITIAL_VERSION].state, client.pending, op);
    }
  }

  lemma WorkExtendsStart(d: SequenceDefinition, copy: SequenceState, pending: seq<Op>, op: Op)
    requires WellFormed(d) && copy == RunFrom(d, Start(d, copy.runtimeStateId), pending)
    ensures var next := Apply(d, copy, op);
            next == RunFrom(d, Start(d, next.runtimeStateId), pending + [op])
  {
    var start := Start(d, copy.runtimeStateId);
    PendingExtends(d, start, pending, op);
    RunKeepsIdentity(d, start, pending + [op]);
  }

  lemma RunKeepsIdentity(d: SequenceDefinition, s: SequenceState, ops: seq<Op>)
    requires WellFormed(d) && Consistent(d, s)
    ensures RunFrom(d, s, ops).runtimeStateId == s.runtimeStateId
  {
    RunKeeps(d, s, ops);
  }

  /** The invariant holds in every interleaving. */
  lemma {:induction false} EveryRunIsGood(d: SequenceDefinition, b: Binding, clients: nat, events: seq<Event>)
    requires WellFormed(d)
    ensures Good(d, b, After(d, b, clients, events))
  {
    if |events| > 0 {
      EveryRunIsGood(d, b, clients, Front(events));
      StepKeepsGood(d, b, After(d, b, clients, Front(events)), Last(events));
    }
  }

  // ---------------------------------------------------------------- what callers can rely on

  /** All operations of all commits, in commit order. */
  function AllOps(commits: seq<Commit>): seq<Op> {
    if |commits| == 0 then [] else AllOps(Front(commits)) + Last(commits).ops
  }

  lemma {:induction false} ChainIsOneRun(d: SequenceDefinition, commits: seq<Commit>)
    requires WellFormed(d) && Chain(d, commits) && |commits| > 0
    ensures Last(commits).state == RunFrom(d, Start(d, commits[0].state.runtimeStateId), AllOps(commits))
  {
    if |commits| == 1 {
      assert AllOps(Front(commits)) == [];
      assert AllOps(commits) == commits[0].ops;
    } else {
      ChainIsOneRun(d, Front(commits));
      RunFromConcat(d, Start(d, commits[0].state.runtimeStateId), AllOps(Front(commits)), Last(commits).ops);
    }
  }

  /**
   * Concurrent persistence refines one sequential run: whatever the interleaving, the
   * stored state is what one orchestrator reaches that starts once and performs the
   * operations of all successful saves in commit order; the version counts those
   * saves; the stored columns agree with it; and it satisfies the orchestrator's
   * invariants.
   */
  lemma PersistenceRefinesOneRun(d: SequenceDefinition, b: Binding, clients: nat, events: seq<Event>)
    requires WellFormed(d)
    requires b.key in After(d, b, clients, events).rows
    ensures var sys := After(d, b, clients, events);
            var row := sys.rows[b.key];
            && row.state == RunFrom(d, Start(d, row.runtimeStateId), AllOps(sys.commits))
            && row.version == INITIAL_VERSION + |sys.commits| - 1
            && RowShows(b, row, sys.commits)
            && Consistent(d, row.state)
  {
    EveryRunIsGood(d, b, clients, events);
    var commits := After(d, b, clients, events).commits;
    ChainIsOneRun(d, commits);
    ChainIsReachable(d, commits, |commits| - 1);
  }

  /**
   * No update is lost: each committed state is exactly the one before it after the
   * committing client's own operations, and nothing recorded in it disappears.
   */
  lemma CommitsFormOneChain(d: SequenceDefinition, b: Binding, clients: nat, events: seq<Event>, i: nat)
    requires WellFormed(d)
    requires 0 < i < |After(d, b, clients, events).commits|
    ensures var commits := After(d, b, clients, events).commits;
            && commits[i].state == RunFrom(d, commits[i - 1].state, commits[i].ops)
            && Evolves(commits[i - 1].state, commits[i].state)
            && Consistent(d, commits[i].state)
  {
    EveryRunIsGood(d, b, clients, events);
    ChainIsReachable(d, After(d, b, clients, events).commits, i);
  }

  /**
   * A save commits exactly when the client still has the current version (or nothing
   * is stored and its runtime id is free); otherwise it leaves the whole system as it was.
   */
  lemma SaveCommitsIffCurrent(d: SequenceDefinition, b: Binding, clients: nat, events: seq<Event>, c: nat)
    requires WellFormed(d)
    requires c < |After(d, b, clients, events).clients|
    requires After(d, b, clients, events).clients[c].copy.Some?
    ensures var sys := After(d, b, clients, events);
            var client := sys.clients[c];
            var next := Step(d, b, sys, Save(c));
            var current := if client.known.None? then MayCreate(sys.rows, b.key, client.copy.value.runtimeStateId)
                           else client.known.value == INITIAL_VERSION + |sys.commits| - 1;
            && (current ==> next.commits == sys.commits + [Commit(c, client.pending, client.copy.value)])
            && (current ==> b.key in next.rows && next.rows[b.key].state == client.copy.value)
            && (!current ==> next == sys)
  {
    EveryRunIsGood(d, b, clients, events);
    var sys := After(d, b, clients, events);
    assert ClientFits(d, sys.clients[c], sys.commits);
    assert sys.clients[c := sys.clients[c]] == sys.clients;
  }

  lemma {:induction false} CommitsOnlyGrow(d: SequenceDefinition, b: Binding, clients: nat, events: seq<Event>, more: seq<Event>)
    requires WellFormed(d)
    ensures After(d, b, clients, events).commits <= After(d, b, clients, events + more).commits
  {
    if |more| == 0 {
      assert events + more == events;
    } else {
      CommitsOnlyGrow(d, b, clients, events, Front(more));
      assert Front(events + more) == events + Front(more);
    }
  }

  /** A client whose remembered version is behind the stored one. */
  ghost predicate IsStale(sys: System, c: nat) {
    c < |sys.clients| && sys.clients[c].known.Some? && sys.clients[c].known.value < INITIAL_VERSION + |sys.commits| - 1
  }

  lemma StaleStep(d: SequenceDefinition, b: Binding, sys: System, e: Event, c: nat)
    requires WellFormed(d) && Good(d, b, sys) && IsStale(sys, c)
    requires !(e.Load? && e.client == c)
    ensures var next := Step(d, b, sys, e);
            && IsStale(next, c)
            && next.clients[c].known == sys.clients[c].known
            && (next.commits == sys.commits
                || (|next.commits| == |sys.commits| + 1 && Front(next.commits) == sys.commits
                    && Last(next.commits).client != c))
  {
  }

  /**
   * Once someone else has committed after a client's load, the client's own saves
   * fail until it loads again, whatever it and the others do.
   */
  lemma {:induction false} StaleUntilReload(d: SequenceDefinition, b: Binding, clients: nat, events: seq<Event>,
                                            more: seq<Event>, c: nat)
    requires WellFormed(d)
    requires IsStale(After(d, b, clients, events), c)
    requires forall e :: e in more ==> !(e.Load? && e.client == c)
    ensures var sys := After(d, b, clients, events);
            var later := After(d, b, clients, events + more);
            && IsStale(later, c)
            && later.clients[c].known == sys.clients[c].known
            && forall i :: |sys.commits| <= i < |later.commits| ==> later.commits[i].client != c
  {
    if |more| == 0 {
      assert events + more == events;
    } else {
      StaleUntilReload(d, b, clients, events, Front(more), c);
      assert Front(events + more) == events + Front(more);
      EveryRunIsGood(d, b, clients, events + Front(more));
      assert Last(more) in more;
      StaleStep(d, b, After(d, b, clients, events + Front(more)), Last(more), c);
    }
  }

  // ---------------------------------------------------------------- loading

  /** The client as it is after a load that finds the last commit. */
  function Reloaded(commits: seq<Commit>): Client
    requires |commits| > 0
  {
    Client(Some(INITIAL_VERSION + |commits| - 1), Some(Last(commits).state), [])
  }

  /**
   * A load that asks for the runtime id of the stored state gives the client exactly the last
   * committed state and its version, with nothing pending; with nothing stored, or any other id,
   * it leaves the whole system as it was.
   */
  lemma LoadFindsTheLastCommit(d: SequenceDefinition, b: Binding, clients: nat, events: seq<Event>, c: nat, id: string)
    requires WellFormed(d)
    requires c < |After(d, b, clients, events).clients|
    ensures var sys := After(d, b, clients, events);
            Step(d, b, sys, Load(c, id)) ==
              if |sys.commits| > 0 && Last(sys.commits).state.runtimeStateId == id
              then sys.(clients := sys.clients[c := Reloaded(sys.commits)]) else sys
  {
    EveryRunIsGood(d, b, clients, events);
    var sys := After(d, b, clients, events);
    assert sys.clients[c := sys.clients[c]] == sys.clients;
  }

  /** And it says which: nothing yet, another runtime state, or what it found. */
  lemma LoadSaysWhatItFinds(d: SequenceDefinition, b: Binding, clients: nat, events: seq<Event>, known: Option<nat>, id: string)
    requires WellFormed(d)
    ensures var sys := After(d, b, clients, events);
            StoreGet(sys.rows, b, known, id).outcome ==
              if |sys.commits| == 0 then NotYet
              else if Last(sys.commits).state.runtimeStateId == id then Found(Last(sys.commits).state)
              else OtherRuntimeState
  {
    EveryRunIsGood(d, b, clients, events);
  }

  /** A refused save says why: a row exists although this store has loaded none, or the version has moved on. */
  lemma RefusedSaveSaysWhy(d: SequenceDefinition, b: Binding, clients: nat, events: seq<Event>, c: nat)
    requires WellFormed(d)
    requires c < |After(d, b, clients, events).clients| && After(d, b, clients, events).clients[c].copy.Some?
    ensures var sys := After(d, b, clients, events);
            var client := sys.clients[c];
            var effect := StoreSave(sys.rows, b, client.known, client.copy.value);
            && (effect.outcome == AlreadyExists <==>
                  client.known == None && !MayCreate(sys.rows, b.key, client.copy.value.runtimeStateId))
            && (effect.outcome == VersionConflict <==>
                  client.known.Some? && client.known.value < INITIAL_VERSION + |sys.commits| - 1)
            && (effect.outcome == AlreadyExists || effect.outcome == VersionConflict || effect.outcome == Saved)
  {
    EveryRunIsGood(d, b, clients, events);
    var sys := After(d, b, clients, events);
    assert ClientFits(d, sys.clients[c], sys.commits);
  }

  /** What client `c` does to its copy. */
  function WorkOf(events: seq<Event>, c: nat): seq<Op> {
    if |events| == 0 then []
    else match Last(events)
      case Work(client, op) => if client == c then WorkOf(Front(events), c) + [op] else WorkOf(Front(events), c)
      case _ => WorkOf(Front(events), c)
  }

  /** The client's copy is the last commit plus its work, and it still has the current version. */
  ghost predicate IsCurrent(d: SequenceDefinition, sys: System, c: nat, work: seq<Op>) {
    && c < |sys.clients| && |sys.commits| > 0
    && sys.clients[c] == Client(Some(INITIAL_VERSION + |sys.commits| - 1),
                                Some(RunFrom(d, Last(sys.commits).state, work)), work)
  }

  lemma OthersLeaveClient(d: SequenceDefinition, b: Binding, sys: System, e: Event, c: nat)
    requires WellFormed(d) && c < |sys.clients|
    requires e.Elsewhere? || e.client != c
    ensures c < |Step(d, b, sys, e).clients| && Step(d, b, sys, e).clients[c] == sys.clients[c]
  {
  }

  lemma CurrentSaveCommits(d: SequenceDefinition, b: Binding, sys: System, c: nat, work: seq<Op>)
    requires WellFormed(d) && Good(d, b, sys) && IsCurrent(d, sys, c, work)
    ensures |Step(d, b, sys, Save(c)).commits| == |sys.commits| + 1
  {
  }

  lemma CurrentWork(d: SequenceDefinition, b: Binding, sys: System, c: nat, work: seq<Op>, op: Op)
    requires WellFormed(d) && IsCurrent(d, sys, c, work)
    requires Step(d, b, sys, Work(c, op)).commits == sys.commits
    ensures IsCurrent(d, Step(d, b, sys, Work(c, op)), c, work + [op])
  {
    PendingExtends(d, Last(sys.commits).state, work, op);
    assert Step(d, b, sys, Work(c, op)) == sys.(clients := sys.clients[c := Worked(d, sys.clients[c], op)]);
  }

  lemma CurrentStays(d: SequenceDefinition, sys: System, next: System, c: nat, work: seq<Op>)
    requires IsCurrent(d, sys, c, work) && next.commits == sys.commits
    requires c < |next.clients| && next.clients[c] == sys.clients[c]
    ensures IsCurrent(d, next, c, work)
  {
  }

  lemma CurrentStep(d: SequenceDefinition, b: Binding, sys: System, e: Event, c: nat, work: seq<Op>)
    requires WellFormed(d) && Good(d, b, sys) && IsCurrent(d, sys, c, work)
    requires Step(d, b, sys, e).commits == sys.commits
    requires !(e.Load? && e.client == c)
    ensures IsCurrent(d, Step(d, b, sys, e), c, work + if e.Work? && e.client == c then [e.op] else [])
  {
    assert work + [] == work;
    if e.Elsewhere? || e.client != c {
      OthersLeaveClient(d, b, sys, e, c);
      CurrentStays(d, sys, Step(d, b, sys, e), c, work);
    } else if e.Work? {
      CurrentWork(d, b, sys, c, work, e.op);
    } else if e.Save? {
      CurrentSaveCommits(d, b, sys, c, work);
    } else {
      assert Step(d, b, sys, e) == sys;
    }
  }

  /** The run `more` from any system on. */
  function Onward(d: SequenceDefinition, b: Binding, sys: System, more: seq<Event>): System
    requires WellFormed(d)
  {
    if |more| == 0 then sys else Step(d, b, Onward(d, b, sys, Front(more)), Last(more))
  }

  lemma {:induction false} AfterIsOnward(
    d: SequenceDefinition, b: Binding, clients: nat, events: seq<Event>, more: seq<Event>)
    requires WellFormed(d)
    ensures After(d, b, clients, events + more) == Onward(d, b, After(d, b, clients, events), more)
  {
    if |more| == 0 {
      assert events + more == events;
    } else {
      AfterIsOnward(d, b, clients, events, Front(more));
      assert Front(events + more) == events + Front(more);
    }
  }

  lemma {:induction false} OnwardGrows(d: SequenceDefinition, b: Binding, sys: System, more: seq<Event>)
    requires WellFormed(d)
    ensures sys.commits <= Onward(d, b, sys, more).commits
  {
    if |more| > 0 { OnwardGrows(d, b, sys, Front(more)); }
  }

  predicate NeverReloads(events: seq<Event>, c: nat) {
    forall i :: 0 <= i < |events| ==> !(events[i].Load? && events[i].client == c)
  }

  lemma WorkOfNext(more: seq<Event>, c: nat)
    requires |more| > 0
    ensures WorkOf(more, c) ==
            WorkOf(Front(more), c) + if Last(more).Work? && Last(more).client == c then [Last(more).op] else []
  {
    assert WorkOf(Front(more), c) + [] == WorkOf(Front(more), c);
  }

  /** If nothing has been committed at the end, nothing had been one step earlier. */
  lemma NoCommitBefore(d: SequenceDefinition, b: Binding, sys: System, more: seq<Event>)
    requires WellFormed(d) && |more| > 0
    requires Onward(d, b, sys, more).commits == sys.commits
    ensures Onward(d, b, sys, Front(more)).commits == sys.commits
  {
    OnwardGrows(d, b, sys, Front(more));
    OneStepGrows(d, b, Onward(d, b, sys, Front(more)), Last(more));
  }

  /** As long as nobody commits and it does not load again, a client's copy is the loaded state plus its work. */
  lemma {:induction false} LoadedClientWorks(d: SequenceDefinition, b: Binding, sys: System, c: nat, more: seq<Event>)
    requires WellFormed(d) && Good(d, b, sys) && IsCurrent(d, sys, c, [])
    requires NeverReloads(more, c)
    requires Onward(d, b, sys, more).commits == sys.commits
    ensures Good(d, b, Onward(d, b, sys, more))
    ensures IsCurrent(d, Onward(d, b, sys, more), c, WorkOf(more, c))
  {
    if |more| > 0 {
      var before := Onward(d, b, sys, Front(more));
      NoCommitBefore(d, b, sys, more);
      LoadedClientWorks(d, b, sys, c, Front(more));
      WorkOfNext(more, c);
      assert !(Last(more).Load? && Last(more).client == c) by { assert Last(more) == more[|more| - 1]; }
      CurrentStep(d, b, before, Last(more), c, WorkOf(Front(more), c));
      StepKeepsGood(d, b, before, Last(more));
    }
  }

  lemma OneStepGrows(d: SequenceDefinition, b: Binding, sys: System, e: Event)
    requires WellFormed(d)
    ensures sys.commits <= Step(d, b, sys, e).commits
  {
  }

  /**
   * Load, work and save always commits, if nobody else has committed in between; what is committed
   * is the state that was loaded after exactly that work.
   */
  lemma LoadWorkSaveCommits(
    d: SequenceDefinition, b: Binding, clients: nat, events: seq<Event>, c: nat, id: string, more: seq<Event>)
    requires WellFormed(d)
    requires var sys := After(d, b, clients, events);
             c < |sys.clients| && |sys.commits| > 0 && Last(sys.commits).state.runtimeStateId == id
    requires NeverReloads(more, c)
    requires After(d, b, clients, events + [Load(c, id)] + more).commits == After(d, b, clients, events).commits
    ensures var commits := After(d, b, clients, events).commits;
            var work := WorkOf(more, c);
            var next := After(d, b, clients, events + [Load(c, id)] + more + [Save(c)]);
            && next.commits == commits + [Commit(c, work, RunFrom(d, Last(commits).state, work))]
            && b.key in next.rows && next.rows[b.key].state == RunFrom(d, Last(commits).state, work)
  {
    var loaded := events + [Load(c, id)];
    assert Front(loaded) == events;
    EveryRunIsGood(d, b, clients, loaded);
    LoadFindsTheLastCommit(d, b, clients, events, c, id);
    AfterIsOnward(d, b, clients, loaded, more);
    LoadedClientWorks(d, b, After(d, b, clients, loaded), c, more);
    var done := loaded + more;
    SaveCommitsIffCurrent(d, b, clients, done, c);
    assert Front(done + [Save(c)]) == done;
  }

  /** The first save of an initialised state commits it, if its attempt and its runtime id are free. */
  lemma InitializeSaveCreates(d: SequenceDefinition, b: Binding, clients: nat, events: seq<Event>, c: nat, id: string)
    requires WellFormed(d)
    requires var sys := After(d, b, clients, events);
             c < |sys.clients| && sys.clients[c].known == None && MayCreate(sys.rows, b.key, id)
    ensures var next := After(d, b, clients, events + [Initialize(c, id)] + [Save(c)]);
            && next.commits == [Commit(c, [], Start(d, id))]
            && b.key in next.rows && next.rows[b.key].state == Start(d, id)
            && next.rows[b.key].version == INITIAL_VERSION
  {
    var initialized := events + [Initialize(c, id)];
    assert Front(initialized) == events && Front(initialized + [Save(c)]) == initialized;
    EveryRunIsGood(d, b, clients, events);
    SaveCommitsIffCurrent(d, b, clients, initialized, c);
    EveryRunIsGood(d, b, clients, initialized + [Save(c)]);
  }
}
