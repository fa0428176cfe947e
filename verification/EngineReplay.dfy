/**
 * Deterministic replay: the client applies actions one at a time and reports the
 * accepted ones; the server folds the stored log, sorted by client sequence.
 */
module EngineReplay {
  import opened Prelude
  import opened EngineRuntime

  // ---------------------------------------------------------------- replay

  /** One action; a rejected one leaves the state alone. */
  function Apply<C, S, A>(e: Engine<C, S, A>, config: C, s: S, action: A): S {
    var outcome := e.applyAction(s, config, action);
    if outcome.accepted then outcome.state else s
  }

  function Fold<C, S, A>(e: Engine<C, S, A>, config: C, s: S, actions: seq<A>): S {
    if |actions| == 0 then s else Apply(e, config, Fold(e, config, s, Front(actions)), Last(actions))
  }

  /** Whether the i-th action is accepted in the state the ones before it lead to. */
  predicate AcceptedAt<C, S, A>(e: Engine<C, S, A>, config: C, s: S, actions: seq<A>, i: nat)
    requires i < |actions|
  {
    e.applyAction(Fold(e, config, s, actions[..i]), config, actions[i]).accepted
  }

  /** The accepted actions alone. */
  function Accepted<C, S, A>(e: Engine<C, S, A>, config: C, s: S, actions: seq<A>): seq<A> {
    if |actions| == 0 then []
    else
      var earlier := Accepted(e, config, s, Front(actions));
      if e.applyAction(Fold(e, config, s, Front(actions)), config, Last(actions)).accepted
      then earlier + [Last(actions)] else earlier
  }

  ghost predicate AllAccepted<C, S, A>(e: Engine<C, S, A>, config: C, s: S, actions: seq<A>) {
    forall i :: 0 <= i < |actions| ==> AcceptedAt(e, config, s, actions, i)
  }

  datatype Rejection = Rejection(index: nat, reason: string)

  datatype ReplayResult<S> = ReplayResult(state: S, acceptedCount: nat, rejectedCount: nat, rejections: seq<Rejection>)

  function RejectionReason<S>(outcome: ActionOutcome<S>): string {
    if outcome.reason.Some? then outcome.reason.value else "REJECTED"
  }

  /** The rejections list names exactly the rejected positions, in order, with the engine's reasons. */
  ghost predicate NamesRejections<C, S, A>(e: Engine<C, S, A>, config: C, s: S, actions: seq<A>,
                                           rejections: seq<Rejection>)
  {
    && (forall k :: 0 <= k < |rejections| ==>
          var i := rejections[k].index;
          && i < |actions|
          && !AcceptedAt(e, config, s, actions, i)
          && rejections[k].reason ==
               RejectionReason(e.applyAction(Fold(e, config, s, actions[..i]), config, actions[i])))
    && (forall k, l :: 0 <= k < l < |rejections| ==> rejections[k].index < rejections[l].index)
    && (forall i :: 0 <= i < |actions| && !AcceptedAt(e, config, s, actions, i) ==>
          exists k :: 0 <= k < |rejections| && rejections[k].index == i)
  }

  lemma AcceptedAtPrefix<C, S, A>(e: Engine<C, S, A>, config: C, s: S, actions: seq<A>, n: nat, i: nat)
    requires i < n <= |actions|
    ensures AcceptedAt(e, config, s, actions[..n], i) == AcceptedAt(e, config, s, actions, i)
    ensures actions[..n][..i] == actions[..i]
  {
    assert actions[..n][..i] == actions[..i];
  }

  /** The rejections after one more action. */
  function NextRejections<S>(rejections: seq<Rejection>, outcome: ActionOutcome<S>, index: nat): seq<Rejection> {
    if outcome.accepted then rejections else rejections + [Rejection(index, RejectionReason(outcome))]
  }

  lemma ExtendRejections<C, S, A>(e: Engine<C, S, A>, config: C, s: S, actions: seq<A>, action: A,
                                  rejections: seq<Rejection>)
    requires NamesRejections(e, config, s, actions, rejections)
    ensures var outcome := e.applyAction(Fold(e, config, s, actions), config, action);
            NamesRejections(e, config, s, actions + [action], NextRejections(rejections, outcome, |actions|))
  {
    var n := |actions|;
    var all := actions + [action];
    var outcome := e.applyAction(Fold(e, config, s, actions), config, action);
    var next := NextRejections(rejections, outcome, n);
    assert all[..n] == actions;
    assert AcceptedAt(e, config, s, all, n) == outcome.accepted;
    forall i | 0 <= i < n
      ensures all[..i] == actions[..i]
      ensures AcceptedAt(e, config, s, all, i) == AcceptedAt(e, config, s, actions, i)
    {
      AcceptedAtPrefix(e, config, s, all, n, i);
    }
    forall i | 0 <= i < |all| && !AcceptedAt(e, config, s, all, i)
      ensures exists k :: 0 <= k < |next| && next[k].index == i
    {
      if i < n {
        var k :| 0 <= k < |rejections| && rejections[k].index == i;
        assert next[k].index == i;
      } else {
        assert next[|rejections|].index == i;
      }
    }
  }

  method ReplayActions<C, S, A>(e: Engine<C, S, A>, config: C, actions: seq<A>) returns (r: ReplayResult<S>)
    ensures r.state == Fold(e, config, e.initState(config), actions)
    ensures r.acceptedCount == |Accepted(e, config, e.initState(config), actions)|
    ensures r.acceptedCount + r.rejectedCount == |actions|
    ensures r.rejectedCount == |r.rejections|
    ensures NamesRejections(e, config, e.initState(config), actions, r.rejections)
    ensures forall k :: 0 <= k < |r.rejections| ==>
      var i := r.rejections[k].index;
      var outcome := e.applyAction(Fold(e, config, e.initState(config), actions[..i]), config, actions[i]);
      (outcome.reason.Some? ==> r.rejections[k].reason == outcome.reason.value)
      && (outcome.reason.None? ==> r.rejections[k].reason == "REJECTED")
  {
    var state := e.initState(config);
    var acceptedCount := 0;
    var rejections: seq<Rejection> := [];
    ghost var s0 := state;
    for index := 0 to |actions|
      invariant state == Fold(e, config, s0, actions[..index])
      invariant acceptedCount == |Accepted(e, config, s0, actions[..index])|
      invariant acceptedCount + |rejections| == index
      invariant NamesRejections(e, config, s0, actions[..index], rejections)
    {
      ghost var before := actions[..index];
      assert actions[..index + 1] == before + [actions[index]];
      assert Front(before + [actions[index]]) == before;
      ExtendRejections(e, config, s0, before, actions[index], rejections);
      var outcome := e.applyAction(state, config, actions[index]);
      if outcome.accepted {
        state := outcome.state;
        acceptedCount := acceptedCount + 1;
      } else {
        rejections := rejections + [Rejection(index, RejectionReason(outcome))];
      }
    }
    assert actions[..|actions|] == actions;
    r := ReplayResult(state, acceptedCount, |rejections|, rejections);
  }

  /** Replay composes over concatenation. */
  lemma {:induction false} FoldConcat<C, S, A>(e: Engine<C, S, A>, config: C, s: S, first: seq<A>, second: seq<A>)
    ensures Fold(e, config, s, first + second) == Fold(e, config, Fold(e, config, s, first), second)
  {
    if |second| == 0 {
      assert first + second == first;
    } else {
      FoldConcat(e, config, s, first, Front(second));
      assert Front(first + second) == first + Front(second);
    }
  }

  /** Erasing the rejected actions changes nothing: the rest replays to the same state and is accepted throughout. */
  lemma {:induction false} ErasingRejectedKeepsReplay<C, S, A>(e: Engine<C, S, A>, config: C, s: S, actions: seq<A>)
    ensures Fold(e, config, s, Accepted(e, config, s, actions)) == Fold(e, config, s, actions)
    ensures AllAccepted(e, config, s, Accepted(e, config, s, actions))
  {
    if |actions| > 0 {
      ErasingRejectedKeepsReplay(e, config, s, Front(actions));
      var kept := Accepted(e, config, s, actions);
      var earlier := Accepted(e, config, s, Front(actions));
      if kept != earlier {
        assert Front(kept) == earlier && Last(kept) == Last(actions);
        ExtendAccepted(e, config, s, earlier, Last(actions));
      }
    }
  }

  lemma ExtendAccepted<C, S, A>(e: Engine<C, S, A>, config: C, s: S, actions: seq<A>, action: A)
    requires AllAccepted(e, config, s, actions)
    requires e.applyAction(Fold(e, config, s, actions), config, action).accepted
    ensures AllAccepted(e, config, s, actions + [action])
  {
    var all := actions + [action];
    forall i | 0 <= i < |all| ensures AcceptedAt(e, config, s, all, i) {
      if i < |actions| {
        AcceptedAtPrefix(e, config, s, all, |actions|, i);
        assert all[..|actions|] == actions;
      } else {
        assert all[..i] == actions;
      }
    }
  }

  // ---------------------------------------------------------------- the client

  /** The mounted engine host; each call sees the state the previous one left. */
  class EngineHost<C(==), S, A(==)> {
    const engine: Engine<C, S, A>
    const config: C
    const initialActions: seq<A>
    var state: S
    var result: Option<EvaluationResult>
    /** Actions reported through `onAction` since mounting. */
    var reported: seq<A>

    ghost function Actions(): seq<A>
      reads this
    {
      initialActions + reported
    }

    /** What is on screen is the replay of everything mounted with or reported since. */
    ghost predicate Valid()
      reads this
    {
      && state == Fold(engine, config, engine.initState(config), Actions())
      && (AllAccepted(engine, config, engine.initState(config), initialActions) ==>
            AllAccepted(engine, config, engine.initState(config), Actions()))
    }

    constructor (engine: Engine<C, S, A>, config: C, initialActions: seq<A>)
      ensures Valid()
      ensures this.engine == engine && this.config == config && this.initialActions == initialActions
      ensures reported == [] && result == None
    {
      var replayed := ReplayActions(engine, config, initialActions);
      this.engine := engine;
      this.config := config;
      this.initialActions := initialActions;
      state := replayed.state;
      result := None;
      reported := [];
      new;
      assert Actions() == initialActions;
    }

    method Dispatch(action: A) returns (accepted: bool)
      requires Valid()
      modifies this
      ensures Valid()
      ensures accepted == engine.applyAction(old(state), config, action).accepted
      ensures accepted ==>
        && state == engine.applyAction(old(state), config, action).state
        && reported == old(reported) + [action] && result == None
      ensures !accepted ==> state == old(state) && reported == old(reported) && result == old(result)
    {
      var outcome := engine.applyAction(state, config, action);
      accepted := outcome.accepted;
      if outcome.accepted {
        Report(action);
        state := outcome.state;
        result := None;
      }
    }

    /** `onAction`: the list grows and stays accepted; the caller then installs the new state. */
    method Report(action: A)
      requires Valid()
      requires engine.applyAction(state, config, action).accepted
      modifies this`reported
      ensures reported == old(reported) + [action]
      ensures engine.applyAction(state, config, action).state ==
              Fold(engine, config, engine.initState(config), Actions())
      ensures AllAccepted(engine, config, engine.initState(config), initialActions) ==>
              AllAccepted(engine, config, engine.initState(config), Actions())
    {
      ghost var before := Actions();
      reported := reported + [action];
      assert Actions() == before + [action];
      assert Front(Actions()) == before;
      if AllAccepted(engine, config, engine.initState(config), initialActions) {
        ExtendAccepted(engine, config, engine.initState(config), before, action);
      }
    }

    /** `forwarded` is what the orchestrator hears: only a real evaluation. */
    method ConfirmAndEvaluate(confirm: A) returns (forwarded: Option<EvaluationResult>)
      requires Valid()
      modifies this
      ensures Valid()
      ensures var outcome := engine.applyAction(old(state), config, confirm);
              if outcome.accepted then
                && state == outcome.state
                && reported == old(reported) + [confirm]
                && result == Some(engine.evaluate(state, config))
                && forwarded == (if result.value.Evaluated? then result else None)
              else
                state == old(state) && reported == old(reported) && result == old(result) && forwarded == None
    {
      forwarded := None;
      var outcome := engine.applyAction(state, config, confirm);
      if outcome.accepted {
        Report(confirm);
        state := outcome.state;
        var evaluation := engine.evaluate(outcome.state, config);
        result := Some(evaluation);
        if evaluation.Evaluated? {
          forwarded := Some(evaluation);
        }
      }
    }
  }
}
