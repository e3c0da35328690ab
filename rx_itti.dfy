/**
  The rx handlers of the MME scenario player over a scenario object whose
  items, `last_played_item` and status they update in place. Each method is
  proved to do what the functions of RxStep and Variables describe.
*/
module RxItti {
  import opened Wrappers
  import opened ScenarioItems
  import opened Variables
  import opened RxStep

  class Scenario {
    /** The script, in order; position `i + 1` is `next_item` of position `i`. */
    var items: array<Item>
    /** `last_played_item`, None while it is NULL. */
    var cursor: Option<nat>
    var status: Status

    ghost predicate Valid()
      reads this, items
    {
      ValidState(Snapshot())
    }

    ghost function Snapshot(): State
      reads this, items
    {
      State(items[..], cursor, status)
    }

    /** A scenario as the script loader hands it over. */
    constructor (script: seq<Item>, initial: Status)
      requires WellFormed(script)
      ensures Valid() && fresh(items)
      ensures Snapshot() == State(script, None, initial)
    {
      items := new Item[|script|](i requires 0 <= i < |script| => script[i]);
      cursor := None;
      status := initial;
    }

    /**
      `msp_var_notify_listeners` on the variable item at `v`: flags every
      message item listening to it for reloading.
    */
    method NotifyListeners(v: nat)
      requires v < items.Length && items[v].VarItem? && ListenersOk(items[..], items[v].listeners)
      modifies items
      ensures items[..] == Marked(old(items[..]), old(items[v].listeners))
    {
      var ls := items[v].listeners;
      var k := 0;
      while k < |ls|
        invariant k <= |ls|
        invariant ListenersOk(items[..], ls[k..])
        invariant Marked(items[..], ls[k..]) == Marked(old(items[..]), ls)
      {
        ghost var before := items[..];
        var l := ls[k];
        assert ls[k..][0] == l && ls[k..][1..] == ls[k + 1..];
        MarkedUnfold(before, ls[k..]);
        if items[l].MsgItem? {
          items[l] := items[l].(dumpNeeded := true);
        }
        assert items[..] == MarkOne(before, l);
        k := k + 1;
      }
    }

    /**
      The loop over `vars_to_load`: each bound variable gets the value its
      getter reads from `msg`, `value_changed` is set, and its listeners are
      notified, in list order.
    */
    method LoadVars(bs: seq<Binding>, msg: Msg, extract: (GetterId, Msg) -> U64)
      requires BindingsOk(items[..], bs)
      modifies items
      ensures items[..] == Loaded(old(items[..]), bs, msg, extract)
    {
      var k := 0;
      while k < |bs|
        invariant k <= |bs|
        invariant BindingsOk(items[..], bs[k..])
        invariant Loaded(items[..], bs[k..], msg, extract) == Loaded(old(items[..]), bs, msg, extract)
      {
        ghost var before := items[..];
        var b := bs[k];
        assert bs[k..][0] == b && bs[k..][1..] == bs[k + 1..];
        assert BindingOk(before, b);
        var v := items[b.target];
        items[b.target] := v.(value := extract(b.getter, msg), changed := true);
        NotifyListeners(b.target);
        assert items[..] == LoadOne(before, b, msg, extract);
        LoadEffectsKeepSkeleton(before, items[..]);
        SkeletonKeepsBindings(before, items[..], bs[k + 1..]);
        k := k + 1;
      }
    }

    /**
      One call of an rx handler `h` with the received message `msg`;
      `elapsed` is the time since the scenario started, read for the item's
      time stamp. The new items, cursor and status are those of `Step`.
    */
    method HandleRx(h: Handler, msg: Msg, env: Env, elapsed: nat) returns (outcome: Outcome)
      requires Valid()
      modifies this, items
      ensures Valid() && items == old(items)
      ensures Step(old(Snapshot()), h, msg, env, elapsed) == StepResult(Snapshot(), outcome)
    {
      if cursor.None? {
        return NoCursor;
      }
      var i := cursor.value + 1;
      if i == items.Length {
        return NoSuccessor;
      }
      var it := items[i];
      if !PendingRx(it) {
        return NotPendingRx;
      }
      if it.kind != h.kind {
        status := PlayFailed;
        return KindMismatch;
      }
      ghost var st := Snapshot();
      outcome := MatchPending(i, h, msg, env, elapsed);
      MatchItemKeepsValid(st, i, h, msg, env, elapsed);
      assert Step(st, h, msg, env, elapsed) == MatchItem(st, i, h, msg, env, elapsed);
    }

    /**
      The body of a handler once the item at `i` is known to be the pending rx
      item of its kind: time stamp and variable loading, then `Settle`.
    */
    method MatchPending(i: nat, h: Handler, msg: Msg, env: Env, elapsed: nat) returns (outcome: Outcome)
      requires Valid() && i < items.Length && items[i].MsgItem?
      modifies this, items
      ensures items == old(items)
      ensures MatchItem(old(Snapshot()), i, h, msg, env, elapsed) == StepResult(Snapshot(), outcome)
    {
      ghost var st := Snapshot();
      var it := items[i];
      items[i] := it.(timeStamp := elapsed);
      ghost var stamped := items[..];
      assert stamped == Stamp(st.items, i, elapsed);
      assert BindingsOk(st.items, it.varsToLoad);
      SkeletonKeepsBindings(st.items, stamped, it.varsToLoad);
      LoadVars(it.varsToLoad, msg, env.extract);
      assert LoadEffect(stamped[i], items[i]);
      outcome := Settle(i, h, msg, env, it.varsToLoad != []);
    }

    /**
      Reload the expected message if the handler's condition holds, compare
      it with `msg`, then update status, cursor and `is_processed`.
      `varsBound` is whether the item had variables to load, which the
      MME_APP_CONNECTION_ESTABLISHMENT_CNF handler reads before the loop.
    */
    method Settle(i: nat, h: Handler, msg: Msg, env: Env, varsBound: bool) returns (outcome: Outcome)
      requires i < items.Length && items[i].MsgItem? && varsBound == (items[i].varsToLoad != [])
      modifies this, items
      ensures items == old(items)
      ensures RxStep.Settle(old(Snapshot()), i, h, msg, env) == StepResult(Snapshot(), outcome)
    {
      var reload := match h.policy
        case OnDumpOrVars => items[i].dumpNeeded || items[i].varsToLoad != []
        case OnVarsOnly => varsBound;
      var reloadFailed := false;
      if reload {
        var fetched := env.reload(i, items[..]);
        if fetched.None? {
          status := PlayFailed;
          reloadFailed := true;
        } else {
          items[i] := items[i].(template := fetched.value);
        }
      }
      var ok := env.matches(h.kind, items[i].template, msg);
      if ok {
        if status == Paused {
          status := Playing;
        }
        cursor := Some(i);
      } else {
        status := PlayFailed;
      }
      items[i] := items[i].(isProcessed := true);
      outcome := Matched(reload, reloadFailed, ok);
    }
  }

  /**
    The NAS_DOWNLINK_DATA_REQ handler: with no current scenario the message is
    discarded and nothing changes.
  */
  method HandleNasDownlinkDataReq(current: Scenario?, msg: Msg, env: Env, elapsed: nat)
    returns (outcome: Outcome)
    requires current != null ==> current.Valid()
    modifies if current == null then {} else {current, current.items}
    ensures current == null ==> outcome == NoScenario
    ensures current != null ==> current.Valid() && current.items == old(current.items)
    ensures current != null ==>
      Step(old(current.Snapshot()), NasDownlinkDataReqHandler, msg, env, elapsed)
        == StepResult(current.Snapshot(), outcome)
  {
    if current == null {
      return NoScenario;
    }
    outcome := current.HandleRx(NasDownlinkDataReqHandler, msg, env, elapsed);
  }

  /**
    The MME_APP_CONNECTION_ESTABLISHMENT_CNF handler: with no current scenario
    the message is discarded and nothing changes.
  */
  method HandleConnectionEstablishmentCnf(current: Scenario?, msg: Msg, env: Env, elapsed: nat)
    returns (outcome: Outcome)
    requires current != null ==> current.Valid()
    modifies if current == null then {} else {current, current.items}
    ensures current == null ==> outcome == NoScenario
    ensures current != null ==> current.Valid() && current.items == old(current.items)
    ensures current != null ==>
      Step(old(current.Snapshot()), ConnectionEstablishmentCnfHandler, msg, env, elapsed)
        == StepResult(current.Snapshot(), outcome)
  {
    if current == null {
      return NoScenario;
    }
    outcome := current.HandleRx(ConnectionEstablishmentCnfHandler, msg, env, elapsed);
  }
}
