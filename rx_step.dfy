/**
  One call of an rx handler of the MME scenario player, as a function from the
  scenario state before the call to the state after it. Both handlers of
  mme_scenario_player_rx_itti.c are this step; they differ only in the kind of
  message they accept and in when they reload the expected message.
*/
module RxStep {
  import opened Wrappers
  import opened ScenarioItems
  import opened Variables

  /** When the expected message is reloaded before the comparison. */
  datatype ReloadPolicy =
    | OnDumpOrVars  // `xml_dump2struct_needed || vars_to_load`
    | OnVarsOnly    // `vars_to_load` only

  datatype Handler = Handler(kind: MsgKind, policy: ReloadPolicy)

  const NasDownlinkDataReqHandler: Handler := Handler(NasDownlinkDataReq, OnDumpOrVars)
  const ConnectionEstablishmentCnfHandler: Handler := Handler(MmeAppConnectionEstablishmentCnf, OnVarsOnly)

  /**
    The collaborators the handlers call but this model does not contain:
    `extract` stands for the bindings' `value_getter_func`, `matches` is true
    when the kind's `itti_msg_comp_*` comparator reports no difference, and
    `reload` is `msp_reload_message` on the item at the given position (None
    when it reports an error).
  */
  datatype Env = Env(
    extract: (GetterId, Msg) -> U64,
    matches: (MsgKind, Msg, Msg) -> bool,
    reload: (nat, seq<Item>) -> Option<Msg>)

  /**
    Which way a call went. Each case but `NoSuccessor` is one of the handler's
    log lines; `NoSuccessor` is the discard this model puts where the handlers
    as written follow a NULL `next_item`.
  */
  datatype Outcome =
    | NoScenario
    | NoCursor
    | NoSuccessor
    | NotPendingRx
    | KindMismatch
    | Matched(reloaded: bool, reloadFailed: bool, contentMatched: bool)

  /** A scenario's items, `last_played_item` and status. */
  datatype State = State(items: seq<Item>, cursor: Option<nat>, status: Status)

  datatype StepResult = StepResult(state: State, outcome: Outcome)

  predicate ValidState(st: State)
  {
    WellFormed(st.items) && (st.cursor.Some? ==> st.cursor.value < |st.items|)
  }

  /** An ITTI message item that is to be received and has not been processed yet. */
  predicate PendingRx(it: Item)
  {
    it.MsgItem? && !it.isTx && !it.isProcessed
  }

  /** Whether the handler reloads the expected message, read after the variables are loaded. */
  predicate ReloadRequested(p: ReloadPolicy, it: Item)
    requires it.MsgItem?
  {
    match p
    case OnDumpOrVars => it.dumpNeeded || it.varsToLoad != []
    case OnVarsOnly => it.varsToLoad != []
  }

  /** `item->next_item` as the handlers read it: the next position, or NULL after the last item. */
  datatype ItemRef = ItemAt(index: nat) | Null

  function NextItemAsWritten(len: nat, c: nat): (r: ItemRef)
    requires c < len
  {
    if c + 1 < len then ItemAt(c + 1) else Null
  }

  /**
    One handler call on the current scenario. The successor of the cursor is
    looked at only when there is one: the handlers as written read it through
    a NULL pointer when the cursor is the last item, and this step discards
    the message there instead.
  */
  function Step(st: State, h: Handler, msg: Msg, env: Env, elapsed: nat): (r: StepResult)
    requires ValidState(st)
    ensures |r.state.items| == |st.items|
  {
    if st.cursor.None? then StepResult(st, NoCursor)
    else if NextItemAsWritten(|st.items|, st.cursor.value).Null? then StepResult(st, NoSuccessor)
    else
      var i := st.cursor.value + 1;
      if !PendingRx(st.items[i]) then StepResult(st, NotPendingRx)
      else if st.items[i].kind != h.kind then StepResult(st.(status := PlayFailed), KindMismatch)
      else MatchItem(st, i, h, msg, env, elapsed)
  }

  /** Every call keeps the script's references well formed and the cursor on an item. */
  lemma StepKeepsValid(st: State, h: Handler, msg: Msg, env: Env, elapsed: nat)
    requires ValidState(st)
    ensures ValidState(Step(st, h, msg, env, elapsed).state)
  {
    var r := Step(st, h, msg, env, elapsed).state;
    if st.cursor.Some? && st.cursor.value + 1 < |st.items| &&
       PendingRx(st.items[st.cursor.value + 1]) && st.items[st.cursor.value + 1].kind == h.kind {
      var i := st.cursor.value + 1;
      assert r == MatchItem(st, i, h, msg, env, elapsed).state;
      MatchItemKeepsValid(st, i, h, msg, env, elapsed);
    } else {
      assert r.items == st.items && r.cursor == st.cursor;
    }
  }

  /**
    The item at `i` is the pending rx item of the handler's kind: stamp it,
    load its variables, then settle it.
  */
  function MatchItem(st: State, i: nat, h: Handler, msg: Msg, env: Env, elapsed: nat): (r: StepResult)
    requires ValidState(st) && i < |st.items| && st.items[i].MsgItem?
    ensures |r.state.items| == |st.items|
  {
    var it := st.items[i];
    var stamped := Stamp(st.items, i, elapsed);
    assert BindingsOk(st.items, it.varsToLoad);
    SkeletonKeepsBindings(st.items, stamped, it.varsToLoad);
    var loaded := Loaded(stamped, it.varsToLoad, msg, env.extract);
    assert LoadEffect(stamped[i], loaded[i]);
    Settle(st.(items := loaded), i, h, msg, env)
  }

  /**
    The end of a match, once the variables are loaded: reload the expected
    message if the policy asks for it, compare it with `msg`, and record the
    result in the status, the cursor and the item's `is_processed`.
  */
  function Settle(st: State, i: nat, h: Handler, msg: Msg, env: Env): (r: StepResult)
    requires i < |st.items| && st.items[i].MsgItem?
    ensures |r.state.items| == |st.items|
  {
    var reload := ReloadRequested(h.policy, st.items[i]);
    var fetched := if reload then env.reload(i, st.items) else None;
    var reloadFailed := reload && fetched.None?;
    var reloaded := if reload && fetched.Some? then st.items[i := st.items[i].(template := fetched.value)] else st.items;
    var status := if reloadFailed then PlayFailed else st.status;
    var ok := env.matches(h.kind, reloaded[i].template, msg);
    StepResult(
      State(reloaded[i := reloaded[i].(isProcessed := true)],
            if ok then Some(i) else st.cursor,
            if !ok then PlayFailed else if status == Paused then Playing else status),
      Matched(reload, reloadFailed, ok))
  }

  /**
    The reload as `Settle` performs it: when requested, `msp_reload_message`
    is asked for the item at `i` over the current items. If it fails the
    scenario fails whatever the comparison says; if it succeeds the item holds
    the returned message and is compared with it. Without a reload, or after
    a failed one, the item keeps the template it had.
  */
  lemma SettleReloads(st: State, i: nat, h: Handler, msg: Msg, env: Env)
    requires i < |st.items| && st.items[i].MsgItem?
    ensures var r := Settle(st, i, h, msg, env);
            var fetched := env.reload(i, st.items);
            r.outcome.Matched? && r.state.items[i].MsgItem? &&
            r.outcome.reloaded == ReloadRequested(h.policy, st.items[i]) &&
            (r.outcome.reloadFailed <==> r.outcome.reloaded && fetched.None?) &&
            (r.outcome.reloaded && fetched.Some? ==> r.state.items[i].template == fetched.value) &&
            (!r.outcome.reloaded || fetched.None? ==> r.state.items[i].template == st.items[i].template) &&
            (r.outcome.reloadFailed ==> r.state.status == PlayFailed) &&
            r.outcome.contentMatched == env.matches(h.kind, r.state.items[i].template, msg)
  {
  }

  /** The matched branch keeps the script's references well formed and the cursor on an item. */
  lemma MatchItemKeepsValid(st: State, i: nat, h: Handler, msg: Msg, env: Env, elapsed: nat)
    requires ValidState(st) && i < |st.items| && st.items[i].MsgItem?
    ensures ValidState(MatchItem(st, i, h, msg, env, elapsed).state)
  {
    var it := st.items[i];
    var stamped := Stamp(st.items, i, elapsed);
    SkeletonKeepsWellFormed(st.items, stamped);
    var loaded := Loaded(stamped, it.varsToLoad, msg, env.extract);
    LoadEffectsKeepSkeleton(stamped, loaded);
    SkeletonKeepsWellFormed(stamped, loaded);
    var r := MatchItem(st, i, h, msg, env, elapsed).state;
    assert LoadEffect(stamped[i], loaded[i]);
    assert Skeleton(loaded, r.items);
    SkeletonKeepsWellFormed(loaded, r.items);
  }

  /** The items once the item at `i` has been given its time stamp. */
  function Stamp(s: seq<Item>, i: nat, elapsed: nat): (r: seq<Item>)
    requires i < |s| && s[i].MsgItem?
    ensures Skeleton(s, r)
  {
    s[i := s[i].(timeStamp := elapsed)]
  }

  /** One message delivered to a handler, with the elapsed time read at that moment. */
  datatype Delivery = Delivery(handler: Handler, msg: Msg, elapsed: nat)

  /** The scenario state after the handlers have processed `ds` in order. */
  function Run(st: State, env: Env, ds: seq<Delivery>): (r: State)
    requires ValidState(st)
    ensures ValidState(r)
    ensures |r.items| == |st.items|
    decreases |ds|
  {
    if ds == [] then st
    else
      var next := Step(st, ds[0].handler, ds[0].msg, env, ds[0].elapsed).state;
      StepKeepsValid(st, ds[0].handler, ds[0].msg, env, ds[0].elapsed);
      Run(next, env, ds[1..])
  }
}
