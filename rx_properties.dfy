/**
  What one rx handler call does to a scenario, case by case, and what any
  sequence of calls preserves.
*/
module RxProperties {
  import opened Wrappers
  import opened ScenarioItems
  import opened Variables
  import opened RxStep

  /** The item at `j` is a message item already processed. */
  predicate Processed(s: seq<Item>, j: int)
  {
    0 <= j < |s| && s[j].MsgItem? && s[j].isProcessed
  }

  /** The position of `last_played_item`, -1 while it is NULL. */
  function Position(c: Option<nat>): (r: int)
  {
    if c.None? then -1 else c.value
  }

  /** The call reaches the comparison: the successor of the cursor is the pending rx item of `h`'s kind. */
  predicate Matching(st: State, h: Handler)
  {
    st.cursor.Some? && st.cursor.value + 1 < |st.items| &&
    PendingRx(st.items[st.cursor.value + 1]) && st.items[st.cursor.value + 1].kind == h.kind
  }

  // ---------------------------------------------------------------------------
  // The cases in which the message is discarded or the scenario fails early
  // ---------------------------------------------------------------------------

  /** With `last_played_item` NULL the message is discarded; nothing changes. */
  lemma StepNullCursor(st: State, h: Handler, msg: Msg, env: Env, elapsed: nat)
    requires ValidState(st) && st.cursor.None?
    ensures Step(st, h, msg, env, elapsed) == StepResult(st, NoCursor)
  {
  }

  /** The handlers as written follow `next_item` of the last item, which is NULL. */
  lemma LastCursorReadsNull(st: State)
    requires ValidState(st) && st.cursor == Some(|st.items| - 1)
    ensures NextItemAsWritten(|st.items|, st.cursor.value) == Null
  {
  }

  /** The step in place of that NULL dereference discards the message; nothing changes. */
  lemma StepLastItemDiscards(st: State, h: Handler, msg: Msg, env: Env, elapsed: nat)
    requires ValidState(st) && st.cursor == Some(|st.items| - 1)
    ensures Step(st, h, msg, env, elapsed) == StepResult(st, NoSuccessor)
  {
  }

  /**
    A successor that is not an ITTI message item, is a tx item or is already
    processed makes the handler discard the message; nothing changes.
  */
  lemma StepNotPendingDiscards(st: State, h: Handler, msg: Msg, env: Env, elapsed: nat)
    requires ValidState(st) && st.cursor.Some? && st.cursor.value + 1 < |st.items|
    requires !PendingRx(st.items[st.cursor.value + 1])
    ensures Step(st, h, msg, env, elapsed) == StepResult(st, NotPendingRx)
  {
  }

  /**
    A pending rx successor of another kind fails the scenario; the cursor and
    every item, its `is_processed` flag included, stay as they were.
  */
  lemma StepKindMismatch(st: State, h: Handler, msg: Msg, env: Env, elapsed: nat)
    requires ValidState(st) && st.cursor.Some? && st.cursor.value + 1 < |st.items|
    requires PendingRx(st.items[st.cursor.value + 1])
    requires st.items[st.cursor.value + 1].kind != h.kind
    ensures Step(st, h, msg, env, elapsed) == StepResult(st.(status := PlayFailed), KindMismatch)
    ensures !Step(st, h, msg, env, elapsed).state.items[st.cursor.value + 1].isProcessed
  {
  }

  // ---------------------------------------------------------------------------
  // The matched item
  // ---------------------------------------------------------------------------

  /**
    How the items after a match are built from the loaded items: the matched
    item keeps everything the loop left except its template and
    `is_processed`; every other item is as the loop left it.
  */
  lemma MatchedItems(st: State, h: Handler, msg: Msg, env: Env, elapsed: nat, j: nat)
    requires ValidState(st) && Matching(st, h) && j < |st.items|
    ensures var i := st.cursor.value + 1;
            var loaded := Loaded(Stamp(st.items, i, elapsed), st.items[i].varsToLoad, msg, env.extract);
            var r := Step(st, h, msg, env, elapsed).state;
            |loaded| == |r.items| == |st.items| &&
            (j == i ==> loaded[i].MsgItem? && r.items[i] == loaded[i].(template := r.items[i].template, isProcessed := true)) &&
            (j != i ==> r.items[j] == loaded[j])
  {
    var i := st.cursor.value + 1;
    var stamped := Stamp(st.items, i, elapsed);
    var loaded := Loaded(stamped, st.items[i].varsToLoad, msg, env.extract);
    assert LoadEffect(stamped[i], loaded[i]);
  }

  /**
    On a match the successor is processed afterwards whatever the comparison
    says, carries the elapsed time, keeps its kind, direction and bindings, and
    every other item changes at most by variable loading (so no other
    `is_processed` flag moves).
  */
  lemma StepMatchedProcessesItem(st: State, h: Handler, msg: Msg, env: Env, elapsed: nat)
    requires ValidState(st) && Matching(st, h)
    ensures var i := st.cursor.value + 1;
            var r := Step(st, h, msg, env, elapsed).state;
            var it := st.items[i];
            r.items[i].MsgItem? && r.items[i].isProcessed && r.items[i].timeStamp == elapsed &&
            r.items[i].kind == it.kind && !r.items[i].isTx && r.items[i].varsToLoad == it.varsToLoad &&
            forall j :: 0 <= j < |st.items| && j != i ==> LoadEffect(st.items[j], r.items[j])
  {
    var i := st.cursor.value + 1;
    var stamped := Stamp(st.items, i, elapsed);
    var loaded := Loaded(stamped, st.items[i].varsToLoad, msg, env.extract);
    MatchedItems(st, h, msg, env, elapsed, i);
    assert LoadEffect(stamped[i], loaded[i]);
    forall j | 0 <= j < |st.items| && j != i
      ensures LoadEffect(st.items[j], Step(st, h, msg, env, elapsed).state.items[j])
    {
      MatchedItems(st, h, msg, env, elapsed, j);
      assert stamped[j] == st.items[j];
      assert LoadEffect(stamped[j], loaded[j]);
    }
  }

  /**
    The comparison decides cursor and status. A match moves the cursor to the
    successor and turns PAUSED into PLAYING, keeping any other status unless
    the reload failed; a difference fails the scenario and leaves the cursor.
    A failed reload fails the scenario whatever the comparison says, and the
    item is compared with the template it holds afterwards.
  */
  lemma StepComparison(st: State, h: Handler, msg: Msg, env: Env, elapsed: nat)
    requires ValidState(st) && Matching(st, h)
    ensures var i := st.cursor.value + 1;
            var r := Step(st, h, msg, env, elapsed);
            r.outcome.Matched? &&
            r.state.items[i].MsgItem? &&
            r.outcome.contentMatched == env.matches(h.kind, r.state.items[i].template, msg) &&
            (!r.outcome.reloaded || r.outcome.reloadFailed ==> r.state.items[i].template == st.items[i].template) &&
            (r.outcome.contentMatched ==> r.state.cursor == Some(i)) &&
            (r.outcome.contentMatched && !r.outcome.reloadFailed ==>
              r.state.status == if st.status == Paused then Playing else st.status) &&
            (!r.outcome.contentMatched ==> r.state.cursor == st.cursor && r.state.status == PlayFailed) &&
            (r.outcome.reloadFailed ==> r.outcome.reloaded && r.state.status == PlayFailed)
  {
    var i := st.cursor.value + 1;
    var stamped := Stamp(st.items, i, elapsed);
    var loaded := Loaded(stamped, st.items[i].varsToLoad, msg, env.extract);
    assert LoadEffect(stamped[i], loaded[i]);
  }

  /**
    When the expected message is reloaded, in terms of the item before the
    call: the NAS_DOWNLINK_DATA_REQ handler reloads iff the item needs its XML
    dump re-parsed or has variables to load, the
    MME_APP_CONNECTION_ESTABLISHMENT_CNF handler iff it has variables to load.
  */
  lemma StepReloadCondition(st: State, h: Handler, msg: Msg, env: Env, elapsed: nat)
    requires ValidState(st) && Matching(st, h)
    ensures var it := st.items[st.cursor.value + 1];
            var r := Step(st, h, msg, env, elapsed);
            r.outcome.Matched? &&
            (r.outcome.reloaded <==>
              if h.policy == OnDumpOrVars then it.dumpNeeded || it.varsToLoad != [] else it.varsToLoad != [])
  {
    var i := st.cursor.value + 1;
    var stamped := Stamp(st.items, i, elapsed);
    var loaded := Loaded(stamped, st.items[i].varsToLoad, msg, env.extract);
    assert LoadEffect(stamped[i], loaded[i]);
    if st.items[i].varsToLoad == [] {
      assert loaded == stamped;
    }
  }

  /**
    On a match the reload reads the items as the variable loop left them: a
    requested reload that `msp_reload_message` fails fails the scenario, and
    one that succeeds leaves the item holding the returned message.
  */
  lemma StepReloadResult(st: State, h: Handler, msg: Msg, env: Env, elapsed: nat)
    requires ValidState(st) && Matching(st, h)
    ensures var i := st.cursor.value + 1;
            var loaded := Loaded(Stamp(st.items, i, elapsed), st.items[i].varsToLoad, msg, env.extract);
            var fetched := env.reload(i, loaded);
            var r := Step(st, h, msg, env, elapsed);
            r.outcome.Matched? && r.state.items[i].MsgItem? &&
            (r.outcome.reloadFailed <==> r.outcome.reloaded && fetched.None?) &&
            (r.outcome.reloaded && fetched.Some? ==> r.state.items[i].template == fetched.value) &&
            (r.outcome.reloadFailed ==> r.state.status == PlayFailed)
  {
    var i := st.cursor.value + 1;
    var stamped := Stamp(st.items, i, elapsed);
    var loaded := Loaded(stamped, st.items[i].varsToLoad, msg, env.extract);
    assert LoadEffect(stamped[i], loaded[i]);
    assert Step(st, h, msg, env, elapsed) == MatchItem(st, i, h, msg, env, elapsed);
    SettleReloads(st.(items := loaded), i, h, msg, env);
  }

  // ---------------------------------------------------------------------------
  // Variable loading within a match
  // ---------------------------------------------------------------------------

  /**
    A binding of the matched item that no later binding of it overrides sets
    its variable to the getter's value on the received message and sets
    `value_changed`; nothing else of the variable changes.
  */
  lemma StepLoadsVariable(st: State, h: Handler, msg: Msg, env: Env, elapsed: nat, k: nat)
    requires ValidState(st) && Matching(st, h)
    requires var bs := st.items[st.cursor.value + 1].varsToLoad;
             k < |bs| && forall k' :: k < k' < |bs| ==> bs[k'].target != bs[k].target
    ensures var b := st.items[st.cursor.value + 1].varsToLoad[k];
            b.target < |st.items| &&
            Step(st, h, msg, env, elapsed).state.items[b.target]
              == st.items[b.target].(value := env.extract(b.getter, msg), changed := true)
  {
    var i := st.cursor.value + 1;
    var bs := st.items[i].varsToLoad;
    var stamped := Stamp(st.items, i, elapsed);
    assert BindingsOk(stamped, bs) && stamped[bs[k].target] == st.items[bs[k].target] by {
      assert BindingsOk(st.items, bs) && BindingOk(st.items, bs[k]);
      SkeletonKeepsBindings(st.items, stamped, bs);
    }
    LoadedLastWins(stamped, bs, msg, env.extract, k);
    MatchedItems(st, h, msg, env, elapsed, bs[k].target);
  }

  /** A variable item that none of the matched item's bindings targets is not written. */
  lemma StepWritesOnlyBoundVars(st: State, h: Handler, msg: Msg, env: Env, elapsed: nat, j: nat)
    requires ValidState(st) && Matching(st, h)
    requires j < |st.items| && st.items[j].VarItem?
    requires var bs := st.items[st.cursor.value + 1].varsToLoad;
             forall k :: 0 <= k < |bs| ==> bs[k].target != j
    ensures Step(st, h, msg, env, elapsed).state.items[j] == st.items[j]
  {
    var i := st.cursor.value + 1;
    var bs := st.items[i].varsToLoad;
    var stamped := Stamp(st.items, i, elapsed);
    assert BindingsOk(stamped, bs) && stamped[j] == st.items[j] by {
      assert BindingsOk(st.items, bs);
      SkeletonKeepsBindings(st.items, stamped, bs);
    }
    LoadedOnlyWritesBoundVars(stamped, bs, msg, env.extract, j);
    MatchedItems(st, h, msg, env, elapsed, j);
  }

  /** Every message item listening to a loaded variable is flagged for reloading. */
  lemma StepNotifiesListeners(st: State, h: Handler, msg: Msg, env: Env, elapsed: nat, k: nat, l: nat)
    requires ValidState(st) && Matching(st, h)
    requires var bs := st.items[st.cursor.value + 1].varsToLoad;
             k < |bs| && bs[k].target < |st.items| && st.items[bs[k].target].VarItem? &&
             l < |st.items| && st.items[l].MsgItem?
    requires var bs := st.items[st.cursor.value + 1].varsToLoad;
             l in st.items[bs[k].target].listeners
    ensures var r := Step(st, h, msg, env, elapsed).state;
            r.items[l].MsgItem? && r.items[l].dumpNeeded
  {
    var i := st.cursor.value + 1;
    var stamped := Stamp(st.items, i, elapsed);
    var bs := st.items[i].varsToLoad;
    assert BindingsOk(stamped, bs) && Loaded(stamped, bs, msg, env.extract)[l].MsgItem? &&
           Loaded(stamped, bs, msg, env.extract)[l].dumpNeeded by {
      StampedMarksListeners(st.items, i, elapsed, msg, env.extract, k, l);
    }
    var loaded := Loaded(stamped, bs, msg, env.extract);
    var r := Step(st, h, msg, env, elapsed).state;
    assert r.items[l] == if l == i then loaded[i].(template := r.items[i].template, isProcessed := true) else loaded[l] by {
      MatchedItems(st, h, msg, env, elapsed, l);
    }
  }

  /** `StepNotifiesListeners` before the comparison: the loop run on the stamped items. */
  lemma StampedMarksListeners(s: seq<Item>, i: nat, elapsed: nat, msg: Msg, extract: (GetterId, Msg) -> U64,
                              k: nat, l: nat)
    requires WellFormed(s) && i < |s| && s[i].MsgItem?
    requires var bs := s[i].varsToLoad;
             k < |bs| && bs[k].target < |s| && s[bs[k].target].VarItem? &&
             l in s[bs[k].target].listeners && l < |s| && s[l].MsgItem?
    ensures var stamped := Stamp(s, i, elapsed);
            BindingsOk(stamped, s[i].varsToLoad) &&
            Loaded(stamped, s[i].varsToLoad, msg, extract)[l].MsgItem? &&
            Loaded(stamped, s[i].varsToLoad, msg, extract)[l].dumpNeeded
  {
    var bs := s[i].varsToLoad;
    var stamped := Stamp(s, i, elapsed);
    assert BindingsOk(s, bs) && BindingOk(s, bs[k]);
    SkeletonKeepsBindings(s, stamped, bs);
    LoadedMarksListeners(stamped, bs, msg, extract, k, l);
  }

  /** A message item other than the matched one that listens to no loaded variable is not touched. */
  lemma StepOnlyMarksListeners(st: State, h: Handler, msg: Msg, env: Env, elapsed: nat, j: nat)
    requires ValidState(st) && Matching(st, h)
    requires j < |st.items| && j != st.cursor.value + 1 && st.items[j].MsgItem?
    requires var bs := st.items[st.cursor.value + 1].varsToLoad;
             forall k :: 0 <= k < |bs| ==>
               bs[k].target < |st.items| && st.items[bs[k].target].VarItem? ==>
               j !in st.items[bs[k].target].listeners
    ensures Step(st, h, msg, env, elapsed).state.items[j] == st.items[j]
  {
    var i := st.cursor.value + 1;
    var bs := st.items[i].varsToLoad;
    var stamped := Stamp(st.items, i, elapsed);
    assert BindingsOk(stamped, bs) && stamped[j] == st.items[j] &&
           forall k :: 0 <= k < |bs| ==> j !in stamped[bs[k].target].listeners by {
      assert BindingsOk(st.items, bs);
      SkeletonKeepsBindings(st.items, stamped, bs);
      forall k | 0 <= k < |bs| ensures j !in stamped[bs[k].target].listeners {
        assert BindingOk(st.items, bs[k]);
      }
    }
    LoadedOnlyMarksListeners(stamped, bs, msg, env.extract, j);
    MatchedItems(st, h, msg, env, elapsed, j);
  }

  // ---------------------------------------------------------------------------
  // What every call preserves
  // ---------------------------------------------------------------------------

  /**
    Any call moves the cursor by at most one position and only forward, and
    only onto an item it has just processed; processed items stay processed,
    and only the successor of the cursor can become processed.
  */
  lemma StepMonotone(st: State, h: Handler, msg: Msg, env: Env, elapsed: nat)
    requires ValidState(st)
    ensures var r := Step(st, h, msg, env, elapsed).state;
            (r.cursor == st.cursor || (st.cursor.Some? && r.cursor == Some(st.cursor.value + 1))) &&
            (r.cursor != st.cursor ==> Processed(r.items, r.cursor.value)) &&
            (forall j :: Processed(st.items, j) ==> Processed(r.items, j)) &&
            (forall j :: Processed(r.items, j) && !Processed(st.items, j) ==>
               st.cursor.Some? && j == st.cursor.value + 1)
  {
    if Matching(st, h) {
      var i := st.cursor.value + 1;
      var r := Step(st, h, msg, env, elapsed).state;
      StepMatchedProcessesItem(st, h, msg, env, elapsed);
      forall j | 0 <= j < |st.items| && j != i ensures Processed(r.items, j) == Processed(st.items, j) {
        assert LoadEffect(st.items[j], r.items[j]);
      }
    }
  }

  /**
    This file never moves a scenario out of PLAY_FAILED: the only status it
    sets other than PLAY_FAILED is PLAYING, and only from PAUSED.
  */
  lemma StepKeepsPlayFailed(st: State, h: Handler, msg: Msg, env: Env, elapsed: nat)
    requires ValidState(st) && st.status == PlayFailed
    ensures Step(st, h, msg, env, elapsed).state.status == PlayFailed
  {
  }

  /**
    Over any sequence of deliveries the cursor never moves backward, and an
    item once processed stays processed.
  */
  lemma {:induction false} RunMonotone(st: State, env: Env, ds: seq<Delivery>)
    requires ValidState(st)
    ensures Position(Run(st, env, ds).cursor) >= Position(st.cursor)
    ensures forall j :: Processed(st.items, j) ==> Processed(Run(st, env, ds).items, j)
    decreases |ds|
  {
    if ds != [] {
      var next := Step(st, ds[0].handler, ds[0].msg, env, ds[0].elapsed).state;
      StepMonotone(st, ds[0].handler, ds[0].msg, env, ds[0].elapsed);
      StepKeepsValid(st, ds[0].handler, ds[0].msg, env, ds[0].elapsed);
      RunMonotone(next, env, ds[1..]);
    }
  }

  /** Over any sequence of deliveries a failed scenario stays failed. */
  lemma {:induction false} RunKeepsPlayFailed(st: State, env: Env, ds: seq<Delivery>)
    requires ValidState(st) && st.status == PlayFailed
    ensures Run(st, env, ds).status == PlayFailed
    decreases |ds|
  {
    if ds != [] {
      var next := Step(st, ds[0].handler, ds[0].msg, env, ds[0].elapsed).state;
      StepKeepsPlayFailed(st, ds[0].handler, ds[0].msg, env, ds[0].elapsed);
      StepKeepsValid(st, ds[0].handler, ds[0].msg, env, ds[0].elapsed);
      RunKeepsPlayFailed(next, env, ds[1..]);
    }
  }

  /**
    A failed scenario still advances: a matching message after the failure
    moves the cursor and marks the item processed, while the status stays
    PLAY_FAILED.
  */
  lemma FailedScenarioStillAdvances()
    ensures var played := MsgItem(OtherKind(0), true, true, Msg([]), [], false, 0);
            var expected := MsgItem(NasDownlinkDataReq, false, false, Msg([1]), [], false, 0);
            var st := State([played, expected], Some(0), PlayFailed);
            var env := Env((g, m) => 0, (kind, e, m) => e == m, (i, s) => None);
            ValidState(st) &&
            Step(st, NasDownlinkDataReqHandler, Msg([1]), env, 7).state
              == State([played, expected.(isProcessed := true, timeStamp := 7)], Some(1), PlayFailed)
  {
    var played := MsgItem(OtherKind(0), true, true, Msg([]), [], false, 0);
    var expected := MsgItem(NasDownlinkDataReq, false, false, Msg([1]), [], false, 0);
    var st := State([played, expected], Some(0), PlayFailed);
    assert Stamp(st.items, 1, 7) == [played, expected.(timeStamp := 7)];
  }
}
