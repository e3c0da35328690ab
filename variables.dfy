/**
  What the loop over `vars_to_load` does to the scenario items, as functions
  on the item sequence, and what it guarantees: which variables end up with
  which value, that no other variable is written, and which message items are
  flagged for reloading by the listener notification.
*/
module Variables {
  import opened ScenarioItems

  /**
    The items after `msp_var_notify_listeners` has visited the listeners `ls`
    in order (what it does to each item is stated by `MarkedAt`).
  */
  function Marked(s: seq<Item>, ls: seq<nat>): (r: seq<Item>)
    requires ListenersOk(s, ls)
    ensures |r| == |s|
    decreases |ls|
  {
    if ls == [] then s else Marked(MarkOne(s, ls[0]), ls[1..])
  }

  /** The item sequence after notifying the single listener `l`. */
  function MarkOne(s: seq<Item>, l: nat): (r: seq<Item>)
    requires l < |s|
    ensures |r| == |s|
  {
    if s[l].MsgItem? then s[l := s[l].(dumpNeeded := true)] else s
  }

  lemma MarkedUnfold(s: seq<Item>, ls: seq<nat>)
    requires ListenersOk(s, ls) && ls != []
    ensures ListenersOk(MarkOne(s, ls[0]), ls[1..])
    ensures Marked(s, ls) == Marked(MarkOne(s, ls[0]), ls[1..])
  {
  }

  /**
    After notification an item is flagged `xml_dump2struct_needed` exactly
    when it is a message item among the listeners; every other item is as it was.
  */
  lemma {:induction false} MarkedAt(s: seq<Item>, ls: seq<nat>, j: nat)
    requires ListenersOk(s, ls) && j < |s|
    ensures Marked(s, ls)[j] == if j in ls && s[j].MsgItem? then s[j].(dumpNeeded := true) else s[j]
    decreases |ls|
  {
    if ls != [] {
      var s' := MarkOne(s, ls[0]);
      assert j in ls <==> j == ls[0] || j in ls[1..];
      MarkedAt(s', ls[1..], j);
    }
  }

  /** Notification only raises reload flags: every item that is not a message item stays. */
  lemma MarkedEffects(s: seq<Item>, ls: seq<nat>)
    requires ListenersOk(s, ls)
    ensures LoadEffects(s, Marked(s, ls))
    ensures forall j :: 0 <= j < |s| && !s[j].MsgItem? ==> Marked(s, ls)[j] == s[j]
  {
    forall j | 0 <= j < |s| ensures LoadEffect(s[j], Marked(s, ls)[j]) && (!s[j].MsgItem? ==> Marked(s, ls)[j] == s[j]) {
      MarkedAt(s, ls, j);
    }
  }

  /** The items once the variable item bound by `b` holds the value read from `msg`. */
  function Assigned(s: seq<Item>, b: Binding, msg: Msg, extract: (GetterId, Msg) -> U64): (r: seq<Item>)
    requires BindingOk(s, b)
    ensures LoadEffects(s, r) && BindingOk(r, b)
    ensures r[b.target] == s[b.target].(value := extract(b.getter, msg), changed := true)
    ensures forall j :: 0 <= j < |s| && j != b.target ==> r[j] == s[j]
  {
    s[b.target := s[b.target].(value := extract(b.getter, msg), changed := true)]
  }

  /** One pass of the loop body: load the bound variable, then notify its listeners. */
  function LoadOne(s: seq<Item>, b: Binding, msg: Msg, extract: (GetterId, Msg) -> U64): (r: seq<Item>)
    requires BindingOk(s, b)
    ensures LoadEffects(s, r)
  {
    var s' := Assigned(s, b, msg, extract);
    MarkedEffects(s', s[b.target].listeners);
    LoadEffectsTransitive(s, s', Marked(s', s[b.target].listeners));
    Marked(s', s[b.target].listeners)
  }

  /** The items after the whole loop over the bindings `bs`, in list order. */
  function Loaded(s: seq<Item>, bs: seq<Binding>, msg: Msg, extract: (GetterId, Msg) -> U64): (r: seq<Item>)
    requires BindingsOk(s, bs)
    ensures LoadEffects(s, r)
    decreases |bs|
  {
    if bs == [] then s
    else
      var s' := LoadOne(s, bs[0], msg, extract);
      LoadEffectsKeepSkeleton(s, s');
      SkeletonKeepsBindings(s, s', bs[1..]);
      var r := Loaded(s', bs[1..], msg, extract);
      LoadEffectsTransitive(s, s', r);
      r
  }

  /** A variable that no binding targets is not written (whatever its listeners). */
  lemma {:induction false} LoadedOnlyWritesBoundVars(s: seq<Item>, bs: seq<Binding>, msg: Msg,
                                                     extract: (GetterId, Msg) -> U64, j: nat)
    requires BindingsOk(s, bs)
    requires j < |s| && s[j].VarItem?
    requires forall k :: 0 <= k < |bs| ==> bs[k].target != j
    ensures Loaded(s, bs, msg, extract)[j] == s[j]
    decreases |bs|
  {
    if bs != [] {
      var s' := LoadOne(s, bs[0], msg, extract);
      LoadEffectsKeepSkeleton(s, s');
      SkeletonKeepsBindings(s, s', bs[1..]);
      MarkedAt(Assigned(s, bs[0], msg, extract), s[bs[0].target].listeners, j);
      assert s'[j] == s[j];
      LoadedOnlyWritesBoundVars(s', bs[1..], msg, extract, j);
    }
  }

  /**
    A binding that no later binding overrides decides its variable: the value
    comes from its getter applied to the message and `value_changed` is set;
    the variable's name and listeners stay.
  */
  lemma {:induction false} LoadedLastWins(s: seq<Item>, bs: seq<Binding>, msg: Msg,
                                          extract: (GetterId, Msg) -> U64, k: nat)
    requires BindingsOk(s, bs)
    requires k < |bs|
    requires forall k' :: k < k' < |bs| ==> bs[k'].target != bs[k].target
    ensures Loaded(s, bs, msg, extract)[bs[k].target]
         == s[bs[k].target].(value := extract(bs[k].getter, msg), changed := true)
    decreases |bs|
  {
    var t := bs[k].target;
    var s' := LoadOne(s, bs[0], msg, extract);
    LoadEffectsKeepSkeleton(s, s');
    SkeletonKeepsBindings(s, s', bs[1..]);
    assert BindingOk(s, bs[0]) && BindingOk(s, bs[k]);
    if k == 0 {
      MarkedAt(Assigned(s, bs[0], msg, extract), s[t].listeners, t);
      assert s'[t] == s[t].(value := extract(bs[0].getter, msg), changed := true);
      LoadedOnlyWritesBoundVars(s', bs[1..], msg, extract, t);
    } else {
      assert bs[1..][k - 1] == bs[k];
      LoadedLastWins(s', bs[1..], msg, extract, k - 1);
      assert LoadEffect(s[t], s'[t]);
    }
  }

  /** A message item that listens to no bound variable is not touched. */
  lemma {:induction false} LoadedOnlyMarksListeners(s: seq<Item>, bs: seq<Binding>, msg: Msg,
                                                    extract: (GetterId, Msg) -> U64, j: nat)
    requires BindingsOk(s, bs)
    requires j < |s| && s[j].MsgItem?
    requires forall k :: 0 <= k < |bs| ==> j !in s[bs[k].target].listeners
    ensures Loaded(s, bs, msg, extract)[j] == s[j]
    decreases |bs|
  {
    if bs != [] {
      var s' := LoadOne(s, bs[0], msg, extract);
      LoadEffectsKeepSkeleton(s, s');
      SkeletonKeepsBindings(s, s', bs[1..]);
      assert BindingOk(s, bs[0]);
      MarkedAt(Assigned(s, bs[0], msg, extract), s[bs[0].target].listeners, j);
      assert s'[j] == s[j];
      forall k | 0 <= k < |bs[1..]| ensures j !in s'[bs[1..][k].target].listeners {
        assert bs[1..][k] == bs[k + 1];
        assert BindingOk(s, bs[k + 1]);
        assert SameSkeleton(s[bs[k + 1].target], s'[bs[k + 1].target]);
      }
      LoadedOnlyMarksListeners(s', bs[1..], msg, extract, j);
    }
  }

  /** Every message item listening to a bound variable is flagged for reloading. */
  lemma {:induction false} LoadedMarksListeners(s: seq<Item>, bs: seq<Binding>, msg: Msg,
                                                extract: (GetterId, Msg) -> U64, k: nat, l: nat)
    requires BindingsOk(s, bs)
    requires k < |bs| && l in s[bs[k].target].listeners && s[l].MsgItem?
    ensures Loaded(s, bs, msg, extract)[l].MsgItem?
    ensures Loaded(s, bs, msg, extract)[l].dumpNeeded
    decreases |bs|
  {
    var s' := LoadOne(s, bs[0], msg, extract);
    LoadEffectsKeepSkeleton(s, s');
    SkeletonKeepsBindings(s, s', bs[1..]);
    assert BindingOk(s, bs[0]) && BindingOk(s, bs[k]);
    var r := Loaded(s, bs, msg, extract);
    if k == 0 {
      MarkedAt(Assigned(s, bs[0], msg, extract), s[bs[0].target].listeners, l);
      assert s'[l].dumpNeeded;
      var r' := Loaded(s', bs[1..], msg, extract);
      assert r == r';
      assert LoadEffect(s'[l], r'[l]);
    } else {
      assert bs[1..][k - 1] == bs[k];
      assert SameSkeleton(s[bs[k].target], s'[bs[k].target]);
      assert LoadEffect(s[l], s'[l]);
      LoadedMarksListeners(s', bs[1..], msg, extract, k - 1, l);
    }
  }
}
