/**
  The items of an MME scenario as the rx handlers see them: message items
  (expected or sent ITTI messages), variable items and every other kind of
  script step, plus the scenario status. Items are addressed by their position
  in the script, so `next_item` of the item at index `i` is the item at `i + 1`.
*/
module ScenarioItems {

  /** `value.value_u64` of a scenario variable. */
  const U64_LIMIT: int := 0x1_0000_0000_0000_0000
  type U64 = x: int | 0 <= x < U64_LIMIT

  /** ITTI message identifiers; only the two this file handles are named. */
  datatype MsgKind =
    | NasDownlinkDataReq
    | MmeAppConnectionEstablishmentCnf
    | OtherKind(id: nat)

  /** The content of an ITTI message; the player never interprets it here. */
  datatype Msg = Msg(body: seq<int>)

  /** Identifies a `value_getter_func` of a binding (a field selector). */
  type GetterId = nat

  /** One element of `vars_to_load`: load the variable item at `target` with `getter`. */
  datatype Binding = Binding(target: nat, getter: GetterId)

  /**
    A scenario item. For a message item, `kind` is the ITTI id of the expected
    message `template`, `dumpNeeded` is `xml_dump2struct_needed` and
    `timeStamp` is the elapsed time recorded when the item was matched.
    A variable item carries its value, its `value_changed` flag and the
    positions of the items listening to it.
  */
  datatype Item =
    | MsgItem(kind: MsgKind, isTx: bool, isProcessed: bool, template: Msg,
              varsToLoad: seq<Binding>, dumpNeeded: bool, timeStamp: nat)
    | VarItem(name: string, value: U64, changed: bool, listeners: seq<nat>)
    | OtherItem(tag: nat)

  datatype Status = Playing | Paused | PlayFailed | Completed

  predicate ListenersOk(s: seq<Item>, ls: seq<nat>)
  {
    forall k :: 0 <= k < |ls| ==> ls[k] < |s|
  }

  /** A binding as the script loader leaves it: it names a variable item whose listeners exist. */
  predicate BindingOk(s: seq<Item>, b: Binding)
  {
    b.target < |s| && s[b.target].VarItem? && ListenersOk(s, s[b.target].listeners)
  }

  predicate BindingsOk(s: seq<Item>, bs: seq<Binding>)
  {
    forall k :: 0 <= k < |bs| ==> BindingOk(s, bs[k])
  }

  /** What loading a script guarantees about the references between its items. */
  predicate WellFormed(s: seq<Item>)
  {
    forall j :: 0 <= j < |s| ==>
      (s[j].MsgItem? ==> BindingsOk(s, s[j].varsToLoad)) &&
      (s[j].VarItem? ==> ListenersOk(s, s[j].listeners))
  }

  /** `b` has the shape of `a`: the same kind of item and the same references. */
  predicate SameSkeleton(a: Item, b: Item)
  {
    match a
    case MsgItem(_, _, _, _, _, _, _) =>
      b.MsgItem? && b.kind == a.kind && b.isTx == a.isTx && b.varsToLoad == a.varsToLoad
    case VarItem(_, _, _, _) =>
      b.VarItem? && b.name == a.name && b.listeners == a.listeners
    case OtherItem(_) =>
      b == a
  }

  predicate Skeleton(s: seq<Item>, t: seq<Item>)
  {
    |s| == |t| && forall j :: 0 <= j < |s| ==> SameSkeleton(s[j], t[j])
  }

  /**
    `b` is `a` after loading variables: a variable may have a new value and
    `value_changed`, a message item may have been flagged for reloading, and
    nothing else differs.
  */
  predicate LoadEffect(a: Item, b: Item)
  {
    match a
    case MsgItem(_, _, _, _, _, _, _) =>
      b.MsgItem? && b == a.(dumpNeeded := b.dumpNeeded) && (a.dumpNeeded ==> b.dumpNeeded)
    case VarItem(_, _, _, _) =>
      b.VarItem? && b == a.(value := b.value, changed := b.changed)
    case OtherItem(_) =>
      b == a
  }

  predicate LoadEffects(s: seq<Item>, t: seq<Item>)
  {
    |s| == |t| && forall j :: 0 <= j < |s| ==> LoadEffect(s[j], t[j])
  }

  lemma LoadEffectsTransitive(s: seq<Item>, t: seq<Item>, u: seq<Item>)
    requires LoadEffects(s, t) && LoadEffects(t, u)
    ensures LoadEffects(s, u)
  {
    forall j | 0 <= j < |s| ensures LoadEffect(s[j], u[j]) {
      assert LoadEffect(s[j], t[j]) && LoadEffect(t[j], u[j]);
    }
  }

  lemma LoadEffectsKeepSkeleton(s: seq<Item>, t: seq<Item>)
    requires LoadEffects(s, t)
    ensures Skeleton(s, t)
  {
    forall j | 0 <= j < |s| ensures SameSkeleton(s[j], t[j]) {
      assert LoadEffect(s[j], t[j]);
    }
  }

  lemma SkeletonKeepsBindings(s: seq<Item>, t: seq<Item>, bs: seq<Binding>)
    requires Skeleton(s, t) && BindingsOk(s, bs)
    ensures BindingsOk(t, bs)
  {
    forall k | 0 <= k < |bs| ensures BindingOk(t, bs[k]) {
      assert BindingOk(s, bs[k]);
      assert SameSkeleton(s[bs[k].target], t[bs[k].target]);
    }
  }

  lemma SkeletonKeepsWellFormed(s: seq<Item>, t: seq<Item>)
    requires Skeleton(s, t) && WellFormed(s)
    ensures WellFormed(t)
  {
    forall j | 0 <= j < |t|
      ensures t[j].MsgItem? ==> BindingsOk(t, t[j].varsToLoad)
      ensures t[j].VarItem? ==> ListenersOk(t, t[j].listeners)
    {
      assert SameSkeleton(s[j], t[j]);
      if s[j].MsgItem? {
        SkeletonKeepsBindings(s, t, s[j].varsToLoad);
      }
    }
  }
}
