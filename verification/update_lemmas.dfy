/** Properties of the update protocol stated over whole change sets: what is
    skipped, what is applied, what the returned flag means, and how updates
    relate to reloading the channel's configuration. */
module UpdateLemmas {
  import opened Values
  import opened Parameters
  import opened LevelReverse

  /** A change set in which every entry is outside the namespace or equal to
      the snapshot (the empty change set among them) leaves the handler as it
      is and reports no update. */
  lemma UpdateWithoutEffect(h: Handler, snapshot: Configuration, changes: Configuration, order: seq<string>)
    requires IsEnumeration(order, changes)
    requires forall key :: key in changes ==> !StartsWith(key, Namespace) || changes[key] == Lookup(snapshot, key)
    ensures UpdateConfiguration(h, snapshot, changes, order) == Success(Update(h, false))
  {
  }

  /** A boolean on/off entry that differs from the snapshot sets the on/off
      flag to that value and reports an update; a percent entry that is absent
      or equal to the snapshot leaves the percent flag untouched. */
  lemma OnOffChangeApplied(h: Handler, snapshot: Configuration, changes: Configuration, order: seq<string>, b: bool)
    requires IsEnumeration(order, changes)
    requires ReverseOnOffKey in changes && changes[ReverseOnOffKey] == BoolValue(b)
    requires BoolValue(b) != Lookup(snapshot, ReverseOnOffKey)
    requires ReversePercentKey !in changes || changes[ReversePercentKey] == Lookup(snapshot, ReversePercentKey)
    ensures UpdateConfiguration(h, snapshot, changes, order) == Success(Update(h.(reverseOnOff := b), true))
  {
  }

  /** The same for a boolean percent entry. */
  lemma PercentChangeApplied(h: Handler, snapshot: Configuration, changes: Configuration, order: seq<string>, b: bool)
    requires IsEnumeration(order, changes)
    requires ReversePercentKey in changes && changes[ReversePercentKey] == BoolValue(b)
    requires BoolValue(b) != Lookup(snapshot, ReversePercentKey)
    requires ReverseOnOffKey !in changes || changes[ReverseOnOffKey] == Lookup(snapshot, ReverseOnOffKey)
    ensures UpdateConfiguration(h, snapshot, changes, order) == Success(Update(h.(reversePercent := b), true))
  {
  }

  /** A changed recognised entry that is not a boolean makes the update throw. */
  lemma NonBooleanChangeThrows(h: Handler, snapshot: Configuration, changes: Configuration, order: seq<string>, key: string)
    requires IsEnumeration(order, changes)
    requires Recognised(key) && key in changes
    requires !changes[key].BoolValue? && changes[key] != Lookup(snapshot, key)
    ensures UpdateConfiguration(h, snapshot, changes, order).Failure?
  {
  }

  /** An entry under any key other than the two recognised ones, inside the
      namespace or outside it, changes neither the outcome nor the result flag. */
  lemma OtherKeysIrrelevant(h: Handler, snapshot: Configuration, changes: Configuration, order: seq<string>,
                            key: string, v: Value, order': seq<string>)
    requires !Recognised(key)
    requires IsEnumeration(order, changes)
    requires IsEnumeration(order', changes[key := v])
    ensures UpdateConfiguration(h, snapshot, changes[key := v], order').Success?
        <==> UpdateConfiguration(h, snapshot, changes, order).Success?
    ensures UpdateConfiguration(h, snapshot, changes[key := v], order').Success? ==>
      UpdateConfiguration(h, snapshot, changes[key := v], order').value
        == UpdateConfiguration(h, snapshot, changes, order).value
  {
  }

  /** Whether an update succeeds, and the handler and flag it yields, do not
      depend on the order in which the change map is visited. */
  lemma OrderIrrelevant(h: Handler, snapshot: Configuration, changes: Configuration, order: seq<string>, order': seq<string>)
    requires IsEnumeration(order, changes) && IsEnumeration(order', changes)
    ensures UpdateConfiguration(h, snapshot, changes, order).Success?
        <==> UpdateConfiguration(h, snapshot, changes, order').Success?
    ensures UpdateConfiguration(h, snapshot, changes, order).Success? ==>
      UpdateConfiguration(h, snapshot, changes, order).value == UpdateConfiguration(h, snapshot, changes, order').value
  {
  }

  /** The update never hides a change: a flag that moved is always reported,
      and an unreported update left the handler as it was. */
  lemma ChangedFlagIsReported(h: Handler, snapshot: Configuration, changes: Configuration, order: seq<string>)
    requires IsEnumeration(order, changes)
    ensures var r := UpdateConfiguration(h, snapshot, changes, order);
      r.Success? && r.value.handler != h ==> r.value.updated
    ensures var r := UpdateConfiguration(h, snapshot, changes, order);
      r.Success? && !r.value.updated ==> r.value.handler == h
  {
  }

  /** The comparison is with the snapshot, not with the handler's flags: for
      any handler and any snapshot without the on/off key, a change setting
      that key to the value the flag already holds reports an update although
      nothing moves. */
  lemma ReportsDifferenceFromSnapshot(h: Handler, snapshot: Configuration)
    requires ReverseOnOffKey !in snapshot
    ensures UpdateConfiguration(h, snapshot, map[ReverseOnOffKey := BoolValue(h.reverseOnOff)], [ReverseOnOffKey])
        == Success(Update(h, true))
  {
  }

  /** Which exception a change set with two bad recognised entries raises
      depends on the order the change map is visited in. */
  lemma FaultDependsOnOrder()
    ensures var snapshot := map[ReverseOnOffKey := BoolValue(false), ReversePercentKey := BoolValue(false)];
      var changes := map[ReverseOnOffKey := Null, ReversePercentKey := OtherValue("x")];
      && UpdateConfiguration(Initial, snapshot, changes, [ReverseOnOffKey, ReversePercentKey]) == Failure(NullPointer)
      && UpdateConfiguration(Initial, snapshot, changes, [ReversePercentKey, ReverseOnOffKey]) == Failure(ClassCast)
  {
  }

  /** Even for a handler loaded from the snapshot: a key absent from the
      snapshot, changed to its default, is reported although no flag moves. */
  lemma ReportsAbsentKeySetToDefault()
    ensures Load(map[]) == Success(Handler(false, false, 1))
    ensures UpdateConfiguration(Handler(false, false, 1), map[], map[ReversePercentKey := BoolValue(false)], [ReversePercentKey])
        == Success(Update(Handler(false, false, 1), true))
  {
  }

  /** For a handler loaded from a snapshot that holds both keys, the result
      flag is true exactly when a flag moved. */
  lemma UpdatedIffFlagMoved(snapshot: Configuration, h: Handler, changes: Configuration, order: seq<string>)
    requires Load(snapshot) == Success(h)
    requires ReverseOnOffKey in snapshot && ReversePercentKey in snapshot
    requires IsEnumeration(order, changes)
    ensures var r := UpdateConfiguration(h, snapshot, changes, order);
      r.Success? ==> (r.value.updated <==> r.value.handler != h)
  {
  }

  /** Updating a handler loaded from the snapshot gives the handler that
      loading the snapshot overwritten by the changes would give. */
  lemma UpdateAgreesWithReload(snapshot: Configuration, h: Handler, changes: Configuration, order: seq<string>)
    requires Load(snapshot) == Success(h)
    requires Load(snapshot + changes).Success?
    requires IsEnumeration(order, changes)
    ensures UpdateConfiguration(h, snapshot, changes, order).Success?
    ensures UpdateConfiguration(h, snapshot, changes, order).value.handler == Load(snapshot + changes).value
  {
  }

  // ---------------------------------------------------------------------
  // The handler's lifetime

  /** One call of the update protocol, with the order its change map is visited in. */
  datatype UpdateCall = UpdateCall(snapshot: Configuration, changes: Configuration, order: seq<string>)

  predicate ValidCalls(calls: seq<UpdateCall>)
  {
    forall i :: 0 <= i < |calls| ==> IsEnumeration(calls[i].order, calls[i].changes)
  }

  /** The handler after a sequence of update calls, or the first exception. */
  function Replay(h: Handler, calls: seq<UpdateCall>): Result<Handler>
    requires ValidCalls(calls)
    decreases |calls|
  {
    if calls == [] then Success(h)
    else
      match UpdateConfiguration(h, calls[0].snapshot, calls[0].changes, calls[0].order)
      case Failure(f) => Failure(f)
      case Success(u) => Replay(u.handler, calls[1..])
  }

  /** No update writes the reporting-change threshold. */
  lemma {:induction false} ReplayKeepsReportingChange(h: Handler, calls: seq<UpdateCall>)
    requires ValidCalls(calls)
    ensures Replay(h, calls).Success? ==> GetReportingChange(Replay(h, calls).value) == GetReportingChange(h)
    decreases |calls|
  {
    if calls != [] {
      match UpdateConfiguration(h, calls[0].snapshot, calls[0].changes, calls[0].order)
      case Failure(f) =>
      case Success(u) =>
        assert ValidCalls(calls[1..]);
        ReplayKeepsReportingChange(u.handler, calls[1..]);
    }
  }

  /** `getReportingChange` returns 1 throughout a handler's life. */
  lemma ReportingChangeAlwaysOne(config: Configuration, calls: seq<UpdateCall>)
    requires Load(config).Success?
    requires ValidCalls(calls)
    ensures Replay(Load(config).value, calls).Success? ==> GetReportingChange(Replay(Load(config).value, calls).value) == 1
  {
    ReplayKeepsReportingChange(Load(config).value, calls);
  }
}
