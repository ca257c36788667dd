/** One level-control channel's reverse configuration: the two inversion
    flags and the reporting-change threshold, how they are loaded from the
    channel's configuration, and how a change set updates them. */
module LevelReverse {
  import opened Values
  import opened Parameters

  /** The handler's state. `reportingChange` is set once and never written again. */
  datatype Handler = Handler(reverseOnOff: bool, reversePercent: bool, reportingChange: int)

  /** The field initialisers, before the constructor reads the configuration. */
  const Initial: Handler := Handler(ReverseOnOffDefault, ReversePercentDefault, 1)

  /** `shouldInvertOnOff`. */
  function ShouldInvertOnOff(h: Handler): (r: bool)
    ensures r == h.reverseOnOff
  {
    h.reverseOnOff
  }

  /** `shouldInvertPercent`. */
  function ShouldInvertPercent(h: Handler): (r: bool)
    ensures r == h.reversePercent
  {
    h.reversePercent
  }

  /** `getReportingChange`. */
  function GetReportingChange(h: Handler): (r: int)
    ensures r == h.reportingChange
  {
    h.reportingChange
  }

  /** `initialize`: nothing to set up on the cluster, so it always succeeds. */
  function Initialize(h: Handler): (ok: bool)
    ensures ok
  {
    true
  }

  /** Reads the flag stored under `key`, keeping `fallback` when the key is absent. */
  function ReadFlag(config: Configuration, key: string, fallback: bool): Result<bool>
  {
    if key in config then Unbox(config[key]) else Success(fallback)
  }

  /** A configuration whose recognised entries, if present, are booleans. */
  predicate FlagsAreBoolean(config: Configuration)
  {
    && (ReverseOnOffKey in config ==> config[ReverseOnOffKey].BoolValue?)
    && (ReversePercentKey in config ==> config[ReversePercentKey].BoolValue?)
  }

  /** The constructor: each recognised key present in the channel's
      configuration sets its own flag; the on/off key is read first, so a
      bad value there is the one that throws. */
  function Load(config: Configuration): (r: Result<Handler>)
    ensures r.Success? <==> FlagsAreBoolean(config)
    ensures r.Success? ==>
      ShouldInvertOnOff(r.value) == (if ReverseOnOffKey in config then config[ReverseOnOffKey].b else ReverseOnOffDefault)
    ensures r.Success? ==>
      ShouldInvertPercent(r.value) == (if ReversePercentKey in config then config[ReversePercentKey].b else ReversePercentDefault)
    ensures r.Success? ==> GetReportingChange(r.value) == 1
    ensures r.Failure? && ReverseOnOffKey in config && !config[ReverseOnOffKey].BoolValue? ==>
      r.fault == FaultOf(config[ReverseOnOffKey])
    ensures r.Failure? && !(ReverseOnOffKey in config && !config[ReverseOnOffKey].BoolValue?) ==>
      ReversePercentKey in config && !config[ReversePercentKey].BoolValue? &&
      r.fault == FaultOf(config[ReversePercentKey])
  {
    match ReadFlag(config, ReverseOnOffKey, Initial.reverseOnOff)
    case Failure(f) => Failure(f)
    case Success(onOff) =>
      match ReadFlag(config, ReversePercentKey, Initial.reversePercent)
      case Failure(f) => Failure(f)
      case Success(percent) => Success(Initial.(reverseOnOff := onOff, reversePercent := percent))
  }

  /** A configuration with neither key leaves both flags at their defaults. */
  lemma LoadWithoutKeys(config: Configuration)
    requires ReverseOnOffKey !in config && ReversePercentKey !in config
    ensures Load(config) == Success(Handler(false, false, 1))
  {
  }

  /** Entries under any other key do not influence the constructor. */
  lemma LoadIgnoresOtherKeys(config: Configuration, key: string, v: Value)
    requires !Recognised(key)
    ensures Load(config[key := v]) == Load(config)
  {
  }

  /** The catalogue's defaults are exactly the flags a configuration without
      either key loads to. */
  lemma CatalogueDefaultsMatchLoad()
    ensures Load(map[]).Success?
    ensures GetConfiguration()[0].defaultText == BoolText(ShouldInvertOnOff(Load(map[]).value))
    ensures GetConfiguration()[1].defaultText == BoolText(ShouldInvertPercent(Load(map[]).value))
  {
  }

  // ---------------------------------------------------------------------
  // The update protocol

  /** The handler after an update, and whether any recognised key was applied. */
  datatype Update = Update(handler: Handler, updated: bool)

  /** One entry of the change set. Keys outside the namespace, and values
      equal to the snapshot's value for the key, are skipped; a recognised
      key sets its flag (or throws on a non-boolean value); any other key in
      the namespace only draws a warning. */
  function ApplyEntry(h: Handler, snapshot: Configuration, key: string, v: Value): Result<Update>
  {
    if !StartsWith(key, Namespace) then Success(Update(h, false))
    else if v == Lookup(snapshot, key) then Success(Update(h, false))
    else if key == ReverseOnOffKey then
      match Unbox(v)
      case Failure(f) => Failure(f)
      case Success(b) => Success(Update(h.(reverseOnOff := b), true))
    else if key == ReversePercentKey then
      match Unbox(v)
      case Failure(f) => Failure(f)
      case Success(b) => Success(Update(h.(reversePercent := b), true))
    else Success(Update(h, false))
  }

  /** The loop over the change set's entries, visited in `order`, with
      `updated` the flag accumulated so far. */
  function ApplyEntries(h: Handler, snapshot: Configuration, changes: Configuration,
                        order: seq<string>, updated: bool): Result<Update>
    requires forall i :: 0 <= i < |order| ==> order[i] in changes
    decreases |order|
  {
    if order == [] then Success(Update(h, updated))
    else
      match ApplyEntry(h, snapshot, order[0], changes[order[0]])
      case Failure(f) => Failure(f)
      case Success(step) => ApplyEntries(step.handler, snapshot, changes, order[1..], updated || step.updated)
  }

  /** `order` lists each key of `changes` exactly once: one possible
      iteration order of the change map's entries. */
  predicate IsEnumeration(order: seq<string>, changes: Configuration)
  {
    && (forall i, j :: 0 <= i < j < |order| ==> order[i] != order[j])
    && (forall i :: 0 <= i < |order| ==> order[i] in changes)
    && (forall key :: key in changes ==> key in order)
  }

  /** The change the update acts on for `key`: present in the change set and
      different from the snapshot's value, an absent snapshot key reading as null. */
  function Applied(snapshot: Configuration, changes: Configuration, key: string): Option<Value>
  {
    if key in changes && changes[key] != Lookup(snapshot, key) then Some(changes[key]) else None
  }

  /** A flag after a change `a` is acted on. */
  function FlagAfter(flag: bool, a: Option<Value>): bool
  {
    if a.Some? && a.value.BoolValue? then a.value.b else flag
  }

  /** A change the cast to boolean accepts (or no change at all). */
  predicate Castable(a: Option<Value>)
  {
    a.None? || a.value.BoolValue?
  }

  /** The reference meaning of an update, independent of iteration order:
      each flag takes the boolean value of its own changed entry, and the
      result reports whether either recognised key was changed relative to
      the snapshot. `None` when a changed recognised entry is not a boolean. */
  function UpdateSpec(h: Handler, snapshot: Configuration, changes: Configuration): Option<Update>
  {
    var onOff := Applied(snapshot, changes, ReverseOnOffKey);
    var percent := Applied(snapshot, changes, ReversePercentKey);
    if Castable(onOff) && Castable(percent) then
      Some(Update(h.(reverseOnOff := FlagAfter(h.reverseOnOff, onOff),
                     reversePercent := FlagAfter(h.reversePercent, percent)),
                  onOff.Some? || percent.Some?))
    else None
  }

  /** The change acted on for `key` among the entries listed in `order`. */
  function AppliedWithin(snapshot: Configuration, changes: Configuration, order: seq<string>, key: string): Option<Value>
  {
    if key in order then Applied(snapshot, changes, key) else None
  }

  /** A failure raised by the cast of the changed entry `a`. */
  predicate RaisedBy(f: Fault, a: Option<Value>)
  {
    a.Some? && !a.value.BoolValue? && f == FaultOf(a.value)
  }

  /** The change acted on for `key` when visiting the single entry `visited`. */
  function AppliedAt(snapshot: Configuration, changes: Configuration, visited: string, key: string): Option<Value>
  {
    if visited == key then Applied(snapshot, changes, key) else None
  }

  /** One entry's effect: only a recognised key that differs from the
      snapshot changes a flag or the result, and only its own flag. */
  lemma ApplyEntryEffect(h: Handler, snapshot: Configuration, changes: Configuration, key: string)
    requires key in changes
    ensures var r := ApplyEntry(h, snapshot, key, changes[key]);
      var onOff := AppliedAt(snapshot, changes, key, ReverseOnOffKey);
      var percent := AppliedAt(snapshot, changes, key, ReversePercentKey);
      && (r.Success? <==> Castable(onOff) && Castable(percent))
      && (r.Success? ==> r.value == Update(h.(reverseOnOff := FlagAfter(h.reverseOnOff, onOff),
                                              reversePercent := FlagAfter(h.reversePercent, percent)),
                                           onOff.Some? || percent.Some?))
      && (r.Failure? ==> RaisedBy(r.fault, onOff) || RaisedBy(r.fault, percent))
  {
  }

  /** Acting on the same change once or twice is the same: the head entry
      and the rest of the visit combine into the visit of the whole list. */
  lemma CombineVisits(a: Option<Value>, first: Option<Value>, later: Option<Value>, whole: Option<Value>, flag: bool)
    requires first == a || first == None
    requires later == a || later == None
    requires whole == (if first.Some? || later.Some? then a else None)
    ensures Castable(whole) <==> Castable(first) && Castable(later)
    ensures FlagAfter(FlagAfter(flag, first), later) == FlagAfter(flag, whole)
    ensures whole.Some? <==> first.Some? || later.Some?
    ensures forall f :: RaisedBy(f, first) || RaisedBy(f, later) ==> RaisedBy(f, whole)
  {
  }

  /** The loop's effect after visiting the entries listed in `order`: each
      flag ends at the value of its own changed entry among them, whatever
      the order, and a failure comes from a changed recognised entry that is
      not a boolean. */
  lemma {:induction false} ApplyEntriesEffect(h: Handler, snapshot: Configuration, changes: Configuration,
                                              order: seq<string>, updated: bool)
    requires forall i :: 0 <= i < |order| ==> order[i] in changes
    ensures var r := ApplyEntries(h, snapshot, changes, order, updated);
      var onOff := AppliedWithin(snapshot, changes, order, ReverseOnOffKey);
      var percent := AppliedWithin(snapshot, changes, order, ReversePercentKey);
      && (r.Success? <==> Castable(onOff) && Castable(percent))
      && (r.Success? ==> r.value == Update(h.(reverseOnOff := FlagAfter(h.reverseOnOff, onOff),
                                              reversePercent := FlagAfter(h.reversePercent, percent)),
                                           updated || onOff.Some? || percent.Some?))
      && (r.Failure? ==> RaisedBy(r.fault, onOff) || RaisedBy(r.fault, percent))
    decreases |order|
  {
    if order != [] {
      var key, rest := order[0], order[1..];
      assert forall k :: k in order <==> k == key || k in rest;
      var onOff := AppliedWithin(snapshot, changes, order, ReverseOnOffKey);
      var percent := AppliedWithin(snapshot, changes, order, ReversePercentKey);
      var onOff1 := AppliedAt(snapshot, changes, key, ReverseOnOffKey);
      var percent1 := AppliedAt(snapshot, changes, key, ReversePercentKey);
      var onOff2 := AppliedWithin(snapshot, changes, rest, ReverseOnOffKey);
      var percent2 := AppliedWithin(snapshot, changes, rest, ReversePercentKey);
      CombineVisits(Applied(snapshot, changes, ReverseOnOffKey), onOff1, onOff2, onOff, h.reverseOnOff);
      CombineVisits(Applied(snapshot, changes, ReversePercentKey), percent1, percent2, percent, h.reversePercent);
      ApplyEntryEffect(h, snapshot, changes, key);
      match ApplyEntry(h, snapshot, key, changes[key])
      case Failure(f) =>
      case Success(step) =>
        ApplyEntriesEffect(step.handler, snapshot, changes, rest, updated || step.updated);
    }
  }

  /** `updateConfiguration`, with the change map visited in `order`. */
  function UpdateConfiguration(h: Handler, snapshot: Configuration, changes: Configuration,
                               order: seq<string>): (r: Result<Update>)
    requires IsEnumeration(order, changes)
    ensures r.Success? <==> UpdateSpec(h, snapshot, changes).Some?
    ensures r.Success? ==> r.value == UpdateSpec(h, snapshot, changes).value
    ensures r.Failure? ==>
      RaisedBy(r.fault, Applied(snapshot, changes, ReverseOnOffKey)) ||
      RaisedBy(r.fault, Applied(snapshot, changes, ReversePercentKey))
  {
    ApplyEntriesEffect(h, snapshot, changes, order, false);
    assert AppliedWithin(snapshot, changes, order, ReverseOnOffKey) == Applied(snapshot, changes, ReverseOnOffKey);
    assert AppliedWithin(snapshot, changes, order, ReversePercentKey) == Applied(snapshot, changes, ReversePercentKey);
    ApplyEntries(h, snapshot, changes, order, false)
  }
}
