/**
 The SIM identity cache of pkg/manager/snapshot.go: writers hand in the generation they captured before
 their query, and every reset moves to a new generation.
 */
module Identities {
  import opened Bytes

  /** Empty strings and nil pointers of the source are None. Static fields survive a SIM change. */
  datatype Ids<T> = Ids(
    imei: Option<T>, firmware: Option<T>, hardware: Option<T>, manufacturer: Option<T>, model: Option<T>, mode: Option<T>,
    iccid: Option<T>, imsi: Option<T>, smsc: Option<T>, simInserted: Option<T>)
  {
    predicate HasStatic() {
      imei.Some? || firmware.Some? || hardware.Some? || manufacturer.Some? || model.Some? || mode.Some?
    }

    /** The SMSC does not make the SIM identity ready. */
    predicate HasSim() {
      iccid.Some? || imsi.Some? || simInserted.Some?
    }

    function WithoutSim(): Ids<T> {
      this.(iccid := None, imsi := None, smsc := None, simInserted := None)
    }
  }

  function NoIds<T>(): Ids<T> {
    Ids(None, None, None, None, None, None, None, None, None, None)
  }

  function Or<T>(update: Option<T>, kept: Option<T>): Option<T> {
    if update.Some? then update else kept
  }

  /** Fields the update carries replace the stored ones; the others stay. */
  function Merge<T>(kept: Ids<T>, update: Ids<T>): Ids<T> {
    Ids(Or(update.imei, kept.imei), Or(update.firmware, kept.firmware), Or(update.hardware, kept.hardware),
        Or(update.manufacturer, kept.manufacturer), Or(update.model, kept.model), Or(update.mode, kept.mode),
        Or(update.iccid, kept.iccid), Or(update.imsi, kept.imsi), Or(update.smsc, kept.smsc),
        Or(update.simInserted, kept.simInserted))
  }

  datatype Cache<T> = Cache(ids: Ids<T>, staticReady: bool, simReady: bool, generation: nat) {
    function Update(update: Ids<T>): Cache<T> {
      var merged := Merge(ids, update);
      this.(ids := merged, staticReady := merged.HasStatic(), simReady := merged.HasSim())
    }

    /** A write whose generation is no longer current is dropped whole. */
    function UpdateIfGeneration(update: Ids<T>, captured: nat): Cache<T> {
      if captured != generation then this else Update(update)
    }

    function ResetIdentities(clearAll: bool): Cache<T> {
      if clearAll then Cache(NoIds(), false, false, generation + 1)
      else this.(ids := ids.WithoutSim(), simReady := false, generation := generation + 1)
    }
  }

  function EmptyCache<T>(): Cache<T> {
    Cache(NoIds(), false, false, 0)
  }

  class DeviceSnapshot<T> {
    var ids: Ids<T>
    var staticReady: bool
    var simReady: bool
    var generation: nat

    ghost function State(): Cache<T>
      reads this
    {
      Cache(ids, staticReady, simReady, generation)
    }

    constructor ()
      ensures State() == EmptyCache()
    {
      ids, staticReady, simReady, generation := NoIds(), false, false, 0;
    }

    method UpdateIdentitiesIfGeneration(update: Ids<T>, captured: nat) returns (accepted: bool)
      modifies this
      ensures accepted == (captured == old(generation))
      ensures State() == old(State()).UpdateIfGeneration(update, captured)
    {
      if captured != generation {
        return false;
      }
      ids := ids.(imei := Or(update.imei, ids.imei));
      ids := ids.(iccid := Or(update.iccid, ids.iccid));
      ids := ids.(imsi := Or(update.imsi, ids.imsi));
      ids := ids.(smsc := Or(update.smsc, ids.smsc));
      ids := ids.(firmware := Or(update.firmware, ids.firmware));
      ids := ids.(hardware := Or(update.hardware, ids.hardware));
      ids := ids.(manufacturer := Or(update.manufacturer, ids.manufacturer));
      ids := ids.(model := Or(update.model, ids.model));
      ids := ids.(mode := Or(update.mode, ids.mode));
      ids := ids.(simInserted := Or(update.simInserted, ids.simInserted));
      staticReady := ids.HasStatic();
      simReady := ids.HasSim();
      return true;
    }

    method ResetIdentities(clearAll: bool)
      modifies this
      ensures State() == old(State()).ResetIdentities(clearAll)
    {
      generation := generation + 1;
      if clearAll {
        ids, staticReady, simReady := NoIds(), false, false;
      } else {
        ids := ids.(iccid := None, imsi := None, smsc := None, simInserted := None);
        simReady := false;
      }
    }

    /** `Reset` clears the same SIM fields as a partial identity reset and bumps the generation last. */
    method Reset()
      modifies this
      ensures State() == old(State()).ResetIdentities(false)
    {
      ids := ids.(iccid := None, imsi := None, smsc := None, simInserted := None);
      simReady := false;
      generation := generation + 1;
    }
  }

  // ---------------------------------------------------------------- field by field

  /**
   An update with the current generation replaces exactly the fields it carries, each by its own value, and
   both flags say what is stored afterwards; one with any other generation changes nothing.
   */
  lemma UpdateFieldByField<T>(c: Cache<T>, u: Ids<T>, captured: nat)
    ensures captured != c.generation ==> c.UpdateIfGeneration(u, captured) == c
    ensures captured == c.generation ==>
              var d := c.UpdateIfGeneration(u, captured);
              && d.generation == c.generation
              && d.ids.imei == (if u.imei.Some? then u.imei else c.ids.imei)
              && d.ids.firmware == (if u.firmware.Some? then u.firmware else c.ids.firmware)
              && d.ids.hardware == (if u.hardware.Some? then u.hardware else c.ids.hardware)
              && d.ids.manufacturer == (if u.manufacturer.Some? then u.manufacturer else c.ids.manufacturer)
              && d.ids.model == (if u.model.Some? then u.model else c.ids.model)
              && d.ids.mode == (if u.mode.Some? then u.mode else c.ids.mode)
              && d.ids.iccid == (if u.iccid.Some? then u.iccid else c.ids.iccid)
              && d.ids.imsi == (if u.imsi.Some? then u.imsi else c.ids.imsi)
              && d.ids.smsc == (if u.smsc.Some? then u.smsc else c.ids.smsc)
              && d.ids.simInserted == (if u.simInserted.Some? then u.simInserted else c.ids.simInserted)
              && FlagsSay(d)
  {
  }

  /** Static identity: any of six fields. SIM identity: ICCID, IMSI or the insertion state, but not the SMSC. */
  ghost predicate FlagsSay<T>(c: Cache<T>) {
    && (c.staticReady <==>
          || c.ids.imei.Some? || c.ids.firmware.Some? || c.ids.hardware.Some?
          || c.ids.manufacturer.Some? || c.ids.model.Some? || c.ids.mode.Some?)
    && (c.simReady <==> c.ids.iccid.Some? || c.ids.imsi.Some? || c.ids.simInserted.Some?)
  }

  /** A reset moves to the next generation and clears the four SIM fields; only a full one clears the rest. */
  lemma ResetFieldByField<T>(c: Cache<T>, clearAll: bool)
    ensures
      var d := c.ResetIdentities(clearAll);
      && d.generation == c.generation + 1 && !d.simReady
      && d.ids.iccid == None && d.ids.imsi == None && d.ids.smsc == None && d.ids.simInserted == None
      && if clearAll then
           && d.ids.imei == None && d.ids.firmware == None && d.ids.hardware == None
           && d.ids.manufacturer == None && d.ids.model == None && d.ids.mode == None && !d.staticReady
         else
           && d.ids.imei == c.ids.imei && d.ids.firmware == c.ids.firmware && d.ids.hardware == c.ids.hardware
           && d.ids.manufacturer == c.ids.manufacturer && d.ids.model == c.ids.model && d.ids.mode == c.ids.mode
           && d.staticReady == c.staticReady
  {
  }

  // ---------------------------------------------------------------- concurrent queries and resets

  type QueryId = nat

  datatype Field = Imei | Firmware | Hardware | Manufacturer | Model | OperatingMode | Iccid | Imsi | Smsc | Inserted

  /** A value as the model sees it: which query obtained it, and as what. */
  datatype Stamp = Stamp(query: QueryId, field: Field)

  /**
   Stored values are stamped with the query and the field they were obtained for. `capturedAt` is the number of resets that had
   happened when the query captured its generation; `resets` is the number so far.
   */
  datatype System = System(cache: Cache<Stamp>, captured: map<QueryId, nat>, capturedAt: map<QueryId, nat>, resets: nat)

  const INITIAL := System(EmptyCache(), map[], map[], 0)

  datatype Step =
    | Capture(q: QueryId)
    | Write(q: QueryId, fields: Ids<bool>)   // which fields the query obtained
    | ResetSim
    | ResetAll

  predicate Enabled(s: System, step: Step) {
    match step
    case Capture(q) => q !in s.captured
    case Write(q, _) => q in s.captured
    case ResetSim => true
    case ResetAll => true
  }

  function Tag(q: QueryId, field: Field, obtained: Option<bool>): Option<Stamp> {
    if obtained.Some? then Some(Stamp(q, field)) else None
  }

  function TagAll(q: QueryId, f: Ids<bool>): Ids<Stamp> {
    Ids(Tag(q, Imei, f.imei), Tag(q, Firmware, f.firmware), Tag(q, Hardware, f.hardware),
        Tag(q, Manufacturer, f.manufacturer), Tag(q, Model, f.model), Tag(q, OperatingMode, f.mode),
        Tag(q, Iccid, f.iccid), Tag(q, Imsi, f.imsi), Tag(q, Smsc, f.smsc), Tag(q, Inserted, f.simInserted))
  }

  function Apply(s: System, step: Step): System
    requires Enabled(s, step)
  {
    match step
    case Capture(q) =>
      s.(captured := s.captured[q := s.cache.generation], capturedAt := s.capturedAt[q := s.resets])
    case Write(q, f) => s.(cache := s.cache.UpdateIfGeneration(TagAll(q, f), s.captured[q]))
    case ResetSim => s.(cache := s.cache.ResetIdentities(false), resets := s.resets + 1)
    case ResetAll => s.(cache := s.cache.ResetIdentities(true), resets := s.resets + 1)
  }

  /** The value, if any, was obtained as this field by a query that captured its generation after the latest reset. */
  ghost predicate FreshAs(s: System, field: Field, value: Option<Stamp>) {
    value.Some? ==>
      value.value.field == field && value.value.query in s.capturedAt && s.capturedAt[value.value.query] == s.resets
  }

  ghost predicate SimFieldsFresh(s: System) {
    var ids := s.cache.ids;
    FreshAs(s, Iccid, ids.iccid) && FreshAs(s, Imsi, ids.imsi) && FreshAs(s, Smsc, ids.smsc) && FreshAs(s, Inserted, ids.simInserted)
  }

  predicate ObtainedAs(field: Field, value: Option<Stamp>) {
    value.Some? ==> value.value.field == field
  }

  /** Static fields survive a SIM change, but they too hold what was obtained as them. */
  ghost predicate StaticFieldsInPlace(s: System) {
    var ids := s.cache.ids;
    && ObtainedAs(Imei, ids.imei) && ObtainedAs(Firmware, ids.firmware) && ObtainedAs(Hardware, ids.hardware)
    && ObtainedAs(Manufacturer, ids.manufacturer) && ObtainedAs(Model, ids.model) && ObtainedAs(OperatingMode, ids.mode)
  }

  ghost predicate Inv(s: System) {
    && SimFieldsFresh(s)
    && StaticFieldsInPlace(s) && FlagsSay(s.cache)
    && s.captured.Keys == s.capturedAt.Keys
    && (forall q :: q in s.captured ==> s.capturedAt[q] <= s.resets)
    && (forall q :: q in s.captured ==> (s.captured[q] == s.cache.generation <==> s.capturedAt[q] == s.resets))
    && (forall q :: q in s.captured ==> s.captured[q] <= s.cache.generation)
  }

  lemma StepKeepsInv(s: System, step: Step)
    requires Inv(s) && Enabled(s, step)
    ensures Inv(Apply(s, step))
  {
  }

  function Run(s: System, steps: seq<Step>): Option<System>
    decreases |steps|
  {
    if steps == [] then Some(s)
    else if Enabled(s, steps[0]) then Run(Apply(s, steps[0]), steps[1..])
    else None
  }

  lemma {:induction false} RunKeepsInv(s: System, steps: seq<Step>)
    requires Inv(s) && Run(s, steps).Some?
    ensures Inv(Run(s, steps).value)
    decreases |steps|
  {
    hide Inv, Apply, Enabled;
    if steps == [] {
    } else {
      StepKeepsInv(s, steps[0]);
      RunKeepsInv(Apply(s, steps[0]), steps[1..]);
    }
  }

  /**
   No schedule of queries and resets leaves a SIM field from before the latest reset, a value in a field it
   was not obtained for, or a wrong flag.
   */
  lemma NoStaleSimIdentity(steps: seq<Step>)
    requires Run(INITIAL, steps).Some?
    ensures
      var s := Run(INITIAL, steps).value;
      SimFieldsFresh(s) && StaticFieldsInPlace(s) && FlagsSay(s.cache)
  {
    RunKeepsInv(INITIAL, steps);
  }

  /** A reset shuts out every query in flight for good: whenever it writes later, nothing changes. */
  lemma ResetShutsOutQueriesInFlight(s: System, reset: Step, steps: seq<Step>, q: QueryId, fields: Ids<bool>)
    requires Inv(s) && (reset == ResetSim || reset == ResetAll) && q in s.captured
    requires Run(Apply(s, reset), steps).Some?
    ensures
      var t := Run(Apply(s, reset), steps).value;
      Enabled(t, Write(q, fields)) && Apply(t, Write(q, fields)) == t
  {
    StepKeepsInv(s, reset);
    var r := Apply(s, reset);
    assert r.captured[q] < r.cache.generation;
    StaleStaysStale(r, steps, q);
  }

  lemma {:induction false} StaleStaysStale(s: System, steps: seq<Step>, q: QueryId)
    requires q in s.captured && s.captured[q] < s.cache.generation && Run(s, steps).Some?
    ensures
      var t := Run(s, steps).value;
      q in t.captured && t.captured[q] < t.cache.generation
    decreases |steps|
  {
    if steps == [] {
    } else {
      StaleStaysStale(Apply(s, steps[0]), steps[1..], q);
    }
  }
}
