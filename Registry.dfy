/**
 * The per-SIM-slot handle registry of HwImsService, as values.
 *
 * The three slot tables, the dual-IMS capability gate, the lazy get-or-create
 * operations, the supported-feature query and the one-shot singleton check are
 * stated here as functions; the class in module ImsService updates arrays in
 * place and is proved to agree with these functions.
 */
module ImsRegistry {
  import opened Wrappers

  /** Capacities of the three slot tables. */
  const FeatureSlots: nat := 2
  const RegistrationSlots: nat := 2
  const ConfigSlots: nat := 3

  /**
   * Opaque handles for the collaborator objects HwMmTelFeature, HwImsRegistration
   * and HwImsConfig. `id` stands for object identity: two handles are the same
   * object exactly when they are equal. The feature and the registration are
   * built for a slot and remember it; the config is built without one.
   */
  datatype MmTelFeature = MmTelFeature(id: nat, slotId: int)
  datatype Registration = Registration(id: nat, slotId: int)
  datatype Config = Config(id: nat)

  /**
   * What the platform reports about the hardware: whether the modem has
   * capability 21 (dual IMS) and how many phones the telephony manager counts.
   */
  datatype Device = Device(capability21: bool, phoneCount: int)

  /** The capability gate, recomputed from the device on every call. */
  predicate SupportsDualIms(device: Device)
    ensures !device.capability21 ==> !SupportsDualIms(device)
    ensures device.phoneCount <= 1 ==> !SupportsDualIms(device)
    ensures device.capability21 && device.phoneCount >= 2 ==> SupportsDualIms(device)
  {
    device.capability21 && device.phoneCount > 1
  }

  /** A get-or-create call for `slotId` is refused (returns null). */
  predicate Gated(slotId: int, dual: bool)
  {
    slotId > 0 && !dual
  }

  /**
   * A call for `slotId` on a table of `capacity` entries does not index past
   * the table: it is either refused by the gate or the index is in range.
   * Any other call throws ArrayIndexOutOfBoundsException in the source.
   */
  predicate Admissible(slotId: int, dual: bool, capacity: nat)
  {
    Gated(slotId, dual) || 0 <= slotId < capacity
  }

  /** Two config entries do not hold the same config object. */
  predicate DistinctIds(a: Option<Config>, b: Option<Config>)
  {
    a.Some? && b.Some? ==> a.value.id != b.value.id
  }

  /** The three slot tables together with the counter that hands out fresh identities. */
  datatype Tables = Tables(
    features: seq<Option<MmTelFeature>>,
    registrations: seq<Option<Registration>>,
    configs: seq<Option<Config>>,
    nextId: nat)
  {
    /**
     * The tables have their fixed sizes; every stored handle was allocated
     * before `nextId` and was built for the slot it sits in; a slot that
     * holds a feature also holds a registration; and no config object sits in
     * two slots.
     */
    predicate Valid()
    {
      |features| == FeatureSlots && |registrations| == RegistrationSlots && |configs| == ConfigSlots &&
      (forall s :: 0 <= s < FeatureSlots && features[s].Some? ==>
        features[s].value.slotId == s && features[s].value.id < nextId && registrations[s].Some?) &&
      (forall s :: 0 <= s < RegistrationSlots && registrations[s].Some? ==>
        registrations[s].value.slotId == s && registrations[s].value.id < nextId) &&
      (forall s :: 0 <= s < ConfigSlots && configs[s].Some? ==> configs[s].value.id < nextId) &&
      DistinctIds(configs[0], configs[1]) && DistinctIds(configs[0], configs[2]) &&
      DistinctIds(configs[1], configs[2])
    }
  }

  /** The tables of a newly constructed service: every entry null. */
  function InitialTables(): (t: Tables)
    ensures t.Valid()
    ensures forall s :: 0 <= s < FeatureSlots ==> t.features[s] == None && t.registrations[s] == None
    ensures forall s :: 0 <= s < ConfigSlots ==> t.configs[s] == None
  {
    Tables([None, None], [None, None], [None, None, None], 0)
  }

  /**
   * createMmTelFeature(slotId): null when gated; otherwise creates the feature on
   * first use, together with a new registration that overwrites whatever
   * registration the slot held, and returns the stored feature.
   */
  function CreateMmTelFeature(t: Tables, slotId: int, dual: bool): (r: (Tables, Option<MmTelFeature>))
    requires t.Valid()
    requires Admissible(slotId, dual, FeatureSlots)
    ensures r.0.Valid() && r.0.nextId >= t.nextId
    ensures r.1.None? <==> Gated(slotId, dual)
    ensures Gated(slotId, dual) ==> r.0 == t
    ensures !Gated(slotId, dual) ==> r.0.features[slotId] == r.1 && r.1.value.slotId == slotId
    ensures !Gated(slotId, dual) && t.features[slotId].Some? ==> r == (t, t.features[slotId])
    ensures !Gated(slotId, dual) && t.features[slotId].None? ==>
      r.1.value.id >= t.nextId &&
      r.0.registrations[slotId].Some? && r.0.registrations[slotId].value.id >= t.nextId &&
      r.0.registrations[slotId] != t.registrations[slotId]
    ensures r.0.configs == t.configs
    ensures forall s :: 0 <= s < FeatureSlots && s != slotId ==>
      r.0.features[s] == t.features[s] && r.0.registrations[s] == t.registrations[s]
  {
    if Gated(slotId, dual) then (t, None)
    else if t.features[slotId].Some? then (t, t.features[slotId])
    else
      var feature := MmTelFeature(t.nextId, slotId);
      var registration := Registration(t.nextId + 1, slotId);
      var t' := t.(features := t.features[slotId := Some(feature)],
                   registrations := t.registrations[slotId := Some(registration)],
                   nextId := t.nextId + 2);
      (t', Some(feature))
  }

  /**
   * getConfig(slotId): null when gated; otherwise the config of the slot,
   * created on first use. Only `configs[slotId]` can change.
   */
  function GetConfig(t: Tables, slotId: int, dual: bool): (r: (Tables, Option<Config>))
    requires t.Valid()
    requires Admissible(slotId, dual, ConfigSlots)
    ensures r.0.Valid() && r.0.nextId >= t.nextId
    ensures r.1.None? <==> Gated(slotId, dual)
    ensures Gated(slotId, dual) ==> r.0 == t
    ensures !Gated(slotId, dual) ==> r.0.configs[slotId] == r.1
    ensures !Gated(slotId, dual) && t.configs[slotId].Some? ==> r == (t, t.configs[slotId])
    ensures !Gated(slotId, dual) && t.configs[slotId].None? ==> r.1.value.id >= t.nextId
    ensures r.0.features == t.features && r.0.registrations == t.registrations
    ensures forall s :: 0 <= s < ConfigSlots && s != slotId ==> r.0.configs[s] == t.configs[s]
  {
    if Gated(slotId, dual) then (t, None)
    else if t.configs[slotId].Some? then (t, t.configs[slotId])
    else
      var config := Config(t.nextId);
      (t.(configs := t.configs[slotId := Some(config)], nextId := t.nextId + 1), Some(config))
  }

  /**
   * getRegistration(slotId): null when gated; otherwise the registration of the
   * slot, created on first use. Only `registrations[slotId]` can change; no
   * feature is ever created.
   */
  function GetRegistration(t: Tables, slotId: int, dual: bool): (r: (Tables, Option<Registration>))
    requires t.Valid()
    requires Admissible(slotId, dual, RegistrationSlots)
    ensures r.0.Valid() && r.0.nextId >= t.nextId
    ensures r.1.None? <==> Gated(slotId, dual)
    ensures Gated(slotId, dual) ==> r.0 == t
    ensures !Gated(slotId, dual) ==> r.0.registrations[slotId] == r.1 && r.1.value.slotId == slotId
    ensures !Gated(slotId, dual) && t.registrations[slotId].Some? ==> r == (t, t.registrations[slotId])
    ensures !Gated(slotId, dual) && t.registrations[slotId].None? ==> r.1.value.id >= t.nextId
    ensures r.0.features == t.features && r.0.configs == t.configs
    ensures forall s :: 0 <= s < RegistrationSlots && s != slotId ==> r.0.registrations[s] == t.registrations[s]
  {
    if Gated(slotId, dual) then (t, None)
    else if t.registrations[slotId].Some? then (t, t.registrations[slotId])
    else
      var registration := Registration(t.nextId, slotId);
      (t.(registrations := t.registrations[slotId := Some(registration)], nextId := t.nextId + 1),
       Some(registration))
  }

  /**
   * enableIms / disableIms: both obtain the feature through createMmTelFeature and
   * call a method on it; on a gated slot that reference is null and the call
   * throws NullPointerException. What registerIms / unregisterIms do to the
   * feature is not part of this model.
   */
  function InvokeOnFeature(t: Tables, slotId: int, dual: bool): (r: (Tables, Result<MmTelFeature>))
    requires t.Valid()
    requires Admissible(slotId, dual, FeatureSlots)
    ensures r.0.Valid()
    ensures r.1.Fault? <==> Gated(slotId, dual)
    ensures r.1.Fault? ==> r.1.exception == NullPointerException && r.0 == t
    ensures r.1.Ok? ==> r.0.features[slotId] == Some(r.1.value)
  {
    var (t', feature) := CreateMmTelFeature(t, slotId, dual);
    match feature
    case None => (t', Fault(NullPointerException))
    case Some(f) => (t', Ok(f))
  }

  /** The feature kinds the platform defines for ImsFeatureConfiguration. */
  datatype ImsFeatureType = FeatureEmergencyMmTel | FeatureMmTel | FeatureRcs

  /** SharedPreferences.getBoolean: the stored value, or the default when the key is absent. */
  function GetBoolean(prefs: map<string, bool>, key: string, default: bool): bool
  {
    if key in prefs then prefs[key] else default
  }

  /**
   * querySupportedImsFeatures: MMTEL on slot 0 when preference "ims0" holds
   * (default true), and MMTEL on slot 1 when the gate is open and preference
   * "ims1" holds (default false). Nothing else is ever reported.
   */
  function QuerySupportedImsFeatures(prefs: map<string, bool>, dual: bool): (r: set<(int, ImsFeatureType)>)
    ensures forall p :: p in r ==> p == (0, FeatureMmTel) || p == (1, FeatureMmTel)
    ensures (0, FeatureMmTel) in r <==> ("ims0" !in prefs || prefs["ims0"])
    ensures (1, FeatureMmTel) in r <==> dual && "ims1" in prefs && prefs["ims1"]
  {
    var slot0: set<(int, ImsFeatureType)> := if GetBoolean(prefs, "ims0", true) then {(0, FeatureMmTel)} else {};
    var slot1: set<(int, ImsFeatureType)> := if dual && GetBoolean(prefs, "ims1", false) then {(1, FeatureMmTel)} else {};
    slot0 + slot1
  }

  /**
   * readyForFeatureCreation, on the static `mInstance` and the calling instance
   * `self`: throws RuntimeException when another instance is recorded;
   * otherwise the recorded instance becomes `self`, carried by `Ok`.
   */
  function ReadyForFeatureCreation<T(==)>(mInstance: Option<T>, self: T): (r: Result<T>)
    ensures r.Fault? <==> mInstance.Some? && mInstance.value != self
    ensures r.Fault? ==> r.exception == RuntimeException
    ensures r.Ok? ==> r.value == self
  {
    if mInstance.Some? && mInstance.value != self then Fault(RuntimeException) else Ok(self)
  }

  /** The get-or-create entry points, as the host may invoke them one after another. */
  datatype Op = CreateMmTelFeatureOp | GetConfigOp | GetRegistrationOp

  /** One call: the entry point, its slot, and what the gate evaluated to at that moment. */
  datatype Call = Call(op: Op, slotId: int, dual: bool)

  /** The capacity of the table the entry point indexes. */
  function Capacity(op: Op): nat
  {
    match op
    case CreateMmTelFeatureOp => FeatureSlots
    case GetConfigOp => ConfigSlots
    case GetRegistrationOp => RegistrationSlots
  }

  predicate CallAdmissible(c: Call)
  {
    Admissible(c.slotId, c.dual, Capacity(c.op))
  }

  predicate AllAdmissible(calls: seq<Call>)
  {
    forall i :: 0 <= i < |calls| ==> CallAdmissible(calls[i])
  }

  /**
   * Every entry of `r` that differs from the same entry of `t` holds a handle
   * allocated no earlier than `t.nextId`: no identity is ever handed out twice.
   */
  predicate NewEntriesAreFresh(t: Tables, r: Tables)
    requires t.Valid() && r.Valid()
  {
    (forall s :: 0 <= s < FeatureSlots && r.features[s] != t.features[s] ==>
      r.features[s].Some? && r.features[s].value.id >= t.nextId) &&
    (forall s :: 0 <= s < RegistrationSlots && r.registrations[s] != t.registrations[s] ==>
      r.registrations[s].Some? && r.registrations[s].value.id >= t.nextId) &&
    (forall s :: 0 <= s < ConfigSlots && r.configs[s] != t.configs[s] ==>
      r.configs[s].Some? && r.configs[s].value.id >= t.nextId)
  }

  /** The tables after one call. */
  function Step(t: Tables, c: Call): (r: Tables)
    requires t.Valid()
    requires CallAdmissible(c)
    ensures r.Valid() && r.nextId >= t.nextId && NewEntriesAreFresh(t, r)
  {
    match c.op
    case CreateMmTelFeatureOp => CreateMmTelFeature(t, c.slotId, c.dual).0
    case GetConfigOp => GetConfig(t, c.slotId, c.dual).0
    case GetRegistrationOp => GetRegistration(t, c.slotId, c.dual).0
  }

  /**
   * The tables after a sequence of calls: every sequence keeps them valid,
   * and every entry that changed along the way holds a newly allocated handle.
   */
  function Run(t: Tables, calls: seq<Call>): (r: Tables)
    requires t.Valid()
    requires AllAdmissible(calls)
    ensures r.Valid() && r.nextId >= t.nextId && NewEntriesAreFresh(t, r)
    decreases |calls|
  {
    if calls == [] then t else Run(Step(t, calls[0]), calls[1..])
  }
}
