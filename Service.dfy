/**
 * HwImsService as an object: three fixed-size slot tables updated in place, a
 * counter standing in for object allocation, and the class-wide `mInstance`.
 * Every method is proved to leave the tables exactly as the matching function
 * of module ImsRegistry says: each get-or-create method performs one `Step`
 * of `Run`, the sequence the lemmas of ImsRegistryProperties are about.
 */
module ImsService {
  import opened Wrappers
  import opened ImsRegistry

  /**
   * The static part of the service class. It is given to each service when
   * the service is constructed; callers must share one among all services.
   */
  class ServiceStatics {
    var mInstance: Option<HwImsService>

    constructor ()
      ensures mInstance == None
    {
      mInstance := None;
    }

    /** getInstance: the instance recorded by readyForFeatureCreation, if any. */
    method GetInstance() returns (r: Option<HwImsService>)
      ensures r == mInstance
    {
      r := mInstance;
    }
  }

  class HwImsService {
    const statics: ServiceStatics
    const mmTelFeatures: array<Option<MmTelFeature>>
    const registrations: array<Option<Registration>>
    const configs: array<Option<Config>>
    /** The identity the next allocated handle receives. */
    var nextId: nat

    /** The tables as a value. */
    ghost function State(): Tables
      reads this, mmTelFeatures, registrations, configs
    {
      Tables(mmTelFeatures[..], registrations[..], configs[..], nextId)
    }

    ghost predicate Valid()
      reads this, mmTelFeatures, registrations, configs
    {
      State().Valid()
    }

    /** A new service: every slot of every table is null. */
    constructor (statics: ServiceStatics)
      ensures Valid() && State() == InitialTables() && this.statics == statics
      ensures fresh(mmTelFeatures) && fresh(registrations) && fresh(configs)
    {
      this.statics := statics;
      mmTelFeatures := new Option<MmTelFeature>[FeatureSlots](_ => None);
      registrations := new Option<Registration>[RegistrationSlots](_ => None);
      configs := new Option<Config>[ConfigSlots](_ => None);
      nextId := 0;
      new;
      assert mmTelFeatures[..] == [None, None];
      assert registrations[..] == [None, None];
      assert configs[..] == [None, None, None];
    }

    /** Allocation of a collaborator object: a never-used identity. */
    method NewId() returns (id: nat)
      modifies this
      ensures id == old(nextId) && nextId == old(nextId) + 1
    {
      id := nextId;
      nextId := nextId + 1;
    }

    /** createMmTelFeature(slotId), with the gate evaluated on `device`. */
    method CreateMmTelFeature(device: Device, slotId: int) returns (r: Option<MmTelFeature>)
      requires Valid()
      requires Admissible(slotId, SupportsDualIms(device), FeatureSlots)
      modifies this, mmTelFeatures, registrations
      ensures Valid()
      ensures (State(), r) == ImsRegistry.CreateMmTelFeature(old(State()), slotId, SupportsDualIms(device))
    {
      if slotId > 0 && !SupportsDualIms(device) {
        return None;
      }
      if mmTelFeatures[slotId].None? {
        var featureId := NewId();
        mmTelFeatures[slotId] := Some(MmTelFeature(featureId, slotId));
        var registrationId := NewId();
        registrations[slotId] := Some(Registration(registrationId, slotId));
      }
      return mmTelFeatures[slotId];
    }

    /** getConfig(slotId), with the gate evaluated on `device`. */
    method GetConfig(device: Device, slotId: int) returns (r: Option<Config>)
      requires Valid()
      requires Admissible(slotId, SupportsDualIms(device), ConfigSlots)
      modifies this, configs
      ensures Valid()
      ensures (State(), r) == ImsRegistry.GetConfig(old(State()), slotId, SupportsDualIms(device))
    {
      if slotId > 0 && !SupportsDualIms(device) {
        return None;
      }
      if configs[slotId].None? {
        var configId := NewId();
        configs[slotId] := Some(Config(configId));
      }
      return configs[slotId];
    }

    /** getRegistration(slotId), with the gate evaluated on `device`. */
    method GetRegistration(device: Device, slotId: int) returns (r: Option<Registration>)
      requires Valid()
      requires Admissible(slotId, SupportsDualIms(device), RegistrationSlots)
      modifies this, registrations
      ensures Valid()
      ensures (State(), r) == ImsRegistry.GetRegistration(old(State()), slotId, SupportsDualIms(device))
    {
      if slotId > 0 && !SupportsDualIms(device) {
        return None;
      }
      if registrations[slotId].None? {
        var registrationId := NewId();
        registrations[slotId] := Some(Registration(registrationId, slotId));
      }
      return registrations[slotId];
    }

    /**
     * enableIms(slotId): obtains the feature and registers it; a gated slot
     * yields null and the call throws NullPointerException.
     */
    method EnableIms(device: Device, slotId: int) returns (r: Result<MmTelFeature>)
      requires Valid()
      requires Admissible(slotId, SupportsDualIms(device), FeatureSlots)
      modifies this, mmTelFeatures, registrations
      ensures Valid()
      ensures (State(), r) == InvokeOnFeature(old(State()), slotId, SupportsDualIms(device))
    {
      var feature := CreateMmTelFeature(device, slotId);
      if feature.None? {
        return Fault(NullPointerException);
      }
      // registerIms() on the feature is not part of this model.
      return Ok(feature.value);
    }

    /**
     * disableIms(slotId): obtains the feature and unregisters it; a gated slot
     * yields null and the call throws NullPointerException.
     */
    method DisableIms(device: Device, slotId: int) returns (r: Result<MmTelFeature>)
      requires Valid()
      requires Admissible(slotId, SupportsDualIms(device), FeatureSlots)
      modifies this, mmTelFeatures, registrations
      ensures Valid()
      ensures (State(), r) == InvokeOnFeature(old(State()), slotId, SupportsDualIms(device))
    {
      var feature := CreateMmTelFeature(device, slotId);
      if feature.None? {
        return Fault(NullPointerException);
      }
      // unregisterIms() on the feature is not part of this model.
      return Ok(feature.value);
    }

    /**
     * readyForFeatureCreation: throws RuntimeException if another instance is
     * recorded in `mInstance`; otherwise records this one.
     */
    method ReadyForFeatureCreation() returns (r: Result<HwImsService>)
      modifies statics
      ensures r == ImsRegistry.ReadyForFeatureCreation(old(statics.mInstance), this)
      ensures statics.mInstance == if r.Ok? then Some(this) else old(statics.mInstance)
    {
      if statics.mInstance.Some? && statics.mInstance.value != this {
        return Fault(RuntimeException);
      }
      statics.mInstance := Some(this);
      return Ok(this);
    }
  }

  /**
   * A client on single-IMS hardware: slot 0 is served and stable, slot 1 is
   * refused, and a second service object cannot become the instance.
   */
  method SingleImsDeviceScenario()
  {
    var device := Device(true, 1);
    var statics := new ServiceStatics();
    var service := new HwImsService(statics);
    var ready := service.ReadyForFeatureCreation();
    assert ready == Ok(service);
    var again := service.ReadyForFeatureCreation();
    assert again == Ok(service);

    var f0 := service.CreateMmTelFeature(device, 0);
    var f0again := service.CreateMmTelFeature(device, 0);
    assert f0.Some? && f0again == f0;
    var f1 := service.CreateMmTelFeature(device, 1);
    assert f1 == None;
    var c0 := service.GetConfig(device, 0);
    var c0again := service.GetConfig(device, 0);
    assert c0.Some? && c0again == c0;
    var enabled := service.EnableIms(device, 1);
    assert enabled == Fault(NullPointerException);

    var other := new HwImsService(statics);
    var clash := other.ReadyForFeatureCreation();
    assert clash == Fault(RuntimeException);
    var current := statics.GetInstance();
    assert current == Some(service);
  }
}
