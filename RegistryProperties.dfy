/**
 * Properties of the registry that relate several calls: handles are permanent
 * and returned identically by every later call for the same slot, a gate that
 * stays shut keeps every slot above 0 empty, the first feature creation
 * replaces a registration handed out earlier, and the feature query and the
 * singleton check behave as the service promises.
 */
module ImsRegistryProperties {
  import opened Wrappers
  import opened ImsRegistry

  /** No call of `calls` asks createMmTelFeature for `slotId`. */
  predicate NoFeatureCreationFor(calls: seq<Call>, slotId: int)
  {
    forall i :: 0 <= i < |calls| ==> calls[i].op != CreateMmTelFeatureOp || calls[i].slotId != slotId
  }

  /**
   * The gate looks at the slot's value only: slot 0 and negative slots are
   * never refused, so a negative slot always indexes out of range, and an
   * ungated slot must lie below the table's capacity.
   */
  lemma GateLooksAtValueOnly(slotId: int, dual: bool, capacity: nat)
    ensures slotId <= 0 ==> !Gated(slotId, dual)
    ensures slotId < 0 ==> !Admissible(slotId, dual, capacity)
    ensures dual ==> (Admissible(slotId, dual, capacity) <==> 0 <= slotId < capacity)
  {
  }

  /** Slot 0 is served on any hardware, by all three get-or-create calls. */
  lemma SlotZeroIsAlwaysServed(t: Tables, dual: bool)
    requires t.Valid()
    ensures CreateMmTelFeature(t, 0, dual).1.Some?
    ensures GetConfig(t, 0, dual).1.Some?
    ensures GetRegistration(t, 0, dual).1.Some?
  {
  }

  /** Once a slot holds a feature, no later sequence of calls changes it. */
  lemma {:induction false} FeatureHandleIsPermanent(t: Tables, calls: seq<Call>, s: int)
    requires t.Valid() && AllAdmissible(calls)
    requires 0 <= s < FeatureSlots && t.features[s].Some?
    ensures Run(t, calls).features[s] == t.features[s]
    decreases |calls|
  {
    if calls != [] {
      var t1 := Step(t, calls[0]);
      assert t1.features[s] == t.features[s];
      assert AllAdmissible(calls[1..]) by {
        forall i | 0 <= i < |calls[1..]| ensures CallAdmissible(calls[1..][i]) {
          assert calls[1..][i] == calls[i + 1];
        }
      }
      FeatureHandleIsPermanent(t1, calls[1..], s);
    }
  }

  /**
   * Once a slot holds a feature, its registration is permanent too: only the
   * first feature creation for a slot replaces a registration.
   */
  lemma {:induction false} RegistrationPermanentOnceFeatureExists(t: Tables, calls: seq<Call>, s: int)
    requires t.Valid() && AllAdmissible(calls)
    requires 0 <= s < FeatureSlots && t.features[s].Some?
    ensures Run(t, calls).registrations[s] == t.registrations[s]
    decreases |calls|
  {
    if calls != [] {
      var t1 := Step(t, calls[0]);
      assert t1.features[s] == t.features[s] && t1.registrations[s] == t.registrations[s];
      assert AllAdmissible(calls[1..]) by {
        forall i | 0 <= i < |calls[1..]| ensures CallAdmissible(calls[1..][i]) {
          assert calls[1..][i] == calls[i + 1];
        }
      }
      RegistrationPermanentOnceFeatureExists(t1, calls[1..], s);
    }
  }

  /** A registration is permanent as long as nobody asks for the slot's feature. */
  lemma {:induction false} RegistrationPermanentWithoutFeatureCreation(t: Tables, calls: seq<Call>, s: int)
    requires t.Valid() && AllAdmissible(calls)
    requires 0 <= s < RegistrationSlots && t.registrations[s].Some?
    requires NoFeatureCreationFor(calls, s)
    ensures Run(t, calls).registrations[s] == t.registrations[s]
    decreases |calls|
  {
    if calls != [] {
      var t1 := Step(t, calls[0]);
      assert t1.registrations[s] == t.registrations[s];
      assert AllAdmissible(calls[1..]) && NoFeatureCreationFor(calls[1..], s) by {
        forall i | 0 <= i < |calls[1..]|
          ensures CallAdmissible(calls[1..][i])
          ensures calls[1..][i].op != CreateMmTelFeatureOp || calls[1..][i].slotId != s
        {
          assert calls[1..][i] == calls[i + 1];
        }
      }
      RegistrationPermanentWithoutFeatureCreation(t1, calls[1..], s);
    }
  }

  /** Once a slot holds a config, no later sequence of calls changes it. */
  lemma {:induction false} ConfigHandleIsPermanent(t: Tables, calls: seq<Call>, s: int)
    requires t.Valid() && AllAdmissible(calls)
    requires 0 <= s < ConfigSlots && t.configs[s].Some?
    ensures Run(t, calls).configs[s] == t.configs[s]
    decreases |calls|
  {
    if calls != [] {
      var t1 := Step(t, calls[0]);
      assert t1.configs[s] == t.configs[s];
      assert AllAdmissible(calls[1..]) by {
        forall i | 0 <= i < |calls[1..]| ensures CallAdmissible(calls[1..][i]) {
          assert calls[1..][i] == calls[i + 1];
        }
      }
      ConfigHandleIsPermanent(t1, calls[1..], s);
    }
  }

  /**
   * While the gate stays shut, no call touches any slot above 0: every entry
   * of every table at a slot above 0 ends as it began.
   */
  lemma {:induction false} ShutGateLeavesUpperSlots(t: Tables, calls: seq<Call>)
    requires t.Valid() && AllAdmissible(calls)
    requires forall i :: 0 <= i < |calls| ==> !calls[i].dual
    ensures forall s :: 0 < s < FeatureSlots ==>
      Run(t, calls).features[s] == t.features[s] && Run(t, calls).registrations[s] == t.registrations[s]
    ensures forall s :: 0 < s < ConfigSlots ==> Run(t, calls).configs[s] == t.configs[s]
    decreases |calls|
  {
    if calls != [] {
      var t1 := Step(t, calls[0]);
      assert forall s :: 0 < s < FeatureSlots ==>
        t1.features[s] == t.features[s] && t1.registrations[s] == t.registrations[s];
      assert forall s :: 0 < s < ConfigSlots ==> t1.configs[s] == t.configs[s];
      assert AllAdmissible(calls[1..]) && forall i :: 0 <= i < |calls[1..]| ==> !calls[1..][i].dual by {
        forall i | 0 <= i < |calls[1..]|
          ensures CallAdmissible(calls[1..][i]) && !calls[1..][i].dual
        {
          assert calls[1..][i] == calls[i + 1];
        }
      }
      ShutGateLeavesUpperSlots(t1, calls[1..]);
    }
  }

  /**
   * On hardware without dual IMS, starting from a new service, no handle is
   * ever created for a slot above 0, whatever the host asks for.
   */
  lemma SingleImsHardwareCreatesNothingAboveSlotZero(calls: seq<Call>)
    requires AllAdmissible(calls)
    requires forall i :: 0 <= i < |calls| ==> !calls[i].dual
    ensures forall s :: 0 < s < FeatureSlots ==>
      Run(InitialTables(), calls).features[s] == None && Run(InitialTables(), calls).registrations[s] == None
    ensures forall s :: 0 < s < ConfigSlots ==> Run(InitialTables(), calls).configs[s] == None
  {
    ShutGateLeavesUpperSlots(InitialTables(), calls);
  }

  /**
   * After an ungated createMmTelFeature(s), every later ungated
   * createMmTelFeature(s), however many other calls come between, returns the
   * identical feature and changes nothing.
   */
  lemma LaterFeatureCallReturnsSameHandle(t: Tables, s: int, dual: bool, calls: seq<Call>, laterDual: bool)
    requires t.Valid() && AllAdmissible(calls)
    requires !Gated(s, dual) && !Gated(s, laterDual) && 0 <= s < FeatureSlots
    ensures var (t1, first) := CreateMmTelFeature(t, s, dual);
      var t2 := Run(t1, calls);
      CreateMmTelFeature(t2, s, laterDual) == (t2, first) && first.Some?
  {
    var (t1, first) := CreateMmTelFeature(t, s, dual);
    FeatureHandleIsPermanent(t1, calls, s);
  }

  /** The same for getConfig(s). */
  lemma LaterConfigCallReturnsSameHandle(t: Tables, s: int, dual: bool, calls: seq<Call>, laterDual: bool)
    requires t.Valid() && AllAdmissible(calls)
    requires !Gated(s, dual) && !Gated(s, laterDual) && 0 <= s < ConfigSlots
    ensures var (t1, first) := GetConfig(t, s, dual);
      var t2 := Run(t1, calls);
      GetConfig(t2, s, laterDual) == (t2, first) && first.Some?
  {
    var (t1, first) := GetConfig(t, s, dual);
    ConfigHandleIsPermanent(t1, calls, s);
  }

  /**
   * The same for getRegistration(s), provided the slot already had a feature
   * or no call in between asks for the slot's feature.
   */
  lemma LaterRegistrationCallReturnsSameHandle(t: Tables, s: int, dual: bool, calls: seq<Call>, laterDual: bool)
    requires t.Valid() && AllAdmissible(calls)
    requires !Gated(s, dual) && !Gated(s, laterDual) && 0 <= s < RegistrationSlots
    requires t.features[s].Some? || NoFeatureCreationFor(calls, s)
    ensures var (t1, first) := GetRegistration(t, s, dual);
      var t2 := Run(t1, calls);
      GetRegistration(t2, s, laterDual) == (t2, first) && first.Some?
  {
    var (t1, first) := GetRegistration(t, s, dual);
    if t.features[s].Some? {
      RegistrationPermanentOnceFeatureExists(t1, calls, s);
    } else {
      RegistrationPermanentWithoutFeatureCreation(t1, calls, s);
    }
  }

  /**
   * As written, the first createMmTelFeature(s) overwrites the registration
   * that an earlier getRegistration(s) handed out: afterwards the slot holds a
   * different registration.
   */
  lemma RegistrationReplacedByFirstFeatureCreation(t: Tables, s: int, dual: bool)
    requires t.Valid() && !Gated(s, dual) && 0 <= s < FeatureSlots
    requires t.features[s].None?
    ensures var (t1, handedOut) := GetRegistration(t, s, dual);
      var (t2, feature) := CreateMmTelFeature(t1, s, dual);
      handedOut.Some? && feature.Some? && t2.registrations[s].Some? && t2.registrations[s] != handedOut
  {
  }

  /** With no stored preferences and single-IMS hardware, only slot 0's MMTEL is reported. */
  lemma DefaultPreferencesOnSingleImsHardware()
    ensures QuerySupportedImsFeatures(map[], false) == {(0, FeatureMmTel)}
  {
  }

  /** With dual-IMS hardware and "ims1" set, MMTEL is reported on both slots. */
  lemma SecondSlotEnabledOnDualImsHardware()
    ensures QuerySupportedImsFeatures(map["ims1" := true], true) == {(0, FeatureMmTel), (1, FeatureMmTel)}
  {
  }

  /**
   * readyForFeatureCreation: repeating it with the instance that succeeded is a
   * no-op, and calling it with any other instance afterwards throws.
   */
  lemma ReadyForFeatureCreationIsOneShot<T>(mInstance: Option<T>, self: T, other: T)
    requires other != self
    ensures var first := ReadyForFeatureCreation(mInstance, self);
      first.Ok? ==>
        ReadyForFeatureCreation(Some(first.value), self) == first &&
        ReadyForFeatureCreation(Some(first.value), other) == Fault(RuntimeException)
  {
  }
}
