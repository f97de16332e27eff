# HwImsService slot registry, in Dafny

`HwImsService` is the Android `ImsService` of the HwIms project. Apart from
platform plumbing, its logic is a per-SIM-slot handle registry:

- three fixed-size slot tables: MMTEL features (2 entries), IMS registrations
  (2 entries) and IMS configs (3 entries);
- a dual-IMS capability gate, `supportsDualIms`: modem capability 21 and more
  than one phone, recomputed on every call;
- lazy get-or-create calls (`createMmTelFeature`, `getConfig`,
  `getRegistration`), each refused with null for a slot above 0 when the gate
  is shut;
- `enableIms` / `disableIms`, which go through `createMmTelFeature`;
- the supported-feature query `querySupportedImsFeatures`, driven by the
  preferences `ims0` (default true) and `ims1` (default false);
- a one-shot process singleton, `readyForFeatureCreation`, over the static
  `mInstance`.

Files:

- `Wrappers.dfy`: `Option` (a Java reference that may be null), `Exception`
  and `Result` (a call that completes with a value or throws).
- `Registry.dfy` (module `ImsRegistry`): the tables as a value (`Tables`), the
  gate, every operation as a function with its contract, and `Run`, the tables
  after any sequence of get-or-create calls.
- `RegistryProperties.dfy` (module `ImsRegistryProperties`): lemmas over
  several calls — permanence of handles, identical handles on later calls,
  slots above 0 left empty while the gate stays shut, the registration
  replacement, query scenarios and the one-shot singleton.
- `Service.dfy` (module `ImsService`): the service as a class whose three
  tables are arrays updated in place. Each method is proved to produce exactly
  the state and result of the matching `ImsRegistry` function. Dafny has no mutable static
  fields, so `mInstance` lives in a `ServiceStatics` object that each service object is
  given when it is constructed; instance identity is Dafny object identity.
  The method `SingleImsDeviceScenario` is a usage example: a client on
  single-IMS hardware that shows what callers can conclude from the
  contracts alone.

Modelling choices:

- A handle is a value with an `id`. A counter (`nextId`) hands out ids and
  stands in for `new`, so "the same object" is "an equal handle" and a newly
  built handle differs from every stored one.
- The gate is an argument. The class methods take a `Device` (capability 21,
  phone count) and evaluate `SupportsDualIms` on each call. The functions take
  the gate's value `dual`.
- An index the gate does not refuse and that is out of range makes the source
  throw `ArrayIndexOutOfBoundsException`. The model has a precondition,
  `Admissible`, for this. It holds exactly when the source does not throw:
  the call is gated, or `0 <= slotId < capacity`.
- A gated `enableIms` / `disableIms` dereferences null. The model returns
  `Fault(NullPointerException)` with the tables unchanged. A conflicting
  `readyForFeatureCreation` returns `Fault(RuntimeException)` with `mInstance`
  unchanged.
- Two behaviours of the code differ from what one might expect of a lazy
  registry. The model follows the code in both:
  - One might expect the first `createMmTelFeature(s)` to create the
    registration only if the slot has none. The code always overwrites
    `registrations[s]` with a new registration, even when `getRegistration(s)`
    had already handed one out. `RegistrationReplacedByFirstFeatureCreation`
    states this.
  - One might expect the third config entry to be reachable whatever the
    gate says. The code refuses `getConfig(2)` like any slot above 0 when the
    gate is shut, so that entry is reachable only on dual-IMS hardware.

## Model

| member | source | states |
|---|---|---|
| ImsRegistry.InitialTables | app/src/main/java/com/huawei/ims/HwImsService.java:33-35 | A new service has 2 feature, 2 registration and 3 config entries, all null, and the tables are valid |
| ImsRegistry.SupportsDualIms | app/src/main/java/com/huawei/ims/HwImsService.java:66-68 | The gate is open with capability 21 and more than one phone, and shut without capability 21 or with at most one phone; it is a function of the device readings, which every class method recomputes per call |
| ImsRegistryProperties.GateLooksAtValueOnly | app/src/main/java/com/huawei/ims/HwImsService.java:84-87 | Slot 0 and negative slots are never refused; a negative slot is never in range; with the gate open a call is in range exactly when 0 <= slot < capacity |
| ImsRegistry.CreateMmTelFeature | app/src/main/java/com/huawei/ims/HwImsService.java:83-92 | Null exactly when slot > 0 and the gate is shut, and then nothing changes; otherwise the result is the stored feature for the slot; a second call changes nothing and returns it again; the first call also stores a new registration that differs from the old one; other slots and the configs are untouched |
| ImsRegistry.GetConfig | app/src/main/java/com/huawei/ims/HwImsService.java:95-103 | Null exactly when gated, with nothing changed; otherwise the stored config of the slot, new on first use and the same afterwards; only configs[slot] can change |
| ImsRegistry.GetRegistration | app/src/main/java/com/huawei/ims/HwImsService.java:106-114 | Null exactly when gated, with nothing changed; otherwise the stored registration of the slot, new on first use and the same afterwards; features and configs are untouched; only registrations[slot] can change |
| ImsRegistry.InvokeOnFeature | app/src/main/java/com/huawei/ims/HwImsService.java:48-56 | enableIms/disableIms throw NullPointerException exactly on a gated slot, leaving the tables as they were; otherwise they act on the slot's stored feature |
| ImsRegistry.QuerySupportedImsFeatures | app/src/main/java/com/huawei/ims/HwImsService.java:71-80 | Only (0, MMTEL) and (1, MMTEL) can be reported; (0, MMTEL) exactly when "ims0" is absent or true; (1, MMTEL) exactly when the gate is open and "ims1" is present and true |
| ImsRegistry.ReadyForFeatureCreation | app/src/main/java/com/huawei/ims/HwImsService.java:59-64 | Throws RuntimeException exactly when a different instance is recorded; otherwise the calling instance becomes the recorded one |
| ImsRegistry.Run | app/src/main/java/com/huawei/ims/HwImsService.java:83-114 | Any sequence of get-or-create calls keeps the tables valid (sizes, each handle in its own slot, a feature always paired with a registration, no config in two slots), and every entry that changed holds a handle newly allocated during the sequence, so no handle present before the sequence is handed out again |
| ImsRegistryProperties.SlotZeroIsAlwaysServed | app/src/main/java/com/huawei/ims/HwImsService.java:84-86 | createMmTelFeature(0), getConfig(0) and getRegistration(0) never return null, on any hardware |
| ImsRegistryProperties.FeatureHandleIsPermanent | app/src/main/java/com/huawei/ims/HwImsService.java:87-90 | Once a slot holds a feature, no sequence of later calls changes it |
| ImsRegistryProperties.RegistrationPermanentOnceFeatureExists | app/src/main/java/com/huawei/ims/HwImsService.java:87-90 | Once a slot holds a feature, its registration is never replaced again |
| ImsRegistryProperties.RegistrationPermanentWithoutFeatureCreation | app/src/main/java/com/huawei/ims/HwImsService.java:110-113 | A stored registration stays as long as no call asks createMmTelFeature for that slot |
| ImsRegistryProperties.ConfigHandleIsPermanent | app/src/main/java/com/huawei/ims/HwImsService.java:99-102 | Once a slot holds a config, no sequence of later calls changes it |
| ImsRegistryProperties.ShutGateLeavesUpperSlots | app/src/main/java/com/huawei/ims/HwImsService.java:84-86 | While every call sees the gate shut, no table entry at a slot above 0 changes |
| ImsRegistryProperties.SingleImsHardwareCreatesNothingAboveSlotZero | app/src/main/java/com/huawei/ims/HwImsService.java:96-98 | On single-IMS hardware a new service never gets a handle at a slot above 0, whatever is called |
| ImsRegistryProperties.LaterFeatureCallReturnsSameHandle | app/src/main/java/com/huawei/ims/HwImsService.java:87-91 | After an ungated createMmTelFeature(s), any later ungated call for s, after any calls in between, returns the identical feature and changes nothing |
| ImsRegistryProperties.LaterConfigCallReturnsSameHandle | app/src/main/java/com/huawei/ims/HwImsService.java:99-102 | After an ungated getConfig(s), any later ungated call for s returns the identical config and changes nothing |
| ImsRegistryProperties.LaterRegistrationCallReturnsSameHandle | app/src/main/java/com/huawei/ims/HwImsService.java:110-113 | After an ungated getRegistration(s), a later call returns the identical registration when the slot already had a feature or its feature was never asked for in between |
| ImsRegistryProperties.RegistrationReplacedByFirstFeatureCreation | app/src/main/java/com/huawei/ims/HwImsService.java:87-89 | getRegistration(s) followed by the first createMmTelFeature(s) leaves a different registration in the slot than the one handed out |
| ImsRegistryProperties.DefaultPreferencesOnSingleImsHardware | app/src/main/java/com/huawei/ims/HwImsService.java:73-79 | With no stored preferences and the gate shut, the query is exactly {(0, MMTEL)} |
| ImsRegistryProperties.SecondSlotEnabledOnDualImsHardware | app/src/main/java/com/huawei/ims/HwImsService.java:76-77 | With the gate open and "ims1" set, the query is exactly {(0, MMTEL), (1, MMTEL)} |
| ImsRegistryProperties.ReadyForFeatureCreationIsOneShot | app/src/main/java/com/huawei/ims/HwImsService.java:59-64 | After a successful call, repeating it on the recorded instance with the same instance gives the same outcome, and calling it with another instance throws |
| ImsService.ServiceStatics.constructor | app/src/main/java/com/huawei/ims/HwImsService.java:32 | mInstance starts null |
| ImsService.ServiceStatics.GetInstance | app/src/main/java/com/huawei/ims/HwImsService.java:38-40 | Returns the recorded instance |
| ImsService.HwImsService.constructor | app/src/main/java/com/huawei/ims/HwImsService.java:32-35 | Fresh arrays of sizes 2, 2 and 3, all null, and valid |
| ImsService.HwImsService.CreateMmTelFeature | app/src/main/java/com/huawei/ims/HwImsService.java:83-92 | Updates the arrays in place to exactly the tables and result of ImsRegistry.CreateMmTelFeature, with the gate recomputed from the device, and keeps them valid |
| ImsService.HwImsService.GetConfig | app/src/main/java/com/huawei/ims/HwImsService.java:95-103 | Updates the config array in place to exactly what ImsRegistry.GetConfig gives, and keeps the tables valid |
| ImsService.HwImsService.GetRegistration | app/src/main/java/com/huawei/ims/HwImsService.java:106-114 | Updates the registration array in place to exactly what ImsRegistry.GetRegistration gives, and keeps the tables valid |
| ImsService.HwImsService.EnableIms | app/src/main/java/com/huawei/ims/HwImsService.java:48-51 | Creates or fetches the feature as createMmTelFeature does; throws NullPointerException exactly on a gated slot |
| ImsService.HwImsService.DisableIms | app/src/main/java/com/huawei/ims/HwImsService.java:53-56 | Same as EnableIms, for unregistering |
| ImsService.HwImsService.ReadyForFeatureCreation | app/src/main/java/com/huawei/ims/HwImsService.java:58-64 | Records this instance in the shared mInstance unless another one is recorded, in which case it throws and mInstance is unchanged |

## Left out

- `onCreate`, the device-protected `SharedPreferences` and `Log`: Android I/O. The preferences are an input map from key to boolean.
- `HwModemCapability.isCapabilitySupport(21)` and `TelephonyManager.getPhoneCount()`: foreign calls. Their readings are the `Device` argument.
- `HwMmTelFeature.getInstance`, `HwImsRegistration`, `HwImsConfig`, `registerIms`, `unregisterIms`: these classes are not part of this model. Each construction or `getInstance` call is a fresh opaque handle. If `getInstance` itself returned a shared per-slot object, the model would not capture that.
- `ImsFeatureConfiguration.Builder`: its result is a set of (slot, feature kind) pairs.
- Thread safety of the check-then-create sequences: calls are sequential in the model.
- The static `mInstance`: Dafny has no mutable statics. Sharing one `ServiceStatics` among all service objects is a convention that callers must keep. The one-shot check of `ReadyForFeatureCreation` holds only among services given the same `ServiceStatics`.
- `ArrayIndexOutOfBoundsException` from an ungated out-of-range slot: this is a precondition (`Admissible`), not a modelled exception.
