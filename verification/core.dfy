/** The update core's query operations and its sync re-entry guard:
    `getUpdateMetadata`, `checkForUpdate` and the entry of `sync`. The package
    store, the settings store and the update server are parameters: the model
    receives what each of them answers. */
module AssetsCore {
  import opened Results
  import opened AssetsPackages
  import Config = AssetsConfiguration

  /** What the package store and the settings store answer while a query runs. */
  datatype Stores = Stores(
    currentPackage: Result<Option<LocalPackage>, GetPackageError>,
    previousPackage: Result<Option<LocalPackage>, GetPackageError>,
    isPendingUpdate: string -> Result<bool, MalformedDataError>,
    existsFailedUpdate: string -> bool,
    isFirstRun: string -> bool)

  /** The state asked for; a `null` request means `Running`. */
  function RequestedState(state: Option<UpdateState>): UpdateState {
    if state.None? then Running else state.value
  }

  /** `q` is `p` with the flags the core derives at query time. */
  predicate IsDecorationOf(q: LocalPackage, p: LocalPackage, pending: bool, stores: Stores, isRunningBinaryVersion: bool) {
    var hash := p.info.packageHash;
    && q.info == p.info.(isFailedInstall := stores.existsFailedUpdate(hash))
    && q.isPending == pending
    && q.isFirstRun == stores.isFirstRun(hash)
    && q.isDebugOnly == isRunningBinaryVersion
  }

  /** Sets the derived flags of a package; the debug-only flag follows the
      process state, not the package. */
  function Decorate(p: LocalPackage, pending: bool, stores: Stores, isRunningBinaryVersion: bool): (q: LocalPackage)
    ensures IsDecorationOf(q, p, pending, stores, isRunningBinaryVersion)
  {
    var hash := p.info.packageHash;
    LocalPackage(
      p.info.(isFailedInstall := stores.existsFailedUpdate(hash)),
      pending,
      stores.isFirstRun(hash),
      isRunningBinaryVersion)
  }

  /** `getUpdateMetadata(state)`. */
  function GetUpdateMetadata(state: Option<UpdateState>, stores: Stores, sync: SyncState): (r: Result<Option<LocalPackage>, CoreError>)
    // the current package cannot be read
    ensures stores.currentPackage.Failure? ==> r == Failure(NativeApiCallError)
    // no update applied: running the binary version
    ensures stores.currentPackage == Success(None) ==> r == Success(None)
    ensures stores.currentPackage.Success? && stores.currentPackage.value.Some? ==>
      var current := stores.currentPackage.value.value;
      var pending := stores.isPendingUpdate(current.info.packageHash);
      && (pending.Failure? ==> r == Failure(NativeApiCallError))
      && (pending == Success(false) && RequestedState(state) == Pending ==> r == Success(None))
      && (pending == Success(true) && RequestedState(state) == Running ==>
            r == stores.previousPackage.WrapError(NativeApiCallError))
      && (pending == Success(true) && RequestedState(state) == Pending ==>
            r.Success? && r.value.Some? && IsDecorationOf(r.value.value, current, true, stores, sync.isRunningBinaryVersion))
      && (pending == Success(false) && RequestedState(state) == Running ==>
            r.Success? && r.value.Some? && IsDecorationOf(r.value.value, current, false, stores, sync.isRunningBinaryVersion))
    // every failure comes from a store that failed
    ensures r.Failure? ==>
      || stores.currentPackage.Failure?
      || (stores.currentPackage.value.Some?
          && var hash := stores.currentPackage.value.value.info.packageHash;
          || stores.isPendingUpdate(hash).Failure?
          || (stores.isPendingUpdate(hash) == Success(true) && RequestedState(state) == Running
              && stores.previousPackage.Failure?))
  {
    match stores.currentPackage
    case Failure(_) => Failure(NativeApiCallError)
    case Success(None) => Success(None)
    case Success(Some(current)) =>
      match stores.isPendingUpdate(current.info.packageHash)
      case Failure(_) => Failure(NativeApiCallError)
      case Success(pending) =>
        var wanted := RequestedState(state);
        if wanted == Pending && !pending then
          Success(None)
        else if wanted == Running && pending then
          stores.previousPackage.WrapError(NativeApiCallError)
        else
          Success(Some(Decorate(current, pending, stores, sync.isRunningBinaryVersion)))
  }

  /** Asking for `Running` gives the previous package exactly when the current
      one is pending, and the current package otherwise. */
  lemma RunningIsPreviousIffPending(stores: Stores, sync: SyncState, current: LocalPackage, previous: Option<LocalPackage>)
    requires stores.currentPackage == Success(Some(current))
    requires stores.isPendingUpdate(current.info.packageHash).Success?
    requires stores.previousPackage == Success(previous)
    ensures var r := GetUpdateMetadata(Some(Running), stores, sync);
      var pending := stores.isPendingUpdate(current.info.packageHash).value;
      && r.Success?
      && (pending ==> r.value == previous)
      && (!pending ==> r.value.Some? && IsDecorationOf(r.value.value, current, false, stores, sync.isRunningBinaryVersion))
  {
  }

  /** A pending current package is what `Pending` returns, whatever the package
      said about being debug-only: that flag follows `isRunningBinaryVersion`. */
  lemma PendingDebugOnlyFollowsBinaryVersion(stores: Stores, sync: SyncState, current: LocalPackage)
    requires stores.currentPackage == Success(Some(current))
    requires stores.isPendingUpdate(current.info.packageHash) == Success(true)
    ensures var r := GetUpdateMetadata(Some(Pending), stores, sync);
      && r.Success? && r.value.Some?
      && r.value.value.info.packageHash == current.info.packageHash
      && r.value.value.isDebugOnly == sync.isRunningBinaryVersion
  {
  }

  /** A broken settings record surfaces as the core's error whatever is asked. */
  lemma MalformedSettingsAlwaysWrapped(state: Option<UpdateState>, stores: Stores, sync: SyncState, current: LocalPackage)
    requires stores.currentPackage == Success(Some(current))
    requires stores.isPendingUpdate(current.info.packageHash).Failure?
    ensures GetUpdateMetadata(state, stores, sync) == Failure(NativeApiCallError)
  {
  }

  /** The server's answer to an update query for a configuration and the
      current package. */
  type UpdateQuery = (Config.Configuration, Option<LocalPackage>) -> Result<Option<RemotePackage>, AcquisitionError>

  /** The key a check runs with: the override when one is given, the configured
      key otherwise. */
  function EffectiveKey(configuration: Config.Configuration, deploymentKey: Option<string>): Option<string> {
    if deploymentKey.Some? then deploymentKey else configuration.deploymentKey
  }

  /** `checkForUpdate(deploymentKey)`: stores the key it runs with in the native
      configuration, asks the server, and marks the offered package with that
      key and with whether its hash failed to install before. */
  function CheckForUpdate(
    configuration: Config.Configuration,
    deploymentKey: Option<string>,
    currentPackage: Result<Option<LocalPackage>, GetPackageError>,
    query: UpdateQuery,
    existsFailedUpdate: string -> bool
  ): (r: Result<Option<RemotePackage>, CoreError>)
    // neither an override nor a configured key: the setter rejects `null`
    ensures EffectiveKey(configuration, deploymentKey).None? ==> r == Failure(NativeApiCallError)
    ensures currentPackage.Failure? ==> r == Failure(NativeApiCallError)
    // without an override the server sees the configuration as it was
    ensures deploymentKey.None? && configuration.deploymentKey.Some? && currentPackage.Success? ==>
      var answer := query(configuration, currentPackage.value);
      && (answer.Failure? ==> r == Failure(NativeApiCallError))
      && (answer == Success(None) ==> r == Success(None))
      && (answer.Success? && answer.value.Some? ==> r.Success? && r.value.Some?)
    ensures deploymentKey.Some? && currentPackage.Success? ==>
      var answer := query(configuration.(deploymentKey := deploymentKey), currentPackage.value);
      && (answer.Failure? ==> r == Failure(NativeApiCallError))
      && (answer == Success(None) ==> r == Success(None))
      && (answer.Success? && answer.value.Some? ==> r.Success? && r.value.Some?)
    // an offered package carries the key the check ran with
    ensures r.Success? && r.value.Some? ==>
      && EffectiveKey(configuration, deploymentKey).Some?
      && currentPackage.Success?
      && var key := EffectiveKey(configuration, deploymentKey);
      && var answer := query(configuration.(deploymentKey := key), currentPackage.value);
      && answer.Success? && answer.value.Some?
      && var offered := answer.value.value;
      && r.value.value.info.packageHash == offered.info.packageHash
      && r.value.value.info.deploymentKey == key.value
      && r.value.value.info.isFailedInstall == existsFailedUpdate(offered.info.packageHash)
      && r.value.value.info.(deploymentKey := offered.info.deploymentKey,
                             isFailedInstall := offered.info.isFailedInstall) == offered.info
      && r.value.value.(info := offered.info) == offered
    ensures r.Failure? ==>
      || EffectiveKey(configuration, deploymentKey).None?
      || currentPackage.Failure?
      || query(configuration.(deploymentKey := EffectiveKey(configuration, deploymentKey)), currentPackage.value).Failure?
  {
    var key := EffectiveKey(configuration, deploymentKey);
    var call := Config.Set(configuration, Config.DeploymentKey, key);
    match call.returned
    case Failure(_) => Failure(NativeApiCallError)
    case Success(configured) =>
      assert configured == configuration.(deploymentKey := key);
      match currentPackage
      case Failure(_) => Failure(NativeApiCallError)
      case Success(current) =>
        match query(configured, current)
        case Failure(_) => Failure(NativeApiCallError)
        case Success(None) => Success(None)
        case Success(Some(update)) =>
          var hash := update.info.packageHash;
          Success(Some(update.(info := update.info.(
            deploymentKey := key.value,
            isFailedInstall := existsFailedUpdate(hash)))))
  }

  /** An override behaves exactly as if the key had been configured beforehand
      and the check run without one. */
  lemma OverrideIsConfiguredKey(
    configuration: Config.Configuration,
    key: string,
    currentPackage: Result<Option<LocalPackage>, GetPackageError>,
    query: UpdateQuery,
    existsFailedUpdate: string -> bool)
    ensures CheckForUpdate(configuration, Some(key), currentPackage, query, existsFailedUpdate)
         == CheckForUpdate(configuration.(deploymentKey := Some(key)), None, currentPackage, query, existsFailedUpdate)
  {
  }

  /** What one `sync()` call does, as far as the re-entry guard is concerned. */
  datatype Action =
    | NotifySyncStatus(status: SyncStatus)  // a status-change notification
    | ReadNativeConfiguration               // configuring the deployment key, the first step of a cycle

  /** The status notifications among the actions, in order. */
  function Notifications(trace: seq<Action>): seq<SyncStatus> {
    if |trace| == 0 then []
    else (if trace[0].NotifySyncStatus? then [trace[0].status] else []) + Notifications(trace[1..])
  }

  /** The notifications of two runs of actions are those of each, in order. */
  lemma {:induction false} NotificationsAppend(a: seq<Action>, b: seq<Action>)
    ensures Notifications(a + b) == Notifications(a) + Notifications(b)
  {
    if |a| > 0 {
      assert (a + b)[0] == a[0];
      assert (a + b)[1..] == a[1..] + b;
      NotificationsAppend(a[1..], b);
    } else {
      assert a + b == b;
    }
  }

  /** The paths by which a started cycle ends. */
  datatype CycleExit =
    | NoUpdate   // the server offered nothing
    | Deferred   // the user put the offered update off
    | Installed  // the update was downloaded and installed
    | Failed     // a download or other failure ended the cycle
    | Cancelled  // stopped at a phase boundary

  /** The status a cycle reports as it ends; a cancelled cycle reports none. */
  function ExitNotifications(exit: CycleExit): seq<Action> {
    match exit
    case NoUpdate => [NotifySyncStatus(UpToDate)]
    case Deferred => [NotifySyncStatus(UpdateIgnored)]
    case Installed => [NotifySyncStatus(UpdateInstalled)]
    case Failed => [NotifySyncStatus(UnknownError)]
    case Cancelled => []
  }

  /** What the unmodelled part of a cycle does: its actions after the
      configuration read, how it ends, and the state it leaves before the
      in-progress flag is released. */
  datatype Cycle = Cycle(actions: seq<Action>, exit: CycleExit, ended: SyncState)

  /** The last step of every cycle: clearing the in-progress flag. */
  function Release(s: SyncState): SyncState {
    s.(syncInProgress := false)
  }

  /** One call of `sync()`: the actions it performs, the state while its cycle
      runs and the state it leaves behind. */
  datatype SyncRun = SyncRun(trace: seq<Action>, during: SyncState, after: SyncState)

  /** `sync()`: rejected with a single `SyncInProgress` notification while
      another cycle runs; otherwise it sets the in-progress flag, runs its cycle
      from reading the native configuration to the exit's status, and clears the
      flag whichever way the cycle ends. */
  function Sync(state: SyncState, cycle: Cycle): (r: SyncRun)
    ensures state.syncInProgress ==>
      && Notifications(r.trace) == [SyncInProgress]
      && ReadNativeConfiguration !in r.trace
      && r.after == state
    ensures !state.syncInProgress ==>
      && r.during.syncInProgress
      && r.during.isRunningBinaryVersion == state.isRunningBinaryVersion
      && |r.trace| > 0 && r.trace[0] == ReadNativeConfiguration
      && Notifications(r.trace) == Notifications(cycle.actions) + Notifications(ExitNotifications(cycle.exit))
      && !r.after.syncInProgress
      && r.after.isRunningBinaryVersion == cycle.ended.isRunningBinaryVersion
  {
    if state.syncInProgress then
      var trace := [NotifySyncStatus(SyncInProgress)];
      assert Notifications(trace[1..]) == [];
      SyncRun(trace, state, state)
    else
      var trace := [ReadNativeConfiguration] + cycle.actions + ExitNotifications(cycle.exit);
      NotificationsAppend([ReadNativeConfiguration] + cycle.actions, ExitNotifications(cycle.exit));
      NotificationsAppend([ReadNativeConfiguration], cycle.actions);
      assert Notifications([ReadNativeConfiguration]) == [];
      SyncRun(trace, state.(syncInProgress := true), Release(cycle.ended))
  }

  /** A `sync()` issued while another one's cycle runs performs nothing but the
      rejection notice and leaves the running cycle's state alone. */
  lemma SyncWhileSyncingIsRejected(state: SyncState, cycle: Cycle, other: Cycle)
    requires !state.syncInProgress
    ensures var first := Sync(state, cycle);
      var second := Sync(first.during, other);
      && Notifications(second.trace) == [SyncInProgress]
      && ReadNativeConfiguration !in second.trace
      && second.after == first.during
  {
  }

  /** However a cycle ends, the flag is released, so a later `sync()` runs its
      own cycle. */
  lemma SyncAfterSyncRuns(state: SyncState, cycle: Cycle, other: Cycle)
    requires !state.syncInProgress
    ensures var second := Sync(Sync(state, cycle).after, other);
      && second.during.syncInProgress
      && second.trace[0] == ReadNativeConfiguration
  {
  }
}
