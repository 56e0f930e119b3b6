/** The entities the update core works with: packages in their local and remote
    views, the update-state selector, sync statuses, the process-wide sync state
    and the error kinds of the stores and of the core. */
module AssetsPackages {

  /** Which package `getUpdateMetadata` asks for. */
  datatype UpdateState =
    | Running  // the package the app is executing now
    | Pending  // installed, waiting for a restart or resume to take effect
    | Latest   // the most recently installed one, pending or not

  /** The phases a sync cycle reports to its listeners. */
  datatype SyncStatus =
    | UpToDate
    | CheckingForUpdate
    | AwaitingUserAction
    | DownloadingPackage
    | InstallingUpdate
    | UpdateInstalled
    | UpdateIgnored
    | SyncInProgress
    | UnknownError

  /** The fields every package carries. */
  datatype PackageInfo = PackageInfo(
    appVersion: string,
    deploymentKey: string,
    description: string,
    packageLabel: string,
    packageHash: string,
    isMandatory: bool,
    isFailedInstall: bool)

  /** A package on the device; the three flags are derived from the settings at
      query time. */
  datatype LocalPackage = LocalPackage(
    info: PackageInfo,
    isPending: bool,
    isFirstRun: bool,
    isDebugOnly: bool)

  /** A package the server offers, not downloaded yet. */
  datatype RemotePackage = RemotePackage(
    info: PackageInfo,
    downloadUrl: string,
    packageSize: int,
    updateAppVersion: bool)

  /** The process-wide state of the core. */
  datatype SyncState = SyncState(syncInProgress: bool, isRunningBinaryVersion: bool)

  /** Package metadata is present but cannot be read. */
  datatype GetPackageError = GetPackageError

  /** The persisted settings cannot be parsed. */
  datatype MalformedDataError = MalformedDataError

  /** The update server could not be queried. */
  datatype AcquisitionError = AcquisitionError

  /** The one error kind the core's public calls throw, whatever failed below it. */
  datatype CoreError = NativeApiCallError
}
