# Assets update client: query core, configuration and identifier helpers

A Dafny model of four small, pure pieces of an over-the-air update client for
Android apps:

- the query side of the update core (`AssetsBaseCore`): `getUpdateMetadata(state)`,
  which picks the package that is running, pending or latest from what the package
  store and the settings store answer; `checkForUpdate(deploymentKey)`, which stores
  the key, asks the update server and marks the offered package; and the re-entry
  guard at the start of `sync()`;
- the string helpers of the base `Util` class: `sanitizeAppIdentifier`,
  `convertAppIdentifierToGuid` and `joinArray`;
- the `AssetsConfiguration` record and its null-rejecting setters;
- the `AssetsCheckFrequency` enum, its integer values and its JSON names.

The source of `AssetsBaseCore` is not part of this model: its behaviour is
taken from the assertions of its unit tests (`AssetsAndroidCoreUnitTests.java`).
Where they are silent the model assumes the following: a pending current package
means the previous one is still running; a `Running` request for a non-pending
current package returns the decorated current package; the debug-only flag of a
returned package is replaced by `isRunningBinaryVersion` (the tests only build
packages whose own flag is false, so they cannot tell replacing from setting);
every lower-level failure becomes the one `NativeApiCallException` kind; a `null`
key given to `checkForUpdate` means "use the configured key"; and a started
`sync()` cycle begins by reading the native configuration and clears the
in-progress flag on every way it can end.

Layout, one module per file:

| file | module | models |
|---|---|---|
| `results.dfy` | `Results` | `null` as `Option.None`, thrown exceptions as `Result.Failure` |
| `java_text.dfy` | `JavaText` | Java strings as UTF-16 code units, `String.trim()`, the hex character class |
| `util.dfy` | `Util` | `sanitizeAppIdentifier`, `convertAppIdentifierToGuid`, `joinArray` |
| `configuration.dfy` | `AssetsConfiguration` | the configuration record and its setters |
| `check_frequency.dfy` | `CheckFrequency` | `AssetsCheckFrequency` |
| `packages.dfy` | `AssetsPackages` | packages, update states, sync statuses, sync state, error kinds |
| `core.dfy` | `AssetsCore` | `getUpdateMetadata`, `checkForUpdate`, the `sync()` guard |

Modelling choices:

- Java strings in `Util` are sequences of UTF-16 code units (`JavaText.CodeUnit`),
  because `length()` and `trim()` count code units; in the assets modules strings
  are only stored and compared, so they are plain Dafny `string`s.
- A setter call yields `Call(receiver, returned)`: the object as the call leaves
  it, and either the object itself (the `return this` that allows chaining) or
  the thrown `AssetsIllegalArgumentException`.
- The stores and the update server are parameters: `AssetsCore.Stores` holds what
  `getCurrentPackage`, `getPreviousPackage`, `isPendingUpdate`,
  `existsFailedUpdate` and `isFirstRun` answer, and `checkForUpdate` receives the
  server's answer as a function of the configuration and the current package.
- `checkForUpdate` runs with the key given, or with the configured key when it is
  given `null`, and stores that key through the real `setDeploymentKey`; so the
  failure that becomes `NativeApiCallException` is the setter's rejection of
  `null`, when neither key exists.
- `sync()` is modelled as far as its guard goes: a call made while a cycle runs
  yields one `SYNC_IN_PROGRESS` notification and nothing else; a call that starts
  holds the in-progress flag for its cycle, begins by reading the native
  configuration, and releases the flag however the cycle ends. The rest of the
  cycle is a parameter: its actions, the way it ends (no update, deferred,
  installed, failed, cancelled) and the state it leaves.

## Model

| member | source | states |
|---|---|---|
| `JavaText.Trim` | base/src/main/java/avalanche/base/utils/Util.java:138 | the result is a slice of the input with only code units up to U+0020 cut from each end, and neither of its ends is such a code unit |
| `JavaText.TrimUnique` | base/src/main/java/avalanche/base/utils/Util.java:138 | any split of the input into removable units, a middle whose ends are not removable, and removable units, has that middle as the trimmed result |
| `JavaText.TrimIdempotent` | base/src/main/java/avalanche/base/utils/Util.java:138 | trimming twice equals trimming once |
| `Util.SanitizeAppIdentifier` | base/src/main/java/avalanche/base/utils/Util.java:132-149 | `null` fails with the null error; otherwise a trimmed length other than 32 fails with the length error (checked first); a trimmed 32-unit string fails with the pattern error exactly when some unit is not a hex digit in either case; success returns exactly the trimmed input |
| `Util.SanitizeIdempotent` | base/src/main/java/avalanche/base/utils/Util.java:132-149 | sanitising an accepted identifier's result accepts it again, unchanged |
| `Util.Insert` | base/src/main/java/avalanche/base/utils/Util.java:325-329 | `StringBuffer.insert` puts the unit at the index and shifts the rest right by one |
| `Util.InsertionsBuildLayout` | base/src/main/java/avalanche/base/utils/Util.java:325-330 | inserting hyphens at 20, 16, 12 and 8 in that order yields the 8-4-4-4-12 grouping of the 32 digits |
| `Util.GuidLayoutIsGuid` | base/src/main/java/avalanche/base/utils/Util.java:324-331 | the grouping of 32 hex digits has length 36, hyphens at 8, 13, 18 and 23 and hex digits everywhere else |
| `Util.GuidLayoutRemoveDashes` | base/src/main/java/avalanche/base/utils/Util.java:324-331 | deleting the hyphens of the grouping gives back the 32 digits |
| `Util.ConvertAppIdentifierToGuid` | base/src/main/java/avalanche/base/utils/Util.java:313-333 | fails exactly when sanitising fails, with the same error; on success the result is GUID text (section 3 of RFC 4122 layout) whose hyphen-free form is the sanitised identifier |
| `Util.JoinArray` | base/src/main/java/avalanche/base/utils/Util.java:362-371 | the loop builds exactly the elements in order with the delimiter between each two neighbours: no elements give the empty string and one element gives itself |
| `Util.JoinLength` | base/src/main/java/avalanche/base/utils/Util.java:362-371 | the joined length is the sum of the element lengths plus (n-1) times the delimiter length |
| `Util.JoinPlacesParts` | base/src/main/java/avalanche/base/utils/Util.java:362-371 | element k sits at its offset in the result and a delimiter follows every element but the last |
| `AssetsConfiguration.NewConfiguration` | sdk/appcenter-assets/src/main/java/com/microsoft/appcenter/assets/AssetsConfiguration.java:13-39 | a new configuration has every field unset |
| `AssetsConfiguration.Set` | sdk/appcenter-assets/src/main/java/com/microsoft/appcenter/assets/AssetsConfiguration.java:55-195 | the six validating setters: a non-null value becomes what the field's getter returns and the object itself is returned; `null` throws an illegal-argument error naming the field and leaves the object unchanged; no other field changes |
| `AssetsConfiguration.SetPackageHash` | sdk/appcenter-assets/src/main/java/com/microsoft/appcenter/assets/AssetsConfiguration.java:203-206 | never throws, stores any value including `null`, returns the object, changes no other field |
| `AssetsConfiguration.ChainedSetters` | sdk/appcenter-assets/src/main/java/com/microsoft/appcenter/assets/AssetsConfiguration.java:173-195 | calling a second setter on what the first returned leaves both values set and every other field as it was |
| `AssetsConfiguration.ChainStopsAtNull` | sdk/appcenter-assets/src/main/java/com/microsoft/appcenter/assets/AssetsConfiguration.java:55-62 | a `null` in a chain throws and leaves the object as the earlier setters made it |
| `AssetsConfiguration.SettersCommute` | sdk/appcenter-assets/src/main/java/com/microsoft/appcenter/assets/AssetsConfiguration.java:78-85 | setters of different fields can be applied in either order |
| `AssetsConfiguration.LastSetWins` | sdk/appcenter-assets/src/main/java/com/microsoft/appcenter/assets/AssetsConfiguration.java:143-150 | a second successful set of the same field overrides the first |
| `CheckFrequency.Value` | sdk/appcenter-assets/src/main/java/com/microsoft/appcenter/assets/enums/AssetsCheckFrequency.java:13-41 | `ON_APP_START` is 0, `ON_APP_RESUME` is 1, `MANUAL` is 2, and every value lies in 0..2 |
| `CheckFrequency.ValueInjective` | sdk/appcenter-assets/src/main/java/com/microsoft/appcenter/assets/enums/AssetsCheckFrequency.java:28-41 | distinct constants have distinct values |
| `CheckFrequency.FromValue` | sdk/appcenter-assets/src/main/java/com/microsoft/appcenter/assets/enums/AssetsCheckFrequency.java:13-26 | a constant exists for an integer exactly when it lies in 0..2, and its value is that integer |
| `CheckFrequency.ValueBijective` | sdk/appcenter-assets/src/main/java/com/microsoft/appcenter/assets/enums/AssetsCheckFrequency.java:13-26 | looking a constant's value up gives the constant back, and each of 0, 1, 2 is some constant's value |
| `CheckFrequency.SerializedName` | sdk/appcenter-assets/src/main/java/com/microsoft/appcenter/assets/enums/AssetsCheckFrequency.java:13-26 | each constant's JSON name is the decimal notation of its value |
| `CheckFrequency.Deserialize` | sdk/appcenter-assets/src/main/java/com/microsoft/appcenter/assets/enums/AssetsCheckFrequency.java:13-26 | a name decodes to the constant that carries it, and to nothing when no constant carries it |
| `CheckFrequency.SerializedNameRoundTrip` | sdk/appcenter-assets/src/main/java/com/microsoft/appcenter/assets/enums/AssetsCheckFrequency.java:13-26 | decoding a constant's JSON name yields the constant |
| `CheckFrequency.SerializedNameInjective` | sdk/appcenter-assets/src/main/java/com/microsoft/appcenter/assets/enums/AssetsCheckFrequency.java:13-26 | distinct constants have distinct JSON names |
| `AssetsCore.Decorate` | sdk/appcenter-assets/src/test/java/com/microsoft/appcenter/assets/core/AssetsAndroidCoreUnitTests.java:232-259 | the returned package keeps its hash and fields, takes its failed-install and first-run flags from the lookups by hash, and its debug-only flag from `isRunningBinaryVersion` |
| `AssetsCore.GetUpdateMetadata` | sdk/appcenter-assets/src/test/java/com/microsoft/appcenter/assets/core/AssetsAndroidCoreUnitTests.java:79-259 | a failing current-package lookup or pending check gives the wrapped error; no current package gives none; `Pending` of a non-pending package gives none; `Running` (or `null`) of a pending package gives the previous-package lookup, its failure wrapped; `Pending` of a pending package gives it decorated; every failure traces back to a failing store |
| `AssetsCore.RunningIsPreviousIffPending` | sdk/appcenter-assets/src/test/java/com/microsoft/appcenter/assets/core/AssetsAndroidCoreUnitTests.java:151-167 | with working stores, `Running` yields the previous package when the current one is pending and the decorated current package when it is not |
| `AssetsCore.PendingDebugOnlyFollowsBinaryVersion` | sdk/appcenter-assets/src/test/java/com/microsoft/appcenter/assets/core/AssetsAndroidCoreUnitTests.java:195-225 | `Pending` of a pending package returns that hash with debug-only equal to `isRunningBinaryVersion` (the tests fix the package's own flag to false; that it is replaced rather than combined is the assumption stated above) |
| `AssetsCore.MalformedSettingsAlwaysWrapped` | sdk/appcenter-assets/src/test/java/com/microsoft/appcenter/assets/core/AssetsAndroidCoreUnitTests.java:130-145 | a malformed settings record yields only the wrapped error, whichever state is asked for |
| `AssetsCore.CheckForUpdate` | sdk/appcenter-assets/src/test/java/com/microsoft/appcenter/assets/core/AssetsAndroidCoreUnitTests.java:265-302 | the key used is the one given, or the configured one for `null`; no key at all, a failing lookup or a failing query gives the wrapped error and nothing else fails; without a given key the server sees the configuration unchanged, with one it sees the configuration carrying it; every offered package is returned, with the key used as its deployment key and its failed-install flag from the lookup of its hash, all else unchanged |
| `AssetsCore.OverrideIsConfiguredKey` | sdk/appcenter-assets/src/test/java/com/microsoft/appcenter/assets/core/AssetsAndroidCoreUnitTests.java:279-302 | checking with a key gives the same answer as configuring that key first and checking without one |
| `AssetsCore.Sync` | sdk/appcenter-assets/src/test/java/com/microsoft/appcenter/assets/core/AssetsAndroidCoreUnitTests.java:59-72 | while a sync is in progress a call yields exactly one notification, `SYNC_IN_PROGRESS`, never reads the native configuration and changes no state; otherwise it holds the flag during its cycle, starts by reading the configuration, reports the cycle's notifications followed by its exit's status, and leaves the flag clear whichever way the cycle ends |
| `AssetsCore.SyncWhileSyncingIsRejected` | sdk/appcenter-assets/src/test/java/com/microsoft/appcenter/assets/core/AssetsAndroidCoreUnitTests.java:59-72 | a second call made during a running cycle does nothing but notify `SYNC_IN_PROGRESS`, and leaves the running cycle's state as it was |
| `AssetsCore.SyncAfterSyncRuns` | sdk/appcenter-assets/src/test/java/com/microsoft/appcenter/assets/core/AssetsAndroidCoreUnitTests.java:59-72 | after a cycle ends, by any exit, the next call starts a cycle of its own |

## Left out

- `AssetsCore.GetUpdateMetadata`: no contract fixes the answer to a `Latest` request beyond its error cases; the body treats it like the remaining branch (the decorated current package), which nothing in the tests confirms.
- `AssetsCore.GetUpdateMetadata`: the wrapped error carries no cause; only its kind is modelled.
- `AssetsCore.CheckForUpdate`: the model returns every offer, as the tests' fixture does; any further filtering of the server's offer inside `AssetsBaseCore` (an offer of the running hash, an app-version mismatch) and the placeholder package sent when none is installed are not modelled, because that code is not part of this model.
- `AssetsCore.CheckForUpdate`: the meaning of a `null` key (fall back to the configured key) and the setter call with `null` when no key exists at all are assumptions, because the code of `AssetsBaseCore` is not part of this model; the tests pass only a non-null key.
- `AssetsCore.Sync`: that the cycle begins with the configuration read, the status each exit reports and the absence of a status for a cancelled cycle are assumptions, as is the release on every exit; the tests show only the rejected call.
- `AssetsCore.Sync`: the cycle after the guard (download, install, install modes, confirmation dialog, status-report retry) is an opaque list of actions; the concurrency of the flag is not modelled, only its sequential behaviour.
- `Util.JoinArray`: a `null` array (which throws), `null` elements and a `null` delimiter (each appended as the text "null", the delimiter once per gap when there are two or more elements) are not modelled; elements and delimiter are non-null strings.
- `AssetsConfiguration.Set`: the class name in the exception is that of `AssetsConfiguration` itself; a subclass would report its own name.
- `AssetsAndroidCore.java`: Android wiring (a `Context`, a dialog), empty install-mode and retry hooks, and a `loadApp` that only calls a listener.
- The package store, the settings store, download, install and the network: their code is not part of this model; their answers are parameters.
- The Android- and I/O-bound parts of `Util.java`: `isValidEmail`, `runsOnTablet`, notifications, manifest reads, `getAppName`, `isConnectedToNetwork`, `contentsOfFile`, `isEmulator`, `classExists`, `fragmentsSupported`, `isMainActivity`.
- `dateToISO8601` (clock and time-zone formatting), `encodeParam` and `getFormString` (`URLEncoder`, map iteration order).
- `EventLogFactory.java`, `StartServiceLogFactory.java` (delegation to telemetry classes that are not part of this model), `AndroidTestUtils.java` (random mock data), `AssetsDownloadPackageResult.java` (a holder of a file and a flag, unused here).
