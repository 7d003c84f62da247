# dockd display reconciliation, modelled in Dafny

This project models the core of dockd's `CRTControllerManager`. The manager
re-applies a saved RandR display layout when a ThinkPad is docked or
undocked, and it can capture the live layout as a profile.

The X server is an abstract topology (`Hardware.Topology`). It holds:

- the controllers (CRTCs): id, position, mode id, rotation and attached output ids;
- the outputs: id, name, connected flag and supported mode ids;
- the global modes: id and name;
- the screen size.

Every re-read of the screen resources takes the next topology from an
oracle sequence (`Hardware.Server`). Once the sequence is exhausted the
hardware has settled, and a re-read returns the same topology again.

The display-changing X requests are recorded as an ordered trace
(`Apply.XCall`): `Grab`, `Disable`, `Sync`, `SetScreenSize`, `Enable` and
`Ungrab`. A small semantics of those requests (`Apply.Run`) gives the
display state they leave behind.

Modules:

- `Hardware`: the topology and the server oracle.
- `Records`: the records of `crtc.h`. These are the dock states and their
  two profile paths, `CRTConfig`, `OutputConfigs`, and a parsed profile
  (one Screen section and the CRTC sections in file order).
- `Lookup`: `getRROutputByName`, `isOutputModeSupported` and
  `getRRModeByNameSupported`. Each is a scanning method proved equal to a
  pure definition. The source signals "try again" with the id
  `(XID)-EAGAIN`. Here that is the datatype
  `Resolved(id) | NotYetAvailable | NotFound`, so it cannot collide with a
  real id.
- `Resolve`: the retry loops and the per-section resolution of
  `getOutputConfigs` and `applyConfiguration`, as pure definitions, with
  the retry bounds, mode agreement and shape properties proved.
- `Validation`: the structural check of the profile's CRTC sections
  against the live controllers.
- `Apply`: the three-phase request sequence, its ordering, its effect on
  the display, and idempotence.
- `Snapshot`: the serialization part of `writeConfigToDisk`.
- `Engine`: all of `applyConfiguration` as one definition (`Reconcile`),
  with its failure and commit properties and worked scenarios.
- `Manager`: the class `CRTControllerManager`. Its `resources` field is
  refreshed in place by the retry loops. Its `trace` field collects the
  requests, and its `files` field holds the readable profile files by path.
  Its `displaySize` field is the screen size the X connection recorded when
  it was opened, which is what a capture stores.
  Each method is proved to compute what the pure definitions say.

Five behaviours of the code that a reader might not expect:

- The structural check does not compare sets of controller ids. It rejects
  only *fewer* CRTC sections than live controllers (extra sections pass).
  It then counts the (live controller, section) pairs with equal ids. So a
  profile that names one live controller twice and leaves out another one
  passes the check (`Validation.DuplicateSectionMasksMissing`). With
  distinct ids on both sides the check is exactly "every live controller
  has a section" (`Validation.ValidateDistinct`).
- Because of that count, a profile with two sections for one live
  controller is applied: that controller is disabled twice and then
  enabled once for each of those sections that has a mode, and the live
  controller without a section is never touched
  (`Engine.DuplicateSectionScenario`).
- The output retry loop re-reads the resources *before* it tests its
  counter. It therefore gives up after twelve lookups and twelve re-reads.
  The mode loop tests first, so it gives up after twelve lookups and eleven
  re-reads. Neither stops at eleven attempts.
- An output name that no output carries fails at once, without a retry.
  Only an output that is present but disconnected is retried.
- The mode lookup never reports "not found". It asks to try again until
  the attempt ceiling is reached.

Each retry loop keeps the source's return convention: a loop result of
`NONE` (the id 0) means failure. So a lookup that resolves to the id 0 is
treated as a failure, as in the source.

## Model

| member | source | states |
|---|---|---|
| `Records.ProfilePath` | crtc.cpp:53-60 | Docked and Undocked each select one of the two fixed profile paths. |
| `Records.ProfilePathsDistinct` | crtc.h:11-12 | The two dock states use different files, so capturing one state never overwrites the other. |
| `Lookup.LookupOutput` | crtc.cpp:507-533 | NotFound exactly when no output has the name; a resolved id is that of a connected output with the name; try-again only when an output with the name is disconnected. |
| `Lookup.LookupMode` | crtc.cpp:535-559 | Never NotFound; a resolved id is that of a global mode with the name that the output supports; try-again only when no such mode exists. |
| `Lookup.LookupOutputMeaning` | crtc.cpp:507-533 | The output lookup is NotFound exactly when no output has the name. Otherwise the first output with the name decides: its id if connected, try-again if not. |
| `Lookup.GetRROutputByName` | crtc.cpp:507-533 | The scan over the outputs returns what the first name match says, or NotFound. |
| `Lookup.IsOutputModeSupported` | crtc.cpp:456-471 | Returns true exactly when the mode is in that output's own mode list. |
| `Lookup.OutputModesMeaning` | crtc.cpp:458 | An output's mode list is the list of the first output with its id. |
| `Lookup.LookupModeMeaning` | crtc.cpp:535-559 | The mode lookup never says NotFound. It resolves exactly when a global mode with the name is in the output's mode list, and then to the first such mode. |
| `Lookup.GetRRModeByNameSupported` | crtc.cpp:535-559 | The scan over the global modes returns the first mode that has the name and that the output supports, else try-again. |
| `Resolve.AwaitOutput` | crtc.cpp:381-399 | The output loop makes between one and twelve lookups. A real handle is what the last lookup resolved to. A failure before the twelfth lookup means the output was absent, not disconnected. |
| `Resolve.AwaitMode` | crtc.cpp:408-434 | The mode loop makes between one and twelve lookups. A real handle is what the last lookup resolved to. |
| `Resolve.NeverConnectedGivesUp` | crtc.cpp:381-399 | An output that stays disconnected is given up after exactly twelve lookups and twelve re-reads of the resources. |
| `Resolve.ModeNeverVisibleGivesUp` | crtc.cpp:408-434 | A mode that never appears on the output is given up after exactly twelve lookups and eleven re-reads. |
| `Resolve.OutputConnectsInTime` | crtc.cpp:381-399 | An output that connects after k re-reads, within the ceiling, is found after exactly k re-reads. |
| `Resolve.ModeAppearsInTime` | crtc.cpp:408-434 | A mode that appears after k re-reads, within the ceiling, is found after exactly k re-reads. |
| `Resolve.AbsentOutputFailsAtOnce` | crtc.cpp:396-400 | An output name that no output carries fails on the first lookup, without any re-read. |
| `Resolve.OutputsFromShape` | crtc.cpp:376-446 | The output loop fails only with -ENODEV. On success it appends as many real outputs as there are names (which outputs they are is `OutputsFromMeaning`), keeps an already fixed mode, and has mode None exactly when it has no outputs. |
| `Resolve.OutputConfigsShape` | crtc.cpp:362-454 | getOutputConfigs fails only with -ENODEV. Mode "None" gives no outputs and no lookup. On success there is one output per name, and mode None exactly when there are no outputs, so the runtime-error branch at line 448 is never taken. |
| `Resolve.DisabledSectionNeedsNoLookup` | crtc.cpp:119-127 | A section without outputs, or with mode "None", resolves to mode None and no outputs without touching the resources. |
| `Resolve.AwaitOutputLater` | crtc.cpp:381-399 | The output loop only moves on to readings the server was going to report. |
| `Resolve.AwaitModeLater` | crtc.cpp:408-434 | The mode loop only moves on to readings the server was going to report. |
| `Resolve.OutputsFromLater` | crtc.cpp:376-446 | The loop over a section's output names only moves on to readings the server was going to report. |
| `Resolve.OutputsFromMeaning` | crtc.cpp:376-446 | Whatever the retry timing, a successful output loop keeps what was there, and its k-th added output is the connected output that some reading gave the k-th name. On that output some reading offered a mode with the section's mode name as the controller's mode. |
| `Resolve.SectionRealized` | crtc.cpp:113-148 | The CRTConfig built from a resolved section keeps its controller, position and rotation, and noutputs counts its outputs. It is off for an off section. Otherwise its k-th output is the connected output some reading gave the k-th name, and its mode is not None and is what some reading offered under the section's mode name on each output. |
| `Resolve.ResolveFromRealizes` | crtc.cpp:106-152 | A successful section loop appends one realizing CRTConfig per section, in section order, with outputs and mode as `SectionRealized` states, seen in readings from the one the loop started with. |
| `Resolve.ResolveSectionsRealize` | crtc.cpp:95-157 | A successful resolution of a profile yields exactly one realizing CRTConfig per section, in order: the outputs named by the section, connected, each offering the section's mode as the controller's mode. |
| `Resolve.ResolveFromError` | crtc.cpp:130-134 | Resolving the sections fails, if at all, with -ENODEV. |
| `Resolve.SettledResolveFrom` | crtc.cpp:106-152 | On a settled server, resolving the sections leaves the resources as they were. |
| `Resolve.OutputsFrom` | crtc.cpp:376-446 | Defines the loop over a section's output names: resolve the output, then its mode; the first mode fixes the controller's mode, a different later mode fails. Its properties are `OutputsFromShape`, `OutputsFromMeaning` and `OutputsFromAgree`. |
| `Resolve.OutputConfigsFor` | crtc.cpp:362-454 | Defines getOutputConfigs: mode "None" gives no outputs, otherwise the output loop. Its properties are `OutputConfigsShape` and `ModeAgreement`. |
| `Resolve.ResolveSection` | crtc.cpp:113-127 | Defines the per-section step: no outputs means off without lookup, otherwise getOutputConfigs. Its properties are `DisabledSectionNeedsNoLookup` and `SectionRealized`. |
| `Resolve.ResolveFrom` | crtc.cpp:106-152 | Defines the section loop, which stops at the first error. Its properties are `ResolveFromRealizes` and `ResolveFromError`. |
| `Resolve.OutputsFromAgree` | crtc.cpp:402-443 | For any retry timing: on success every output resolved to a mode and all agree with the controller's mode; modes that disagree give -ENODEV and mode None. |
| `Resolve.ModeAgreement` | crtc.cpp:436-443 | For any retry timing: a successful section resolved every output to one and the same mode, the controller's mode; two outputs whose modes differ make it fail with -ENODEV and mode None. |
| `Resolve.SettledModeAgreement` | crtc.cpp:376-446 | On a settled server where every output and its mode resolve at the first lookup: differing modes fail with -ENODEV and mode None, and one shared mode yields exactly those outputs, in profile order, with that mode. |
| `Validation.ValidateProfile` | crtc.cpp:67-93 | Defines the structural check: too few sections first, then a match count different from the number of live controllers. Its properties are `ValidateDistinct` and `DuplicateSectionMasksMissing`. |
| `Validation.CheckControllers` | crtc.cpp:65-93 | The nested counting loops return what the structural check defines: too few sections first, then a changed controller map when the match count differs from the number of live controllers. |
| `Validation.ValidateDistinct` | crtc.cpp:67-93 | With distinct ids on both sides, a profile is accepted exactly when every live controller has a section. Extra sections are accepted. |
| `Validation.DuplicateSectionMasksMissing` | crtc.cpp:77-93 | Two sections for the same live controller pass the count although the other live controller has no section. |
| `Apply.ApplyTrace` | crtc.cpp:161-238 | The trace of a successful apply has six fixed requests plus one disable per config and one enable per config with a mode, starts with the grab and ends with the ungrab. |
| `Apply.DisablePhase` | crtc.cpp:163-183 | One disable request per configured controller, in profile order. |
| `Apply.EnablePhase` | crtc.cpp:209-235 | At most one request per config, and every request is an enable with a real mode. |
| `Apply.EnablePhaseExact` | crtc.cpp:216-227 | The enable phase issues exactly the enable requests of the controllers whose mode is not None. |
| `Apply.ApplyOrder` | crtc.cpp:161-238 | The trace starts with the grab and ends with the ungrab. The disables follow the grab in profile order, the single resize comes after all of them, and every enable comes after the resize. |
| `Apply.PhasesInOrder` | crtc.cpp:159-207 | Every disable precedes the resize, and the resize precedes every enable. |
| `Apply.DisabledNeverEnabled` | crtc.cpp:216-227 | A controller all of whose configs have mode None is disabled and never re-enabled. With two configs for one controller, one of them with a mode, it is re-enabled (`Engine.DuplicateSectionScenario`). |
| `Apply.DisableAllMeaning` | crtc.cpp:163-183 | The disable phase turns every configured controller off and leaves every other controller as it was. |
| `Apply.RunApplyTrace` | crtc.cpp:161-238 | Running the apply trace leaves the configured controllers enabled or off, the profile's screen size, and no grab. |
| `Apply.ApplyIdempotent` | crtc.cpp:161-238 | Applying the same resolved configs twice leaves the display as applying them once. |
| `Apply.ApplyResult` | crtc.cpp:161-238 | With one config per controller, after an apply each configured controller runs its config (or is off when its mode is None), other controllers keep their setting, the screen has the profile's size, and the grab is released. |
| `Snapshot.ModeNameNone` | crtc.cpp:306-318 | The mode-name scan finds nothing exactly when no global mode has the id. |
| `Snapshot.ModeNameLast` | crtc.cpp:306-313 | The scan does not stop at a match, so the last mode entry with the id gives the name. |
| `Snapshot.FindModeName` | crtc.cpp:296-318 | The flag-and-scan loop gives "None" for mode 0, otherwise the name of the last mode with the id, or failure. |
| `Snapshot.OutputNames` | crtc.cpp:324-337 | One name per attached output, in attachment order. |
| `Snapshot.CollectOutputNames` | crtc.cpp:322-339 | The output-name loop builds exactly those names. |
| `Snapshot.SnapshotTopology` | crtc.cpp:263-349 | The section loop builds the captured profile, and gives up at the first controller whose mode has no name. |
| `Snapshot.Capture` | crtc.cpp:258-349 | Defines the captured profile: the screen size and one section per live controller, or failure at the first unnamed mode. Its properties are `CaptureShape` and `CaptureValidates`. |
| `Snapshot.CaptureShape` | crtc.cpp:281-349 | Capture fails exactly when some live controller's mode is not listed. Otherwise it holds the screen size and one section per live controller, in controller order, with its id, position, rotation, mode field and output names. |
| `Snapshot.CaptureValidates` | crtc.cpp:289 | With distinct live controller ids, a captured profile passes the structural check against the topology it came from. |
| `Engine.Reconcile` | crtc.cpp:20-242 | applyConfiguration as a whole: it commits exactly when it issues any request, so every failure issues none. |
| `Engine.FailureIssuesNothing` | crtc.cpp:39-157 | Every failure issues no request. The profile is unreadable exactly when either file is unreadable, whatever the state. It is rejected exactly when the structural check fails. A resolution failure is -ENODEV. |
| `Engine.CommitMeansResolved` | crtc.cpp:95-238 | A committed apply passed the structural check, resolved every section to a realizing config in order (the outputs the sections name, connected, with the section's mode on each, in readings from the refreshed one on), and issued exactly the three-phase trace for those configs and the Screen section. |
| `Engine.CapturedProfilePassesChecks` | crtc.cpp:244-349 | On a settled server, a profile captured from the live topology with distinct controller ids passes both the readability and the structural checks. |
| `Engine.LaptopSectionRealizedOnlyByLiveHandles` | crtc.cpp:113-148 | On the settled laptop topology the only config realizing the eDP-1 section is the one with output 10 and mode 100. |
| `Engine.LaptopScenario` | crtc.cpp:20-242 | Two controllers, one driving eDP-1 at 1920x1080 and one off: both are disabled, the screen is resized, then only the first is enabled. |
| `Engine.AbsentOutputScenario` | crtc.cpp:376-400 | A profile naming an output that is absent fails with -ENODEV and issues no request. |
| `Engine.DuplicateSectionScenario` | crtc.cpp:77-227 | Two sections for live controller 1 (one off, one with a mode) and none for controller 2 pass the check; controller 1 is disabled twice and then enabled, and controller 2 is never disabled. |
| `Manager.CRTControllerManager.constructor` | crtc.cpp:9-12 | The manager starts with the server's first reading of the resources, the screen size of that reading as the connection's recorded size, and an empty request trace. |
| `Manager.CRTControllerManager.RefreshResources` | crtc.cpp:385-388 | Freeing and re-reading the resources takes the next topology and keeps the resources well formed. |
| `Manager.CRTControllerManager.FindOutput` | crtc.cpp:378-400 | The output retry loop, with its counter and break, leaves the handle and the resources that `AwaitOutput` defines. |
| `Manager.CRTControllerManager.FindMode` | crtc.cpp:404-434 | The mode retry loop leaves the handle and the resources that `AwaitMode` defines. |
| `Manager.CRTControllerManager.GetOutputConfigs` | crtc.cpp:362-454 | getOutputConfigs leaves the resources and the OutputConfigs that `OutputConfigsFor` defines. |
| `Manager.CRTControllerManager.ResolveControllers` | crtc.cpp:95-157 | The section loop leaves the configs, the first error and the resources that `ResolveSections` defines. |
| `Manager.CRTControllerManager.DisableControllers` | crtc.cpp:163-183 | Appends exactly the disable phase to the trace. |
| `Manager.CRTControllerManager.EnableControllers` | crtc.cpp:209-235 | Appends exactly the enable phase to the trace. |
| `Manager.CRTControllerManager.Commit` | crtc.cpp:161-238 | Appends exactly the three-phase trace with its grab, syncs, resize and ungrab. |
| `Manager.CRTControllerManager.ApplyConfiguration` | crtc.cpp:20-242 | Returns true exactly when `Reconcile` commits. It leaves the resources that `Reconcile` leaves and appends exactly the trace it issues, which is empty on every failure. The new connection records the screen size of the refreshed reading. |
| `Manager.CRTControllerManager.WriteConfigToDisk` | crtc.cpp:244-360 | Re-reads the resources and succeeds exactly when the capture succeeds and the write succeeds. The captured screen size is the one the connection recorded when it was opened, not the re-read one. On success it stores the captured profile under the state's path, and no other profile file changes. |

## Left out

- X11 connection setup and teardown (`connectToX`, `disconnectFromX`, the
  exit on a failed connection). This is foreign I/O. The reconnect at the
  start of `applyConfiguration` is one re-read of the resources, and the
  new connection records the screen size of that reading.
- `usleep` back-off and all `syslog` messages. Only the attempt counter
  and the re-read between attempts are modelled.
- Reading and writing profile files, which goes through the external Ini
  library, and the `access()` checks. A profile is an already-parsed record.
  A file is readable when `files` holds its path. The result of the write
  is the `written` parameter of `WriteConfigToDisk`, and a failed write is
  taken to leave the files unchanged.
- A profile without a Screen section, or with missing keys. The parsed
  profile always has one, so the null dereference the source would hit is
  not modelled.
- `DockState.INVALID` passed to `applyConfiguration` or
  `writeConfigToDisk`. Every call site passes DOCKED or UNDOCKED: the event
  handler passes constants (main.cpp:29 and main.cpp:35), and the
  command-line paths return before the call on INVALID (main.cpp:75 and
  main.cpp:101). So both methods require a state other than `Invalid`.
- `Lookup.OutputModes` gives an empty mode list for an output id that the
  current reading no longer lists, so the mode loop retries and then fails
  with -ENODEV. In the source, `XRRGetOutputInfo` on such an id
  (crtc.cpp:458) is a BadRROutput protocol error, which ends the process
  under Xlib's default error handler. The model does not capture that exit.
  It can happen when outputs change during the mode loop's re-read
  (crtc.cpp:424).
- Changes of the screen size that the X connection learns of through
  events. `displaySize` changes only when a connection is opened, so after
  an apply that resizes the screen, a capture without a new connection
  records the size from before the resize, as the source does.
- The truncation of the profile's `rotation` integer to the 16-bit
  `Rotation` type (crtc.cpp:142). The model keeps the rotation as an
  unbounded integer.
- Memory management (`calloc`, `free`, `new`, `delete`), the `DRYRUN`
  macro, and the `(int)` casts of ids. Ids are unbounded naturals, so the
  sentinel `(XID)-EAGAIN` cannot collide with a real id.
- The effect of a failed X request in the middle of the apply phase. Every
  request is taken to succeed, because the source neither checks results
  nor rolls back.
- The pthread mutex around event handling, the ACPI daemon loop, the
  command-line surface (main.cpp) and the hook scripts (hooks.cpp). These
  are concurrency, event sources and foreign process execution.
