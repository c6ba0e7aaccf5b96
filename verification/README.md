# CBPLauncher core, modelled in Dafny

CBPLauncher is a Windows launcher for the Community Balance Patch (CBP), a mod
for Rise of Nations. At start-up it compares the patch version installed in the
game's local mods folder with the version a server publishes. Then it installs
or updates the patch, either from the Steam Workshop copy or from a download.
It can also archive the previous install, park the patch under "Unloaded Mods",
restore it, and launch the game.

This project models the logic of `CBPLauncher/MainWindow.xaml.cs`, in six modules:

- `Wrappers` (wrappers.dfy) holds the `Option` and `Result` types the
  other modules use for absent values and raised exceptions.
- `Versions` (versions.dfy) covers the four-part `Version` struct:
  - its lenient text constructor, with `String.Split('.')` and
    `short.Parse` written out;
  - `ToString` and `IsDifferentThan`;
  - the `VersionArray` display tables, which turn 3.1.2.0 into "Beta 1b".
- `Status` (status.dfy) covers the twelve `LauncherStatus` values and what the
  `Status` setter shows: the status line, the button caption, and whether the
  button is enabled.
- `Tree` (tree.dfy) models a folder as an ordered tree of files and
  sub-folders. It contains `File.WriteAllText` and the recursive
  `DirectoryCopy`. The copy raises on the first clash and leaves the partial
  copy behind. The same no-overwrite merge also models unpacking the
  downloaded archive.
- `Engine` (engine.dfy) holds the event handlers as pure functions over a
  `State`. A `State` holds:
  - the persisted settings flags;
  - an abstract `World` with the installed, parked, legacy, archived and
    Workshop folders, plus the temporary zip;
  - the status;
  - the version a download was started with.

  What the outside world decides is passed in as parameters:
  - the text the version endpoint serves;
  - the tree the downloaded archive holds;
  - the user's answers to the prompts;
  - whether the game executable exists.

  An exception the source catches becomes the status its `catch` sets. An
  exception nothing catches ends the run as `Halted(Unhandled, …)`.
  `Environment.Exit` ends it as `Halted(UserExit, …)`, and a launch ends it as
  `Halted(GameLaunched, …)`.
- `EngineProperties` (engine_props.dfy) holds properties that span several
  handlers, such as the update-check branch table, the unload/restore round
  trip, and a download finishing what the update check started.

Two behaviours of the code are modelled as written and stated as lemmas:

- `PlayButton_Click` tests `File.Exists(gameExe) && Status == readyCBPEnabled || Status == readyCBPDisabled`.
  Because `&&` binds tighter than `||`, a disabled patch launches without
  the executable check, and `Process.Start` raises when the executable is missing.
- The connection-problem statuses and `installProblem` enable the button, but
  the click handler has no branch for them.

Three further consequences of the code follow from the model:

- A version marker with a non-numeric field stops the launcher during the
  update check. The check's `catch` shows the installed version again, and that
  raises a second time. See `CorruptMarkerStopsLauncher`.
- The download callback sets `CBPLoaded` but never clears `CBPUnloaded`. So a
  patch unloaded while its download is under way ends with both flags set. See
  `UnloadDuringDownloadSetsBothFlags`.
- An update from Workshop files with archiving off copies onto the installed
  folder, and `DirectoryCopy` never overwrites. So the update fails whenever the
  two folders share a top-level file, and both normally carry `Version.txt`.
  See `WorkshopUpdateRefusesSharedFile`. An online update never archives,
  and `ZipFile.ExtractToDirectory` never overwrites either, so it fails the same
  way. See `OnlineUpdateRefusesSharedFile`.
- The Alpha 6c branch passes 0.0.0.0 as the version to install. In download
  mode that is the version the callback writes, so the next check sees an
  update again. See `LegacyOnlineUpdateRecordsZero` and
  `ZeroMarkerSeesUpdateAgain`.

## Model

| member | source | states |
|---|---|---|
| `Versions.Split` | CBPLauncher/MainWindow.xaml.cs:876 | `String.Split` always yields at least one piece, and no piece holds the separator |
| `Versions.IntToDecimal` | CBPLauncher/MainWindow.xaml.cs:922-925 | a field renders as non-empty text without a dot, led by '-' exactly when negative, digits otherwise |
| `Versions.ToStringSplits` | CBPLauncher/MainWindow.xaml.cs:922-925 | `ToString` writes exactly three dots, and splitting on them gives back the four rendered fields |
| `Versions.ParseInt16` | CBPLauncher/MainWindow.xaml.cs:886-889 | `short.Parse` raises a format error exactly when the trimmed text is not an optional sign followed by digits, and a negative value needs a leading '-' |
| `Versions.ParseFields` | CBPLauncher/MainWindow.xaml.cs:886-889 | four fields read as a version exactly when each field reads as a `short`, and then each number is its field's value |
| `Versions.ParseFieldsFirstFailure` | CBPLauncher/MainWindow.xaml.cs:886-889 | the fields are read left to right, so the first field that fails decides the exception |
| `Versions.SplitCount` | CBPLauncher/MainWindow.xaml.cs:876-877 | `Split` on `'.'` yields one more piece than the text has dots, so "exactly four fields" means "exactly three dots" |
| `Versions.SplitJoin` | CBPLauncher/MainWindow.xaml.cs:876 | splitting pieces that contain no separator, once joined, gives the pieces back |
| `Versions.JoinSplit` | CBPLauncher/MainWindow.xaml.cs:876 | joining the pieces of a split gives the original text back |
| `Versions.Int16RoundTrip` | CBPLauncher/MainWindow.xaml.cs:886-889 | `short.Parse` reads back every 16-bit value from its decimal text, with trailing white space allowed |
| `Versions.StrayCharacterIsFormatError` | CBPLauncher/MainWindow.xaml.cs:886-889 | `short.Parse` raises a format error for any text holding a character that is not white space, a digit or a sign |
| `Versions.WrongFieldCountReadsAsZero` | CBPLauncher/MainWindow.xaml.cs:876-884 | text without exactly three dots reads as version 0.0.0.0, never as an error |
| `Versions.NonNumericFieldFails` | CBPLauncher/MainWindow.xaml.cs:877-889 | four fields, one of which holds a foreign character, make the constructor raise |
| `Versions.ParseRoundTrip` | CBPLauncher/MainWindow.xaml.cs:874-890 | reading `ToString(v)`, even with trailing white space, gives back `v` |
| `Versions.IsDifferentThan` | CBPLauncher/MainWindow.xaml.cs:892-920 | the nested comparison is true exactly when some field differs, which means the two versions are not equal |
| `Versions.DifferenceIsIrreflexiveAndSymmetric` | CBPLauncher/MainWindow.xaml.cs:892-920 | no version differs from itself, and difference does not depend on argument order |
| `Versions.Render` | CBPLauncher/MainWindow.xaml.cs:928-935 | the label needs every field to index its table (the source raises otherwise) and is never empty |
| `Versions.RenderIsInjective` | CBPLauncher/MainWindow.xaml.cs:928-935 | two displayable versions with the same label are the same version, so an archive name identifies the version |
| `Status.Project` | CBPLauncher/MainWindow.xaml.cs:62-143 | the button is enabled exactly when the status is not one of the four installing statuses, and only those leave the caption unchanged |
| `Status.ProjectionTextIsInjective` | CBPLauncher/MainWindow.xaml.cs:62-143 | each status writes its own status line |
| `Tree.WriteFile` | CBPLauncher/MainWindow.xaml.cs:588 | writing the marker fails only when a folder holds that name; otherwise the file holds exactly the text and nothing else changes |
| `Tree.DirectoryCopy` | CBPLauncher/MainWindow.xaml.cs:819-853 | a missing source raises before anything is touched; otherwise the destination exists afterwards |
| `Tree.DirectoryCopyNeverOverwrites` | CBPLauncher/MainWindow.xaml.cs:838-842 | every file already at the destination keeps its content, whatever the copy does |
| `Tree.DirectoryCopyRefusesExistingFile` | CBPLauncher/MainWindow.xaml.cs:838-851 | a source file whose path is already a destination file makes the copy raise, at the top level and, with `copySubDirs`, at any depth |
| `Tree.WriteFileKeepsPath` | CBPLauncher/MainWindow.xaml.cs:588 | writing the marker leaves every other path of the folder as it was |
| `Tree.FreshCopyFolderNames` | CBPLauncher/MainWindow.xaml.cs:833-852 | a fresh copy holds a sub-folder of a given name only if the source does |
| `Tree.DirectoryCopyDeliversEveryFile` | CBPLauncher/MainWindow.xaml.cs:836-852 | a copy that completes places every file of the source, at every depth, with its content |
| `Tree.DirectoryCopyShallow` | CBPLauncher/MainWindow.xaml.cs:836-845 | without `copySubDirs` only the top-level files arrive and the sub-folders stay as they were |
| `Tree.DirectoryCopySucceeds` | CBPLauncher/MainWindow.xaml.cs:819-853 | a source that clashes with nothing at the destination is copied without raising |
| `Tree.FreshCopyCompletes` | CBPLauncher/MainWindow.xaml.cs:833-852 | copying into a missing folder completes and reproduces every file of the source |
| `Tree.DirectoryCopyOrigin` | CBPLauncher/MainWindow.xaml.cs:819-853 | every file after the copy was either already at the destination or comes from the source |
| `Tree.FreshCopyAddsNothing` | CBPLauncher/MainWindow.xaml.cs:833-852 | a fresh copy holds no file the source lacks |
| `Engine.ReadDisplayable` | CBPLauncher/MainWindow.xaml.cs:345-351 | a version text is usable exactly when it parses and every field indexes its display table, and then it is the parsed version |
| `Engine.ReadDisplayableRoundTrip` | CBPLauncher/MainWindow.xaml.cs:588-590 | the marker the launcher writes reads back as the version written, with or without a trailing line break, and is usable exactly when the tables can label it |
| `Engine.Marker` | CBPLauncher/MainWindow.xaml.cs:647-649 | the marker is present exactly when the installed folder exists and holds a `Version.txt` file, and then it is that file's text |
| `Engine.InstalledVersionShows` | CBPLauncher/MainWindow.xaml.cs:645-661 | showing the installed version never raises when no folder is installed, nor for a marker without exactly three dots, which reads as 0.0.0.0 |
| `Engine.StartDownload` | CBPLauncher/MainWindow.xaml.cs:494-495 | starting the download records the version it carries and creates the zip; the status, settings and folders are untouched |
| `Engine.PrepareWorkshop` | CBPLauncher/MainWindow.xaml.cs:421-449 | a first install only sets its status; an update sets its status and archives only with CBPArchive on; earlier archives, the settings, the Workshop and parked folders are kept |
| `Engine.Extract` | CBPLauncher/MainWindow.xaml.cs:541 | an archive that cannot be opened raises and leaves the install folder as it was; otherwise the install folder exists afterwards, holding the old files merged with the archive's without overwriting |
| `Engine.ArchiveNormal` | CBPLauncher/MainWindow.xaml.cs:778-800 | the installed folder is never lost, since it stays in place or sits in the archive; earlier archives are kept; the status is kept or becomes `loadFailed` |
| `Engine.ArchiveLegacy` | CBPLauncher/MainWindow.xaml.cs:803-816 | the Alpha 6c folder moves into the archive under its own name, unless that name is taken or the folder is missing, in which case nothing moves and the status is `loadFailed` |
| `Engine.InstallFromWorkshop` | CBPLauncher/MainWindow.xaml.cs:415-475 | ends ready, load-failed or install-failed; only ready sets loaded and clears unloaded, and then the copied marker can be shown; a missing Workshop folder is an install failure; unless the install failed, every file of the Workshop folder is in the installed folder with its content |
| `Engine.InstallFromServer` | CBPLauncher/MainWindow.xaml.cs:477-501 | an update starts the download of the checked version; a first install re-fetches the version; a failed re-fetch is an install failure that touches nothing |
| `Engine.Restore` | CBPLauncher/MainWindow.xaml.cs:506-524 | moves the parked folder back and marks the patch loaded, or fails with `loadFailed` and the flags unchanged; nothing moves when the target exists |
| `Engine.InstallGameFiles` | CBPLauncher/MainWindow.xaml.cs:411-526 | the loaded and unloaded flags only ever change together |
| `Engine.ConnectionProblem` | CBPLauncher/MainWindow.xaml.cs:394-408 | the status follows the loaded flag, nothing else changes, and the run stops exactly when the installed version cannot be shown |
| `Engine.CheckForUpdates` | CBPLauncher/MainWindow.xaml.cs:337-409 | it can only stop on an unhandled exception, it flips the two flags together if at all, and it keeps `DefaultCBP` |
| `Engine.FinishDownload` | CBPLauncher/MainWindow.xaml.cs:588-601 | the zip is gone; ready means the marker holds the text and can be shown, and only `loaded` was set; a failure leaves the settings alone |
| `Engine.DownloadCompleted` | CBPLauncher/MainWindow.xaml.cs:528-602 | the zip is deleted on every path and only the install folder changes; the run stops exactly when unpacking onto the installed folder raises and the user declines; ready means the marker is `ToString` of the requested version; declining the second prompt writes nothing and leaves whatever the extraction left |
| `Engine.UnloadCbp` | CBPLauncher/MainWindow.xaml.cs:604-643 | does nothing when already unloaded; otherwise it parks the folder and flips both flags exactly when the folder is there and the parking spot is free, or it fails with `unloadFailed` and changes nothing |
| `Engine.ContentRendered` | CBPLauncher/MainWindow.xaml.cs:663-681 | with DefaultCBP it is the update check; without it, a loaded patch is unloaded and anything else is reported disabled |
| `Engine.PlayClick` | CBPLauncher/MainWindow.xaml.cs:683-708 | the game launches exactly when the executable exists and the patch is ready; a disabled patch with no executable raises; an enabled one with no executable does nothing |
| `EngineProperties.UpToDateMarksLoaded` | CBPLauncher/MainWindow.xaml.cs:364-373 | same version online and installed: ready, loaded, not unloaded, no file touched |
| `EngineProperties.NewVersionInstallsUpdate` | CBPLauncher/MainWindow.xaml.cs:364-367 | a different online version installs that version as an update |
| `EngineProperties.LegacyInstallUpdates` | CBPLauncher/MainWindow.xaml.cs:384-387 | no marker but an Alpha 6c folder: an update with 0.0.0.0 passed as the version to install, whatever the server offers |
| `EngineProperties.LegacyOnlineUpdateDownloadsZero` | CBPLauncher/MainWindow.xaml.cs:384-387 | in download mode the Alpha 6c branch starts a download whose version to install is 0.0.0.0 |
| `EngineProperties.LegacyOnlineUpdateRecordsZero` | CBPLauncher/MainWindow.xaml.cs:384-387 | that download, once unpacked cleanly, ends ready with "0.0.0.0" written as the marker, not the served version |
| `EngineProperties.ZeroMarkerSeesUpdateAgain` | CBPLauncher/MainWindow.xaml.cs:361-367 | a "0.0.0.0" marker differs from any other served version, so every later check installs an update again |
| `EngineProperties.NothingInstalledInstallsFresh` | CBPLauncher/MainWindow.xaml.cs:389-392 | neither marker nor Alpha 6c folder: a first-time install |
| `EngineProperties.OfflineReportsConnectionProblem` | CBPLauncher/MainWindow.xaml.cs:344-351 | no usable online version: a connection problem chosen by the loaded flag, nothing touched |
| `EngineProperties.CorruptMarkerStopsLauncher` | CBPLauncher/MainWindow.xaml.cs:353-356 | a marker that does not parse ends the run, because the `catch` re-reads it |
| `EngineProperties.InstallRunsOneBranch` | CBPLauncher/MainWindow.xaml.cs:411-526 | exactly one of install and restore runs |
| `EngineProperties.UnloadThenCheckRestores` | CBPLauncher/MainWindow.xaml.cs:604-623 | unloading and then checking for updates puts back the very same folder, ready and loaded |
| `EngineProperties.RestoreLeavesFlagsBehind` | CBPLauncher/MainWindow.xaml.cs:506-524 | a restored folder whose marker cannot be shown is back in place while the settings still say unloaded |
| `EngineProperties.FirstWorkshopInstall` | CBPLauncher/MainWindow.xaml.cs:446-462 | a first install from the Workshop folder never fails to copy, delivers every Workshop file, archives nothing, and is ready exactly when the shipped marker is absent or usable |
| `EngineProperties.WorkshopUpdateRefusesSharedFile` | CBPLauncher/MainWindow.xaml.cs:417-475 | an un-archived Workshop update fails on any file it shares with the install, at any depth |
| `EngineProperties.ArchiveRenamesByVersion` | CBPLauncher/MainWindow.xaml.cs:778-793 | the install lands in the archive as "Community Balance Patch (label)" and nothing else changes |
| `EngineProperties.ArchiveNameExample` | CBPLauncher/MainWindow.xaml.cs:931-934 | 3.1.2.0 is archived as "Community Balance Patch (Beta 1b)" |
| `EngineProperties.ArchivedWorkshopUpdate` | CBPLauncher/MainWindow.xaml.cs:420-462 | an archived update keeps the old folder under its label, and the new install is exactly the Workshop folder, ready exactly when its marker can be shown |
| `EngineProperties.FreshUnpackIsClean` | CBPLauncher/MainWindow.xaml.cs:541 | with no patch installed, a well-formed archive without a Version.txt folder unpacks without a clash |
| `EngineProperties.DownloadWritesRequestedVersion` | CBPLauncher/MainWindow.xaml.cs:528-594 | an archive that unpacks cleanly onto the installed folder ends ready, with the requested version written as the marker |
| `EngineProperties.DownloadKeepsInstalledFiles` | CBPLauncher/MainWindow.xaml.cs:541-594 | whatever the archive and the answers, every installed file other than Version.txt is still there with its content |
| `EngineProperties.OnlineUpdateRefusesSharedFile` | CBPLauncher/MainWindow.xaml.cs:541-581 | an archive sharing any file with the installed folder makes the extraction raise; declining ends the run, and accepting without the marker is an install problem |
| `EngineProperties.ForcedMarkerAfterBrokenExtraction` | CBPLauncher/MainWindow.xaml.cs:541-594 | after an extraction that raised, Yes and Yes report the folder it left ready and loaded under the requested version, with its other files as the extraction left them |
| `EngineProperties.ReadyAfterDownloadIsDisplayable` | CBPLauncher/MainWindow.xaml.cs:588-592 | the callback only reports ready for a version the tables can show |
| `EngineProperties.OnlineUpdateStartsDownload` | CBPLauncher/MainWindow.xaml.cs:477-496 | in download mode a newer online version sets the installing-update status, starts the download of that version and creates the zip, changing nothing else |
| `EngineProperties.OnlineUpdateInstallsServedVersion` | CBPLauncher/MainWindow.xaml.cs:364-367 | the check starts a download of the served version, and, when the archive unpacks cleanly onto the install, its completion records exactly that version |
| `EngineProperties.FirstOnlineInstallRecordsRefetchedVersion` | CBPLauncher/MainWindow.xaml.cs:485-491 | a first online install downloads the re-fetched version and writes it as the marker |
| `EngineProperties.UnloadDuringDownloadSetsBothFlags` | CBPLauncher/MainWindow.xaml.cs:588-594 | an unload between starting and finishing a download leaves both flags set |
| `EngineProperties.HandlersKeepFlagsExclusive` | CBPLauncher/MainWindow.xaml.cs:337-708 | the update check, unload, start-up and play handlers never set both flags |
| `EngineProperties.ProblemStatusesIgnoreClicks` | CBPLauncher/MainWindow.xaml.cs:683-708 | the problem statuses enable the button, but a click does nothing |
| `EngineProperties.InstallingIgnoresClicks` | CBPLauncher/MainWindow.xaml.cs:101-119 | the installing statuses disable the button, and a click changes nothing |
| `EngineProperties.FailuresRetry` | CBPLauncher/MainWindow.xaml.cs:694-707 | a failed install or load checks for updates again, and a failed unload unloads again |

## Left out

- The constructor (lines 145-335) is left out: registry probing, the path-retry loop, the path settings and folder creation. The model starts from known folders, with "Unloaded Mods" and "CBP Archive" already created.
- Network I/O: `WebClient` is left out. The version endpoint becomes the `latest` and `refetch` parameters. Starting `DownloadFileAsync` always succeeds, and its completion is a separate call to `DownloadCompleted`.
- Unzipping: reading the archive is left out. The archive's content under "Community Balance Patch" is the `zip` parameter, with `None` when it cannot be opened. Writing it out is the no-overwrite merge of `DirectoryCopy`: files first, then sub-folders, rather than the archive's entry order. So a failure part-way can leave a different subset of files behind than the real extraction would. Data corrupted inside an entry, and top-level folders the archive could create beside the patch folder, are left out.
- Message boxes: their texts are left out. The two Yes/No answers become booleans.
- Display: colours, the "Latest/Installed CBP version" labels and `Close()` are left out.
- Launching: `Process.Start` is left out beyond launch versus raise.
- Settings: persistence (`SaveSettings`, `UpgradeSettings`, `ResetSettings_Click`, the DefaultCBP checkbox handlers) is left out, because it does not affect the engine's decisions.
- `UnloadWorkshopToo`: the branch in `UnloadCBP` is left out, because it is an empty `try`.
- Manual buttons: `ManualLoadCBP_Click` and `ManualUnloadCBP_Click` are left out, because they only call `CheckForUpdates` and `UnloadCBP`.
- File operations: moves, copies and writes fail only for missing sources or taken names. Locks, permissions and full disks are left out.
- Folder names: they compare case-sensitively. The source reads `version.txt` in `ArchiveNormal` and `Version.txt` elsewhere; both are the same file on Windows and the same `MarkerName` here.
- `Versions.ParseInt16`: culture-specific signs and trailing NUL characters that `short.Parse` also accepts are left out.
- `Engine.CheckForUpdates`: the inner `catch` at lines 376-380 is left out, because nothing under it raises (`InstallGameFiles` catches everything).
- `Engine.DownloadCompleted`: `e.Error` and `e.Cancelled` are not consulted, as in the source. A failed download reaches the callback as a failed extraction.
