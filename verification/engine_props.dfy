/**
 * Properties of the engine that span several handlers: the branch table of the
 * update check, the unload/restore round trip, the download completing what
 * the update check started, archiving, and the play button's quirks.
 */
module EngineProperties {
  import opened Wrappers
  import opened Versions
  import opened Status
  import opened Tree
  import opened Engine

  /** The version endpoint served text that reads and displays as `v`. */
  predicate Serves(latest: Option<string>, v: Version) {
    latest.Some? && ReadDisplayable(latest.value) == Some(v)
  }

  /** The installed marker reads and displays as `v`. */
  predicate Installed(w: World, v: Version) {
    Marker(w).Some? && ReadDisplayable(Marker(w).value) == Some(v)
  }

  /** The patch is never recorded as loaded and unloaded at once. */
  predicate FlagsExclusive(s: Settings) {
    !(s.loaded && s.unloaded)
  }

  // ---------------------------------------------------------------------------
  // CheckForUpdates: the branch table
  // ---------------------------------------------------------------------------

  /** Same version online and installed: report the patch loaded, touch no file. */
  lemma UpToDateMarksLoaded(st: State, latest: Option<string>, refetch: Option<string>, v: Version)
    requires Serves(latest, v) && Installed(st.world, v)
    ensures CheckForUpdates(st, latest, refetch)
         == Continue(st.(status := ReadyCbpEnabled, settings := st.settings.(loaded := true, unloaded := false)))
  {
  }

  /** A different version online: install it as an update. */
  lemma NewVersionInstallsUpdate(st: State, latest: Option<string>, refetch: Option<string>, online: Version, local: Version)
    requires Serves(latest, online) && Installed(st.world, local) && online != local
    ensures CheckForUpdates(st, latest, refetch) == Continue(InstallGameFiles(st, true, online, refetch))
  {
  }

  /**
   * No marker but an Alpha 6c folder: an update whose version to install is
   * 0.0.0.0 (not the installed version), whatever the server offers.
   */
  lemma LegacyInstallUpdates(st: State, latest: Option<string>, refetch: Option<string>, online: Version)
    requires Serves(latest, online) && Marker(st.world).None? && st.world.legacy.Some?
    ensures CheckForUpdates(st, latest, refetch) == Continue(InstallGameFiles(st, true, Zero, refetch))
  {
  }

  /** Nothing installed: a first-time install. */
  lemma NothingInstalledInstallsFresh(st: State, latest: Option<string>, refetch: Option<string>, online: Version)
    requires Serves(latest, online) && Marker(st.world).None? && st.world.legacy.None?
    ensures CheckForUpdates(st, latest, refetch) == Continue(InstallGameFiles(st, false, Zero, refetch))
  {
  }

  /**
   * No usable answer from the endpoint: a connection problem chosen by the
   * loaded flag, no file touched, and a stop if the installed marker cannot be shown.
   */
  lemma OfflineReportsConnectionProblem(st: State, latest: Option<string>, refetch: Option<string>)
    requires latest.None? || ReadDisplayable(latest.value).None?
    ensures var r := CheckForUpdates(st, latest, refetch);
      && r.Final() == st.(status := if st.settings.loaded then ConnectionProblemLoaded else ConnectionProblemUnloaded)
      && (r.Halted? <==> !InstalledVersionShows(st.world))
  {
  }

  /**
   * A marker with a non-numeric field is reported as a connection problem,
   * and the installed-version display in the `catch` raises again: the
   * launcher stops.
   */
  lemma CorruptMarkerStopsLauncher(st: State, latest: Option<string>, refetch: Option<string>, online: Version)
    requires Serves(latest, online)
    requires Marker(st.world).Some? && Parse(Marker(st.world).value).Failure?
    ensures CheckForUpdates(st, latest, refetch).Halted?
  {
  }

  // ---------------------------------------------------------------------------
  // InstallGameFiles
  // ---------------------------------------------------------------------------

  /** Exactly one of install and restore runs: an install never leaves the patch unloaded. */
  lemma InstallRunsOneBranch(st: State, isUpdate: bool, online: Version, refetch: Option<string>)
    ensures st.settings.unloaded ==> InstallGameFiles(st, isUpdate, online, refetch) == Restore(st)
    ensures !st.settings.unloaded && !st.settings.noWorkshopFiles ==>
      InstallGameFiles(st, isUpdate, online, refetch) == InstallFromWorkshop(st, isUpdate)
    ensures !st.settings.unloaded && st.settings.noWorkshopFiles ==>
      InstallGameFiles(st, isUpdate, online, refetch) == InstallFromServer(st, isUpdate, online, refetch)
  {
  }

  /**
   * Unloading and then checking for updates puts the very same folder back
   * and reports the patch loaded.
   */
  lemma UnloadThenCheckRestores(st: State, latest: Option<string>, refetch: Option<string>, online: Version)
    requires Serves(latest, online)
    requires !st.settings.unloaded && st.world.active.Some? && st.world.parked.None?
    requires InstalledVersionShows(st.world)
    ensures var r := CheckForUpdates(UnloadCbp(st), latest, refetch);
      && r.Continue?
      && r.state.world == st.world
      && r.state.status == ReadyCbpEnabled
      && r.state.settings == st.settings.(loaded := true, unloaded := false)
  {
  }

  /**
   * A restored folder whose marker cannot be shown is back in place, yet the
   * settings still say the patch is unloaded.
   */
  lemma RestoreLeavesFlagsBehind(st: State)
    requires st.settings.unloaded && st.world.parked.Some? && st.world.active.None?
    requires !InstalledVersionShows(st.world.(active := st.world.parked, parked := None))
    ensures var r := InstallGameFiles(st, false, Zero, None);
      && r.status == LoadFailed
      && r.world.active == st.world.parked
      && r.settings.unloaded
  {
  }

  /**
   * An update from the Workshop folder with archiving off copies onto the
   * installed folder, so any file the two share, at any depth, makes it fail;
   * both normally carry Version.txt.
   */
  lemma WorkshopUpdateRefusesSharedFile(st: State, online: Version, refetch: Option<string>, p: seq<string>)
    requires !st.settings.unloaded && !st.settings.noWorkshopFiles && !st.settings.archive
    requires st.world.active.Some? && st.world.workshop.Some?
    requires FileAt(st.world.workshop.value, p).Some? && FileAt(st.world.active.value, p).Some?
    ensures InstallGameFiles(st, true, online, refetch).status == InstallFailed
    ensures InstallGameFiles(st, true, online, refetch).settings == st.settings
  {
    DirectoryCopyRefusesExistingFile(st.world.workshop.value, st.world.active.value, true, p);
  }

  /**
   * A first install from the Workshop folder: nothing is installed, so the
   * copy cannot collide, and the new install holds every Workshop file. It
   * reports ready unless the shipped Version.txt fails to read or display.
   */
  lemma FirstWorkshopInstall(st: State, online: Version, refetch: Option<string>, p: seq<string>)
    requires !st.settings.unloaded && !st.settings.noWorkshopFiles
    requires st.world.active.None?
    requires st.world.workshop.Some? && WellFormed(st.world.workshop.value)
    ensures var r := InstallGameFiles(st, false, online, refetch);
      && r.status != InstallFailed
      && r.world.active.Some?
      && FileAt(r.world.active.value, p) == FileAt(st.world.workshop.value, p)
      && r.world.archive == st.world.archive
    ensures var shipped := FileAt(st.world.workshop.value, [MarkerName]);
      (InstallGameFiles(st, false, online, refetch).status == ReadyCbpEnabled
       <==> shipped.None? || ReadDisplayable(shipped.value).Some?)
  {
    FreshCopyCompletes(st.world.workshop.value, p);
    FreshCopyCompletes(st.world.workshop.value, [MarkerName]);
  }

  // ---------------------------------------------------------------------------
  // Archiving
  // ---------------------------------------------------------------------------

  /** The installed folder moves into the archive under its version's display label. */
  lemma ArchiveRenamesByVersion(st: State, v: Version)
    requires st.world.active.Some? && ModName !in st.world.archive
    requires FileAt(st.world.active.value, [MarkerName]).Some?
    requires ReadDisplayable(FileAt(st.world.active.value, [MarkerName]).value) == Some(v)
    requires ArchiveName(Render(v)) !in st.world.archive
    ensures var r := ArchiveNormal(st);
      && r.status == st.status
      && r.world.active.None?
      && r.world.archive == st.world.archive[ArchiveName(Render(v)) := st.world.active.value]
  {
  }

  /** Version 3.1.2.0 is archived as "Community Balance Patch (Beta 1b)". */
  lemma ArchiveNameExample()
    ensures Displayable(Version(3, 1, 2, 0))
    ensures ArchiveName(Render(Version(3, 1, 2, 0))) == "Community Balance Patch (Beta 1b)"
  {
  }

  /**
   * An archived Workshop update: the old folder lands in the archive under
   * its label, and the new install holds exactly the Workshop folder's files.
   */
  lemma ArchivedWorkshopUpdate(st: State, online: Version, refetch: Option<string>, v: Version, p: seq<string>)
    requires !st.settings.unloaded && !st.settings.noWorkshopFiles && st.settings.archive
    requires st.world.active.Some? && ModName !in st.world.archive
    requires FileAt(st.world.active.value, [MarkerName]).Some?
    requires ReadDisplayable(FileAt(st.world.active.value, [MarkerName]).value) == Some(v)
    requires ArchiveName(Render(v)) !in st.world.archive
    requires st.world.legacy.None?
    requires st.world.workshop.Some? && WellFormed(st.world.workshop.value)
    ensures var r := InstallGameFiles(st, true, online, refetch);
      && r.world.archive == st.world.archive[ArchiveName(Render(v)) := st.world.active.value]
      && r.world.active.Some?
      && FileAt(r.world.active.value, p) == FileAt(st.world.workshop.value, p)
    ensures var shipped := FileAt(st.world.workshop.value, [MarkerName]);
      (InstallGameFiles(st, true, online, refetch).status == ReadyCbpEnabled
       <==> shipped.None? || ReadDisplayable(shipped.value).Some?)
  {
    ArchiveRenamesByVersion(st.(status := InstallingUpdateLocal), v);
    FreshCopyCompletes(st.world.workshop.value, p);
    FreshCopyCompletes(st.world.workshop.value, [MarkerName]);
  }

  // ---------------------------------------------------------------------------
  // The download callback
  // ---------------------------------------------------------------------------

  /**
   * The archive unpacks onto the world's install folder without a clash, and
   * the result has no folder called Version.txt to stop the marker write.
   */
  predicate UnpacksCleanly(w: World, d: Dir) {
    && Extract(w, Some(d)).error.None?
    && FindDir(Extract(w, Some(d)).dest.value.subdirs, MarkerName).None?
  }

  /** With no patch installed, a well-formed archive without a Version.txt folder always unpacks cleanly. */
  lemma FreshUnpackIsClean(w: World, d: Dir)
    requires w.active.None? && WellFormed(d) && FindDir(d.subdirs, MarkerName).None?
    ensures UnpacksCleanly(w, d)
  {
    FreshCopyCompletes(d, []);
    FreshCopyFolderNames(d, MarkerName);
  }

  /** A successful extraction ends with the requested version written as the marker. */
  lemma DownloadWritesRequestedVersion(st: State, v: Version, d: Dir, ignoreError: bool, writeMarker: bool)
    requires Displayable(v) && UnpacksCleanly(st.world, d)
    ensures var r := DownloadCompleted(st, v, Some(d), ignoreError, writeMarker);
      && r.Continue?
      && r.state.status == ReadyCbpEnabled
      && Marker(r.state.world) == Some(ToString(v))
      && r.state.settings == st.settings.(loaded := true)
  {
    ParseRoundTrip(v, "");
    assert ToString(v) + "" == ToString(v);
  }

  /** The callback only reports success for a version the tables can show. */
  lemma ReadyAfterDownloadIsDisplayable(st: State, v: Version, zip: Option<Dir>, ignoreError: bool, writeMarker: bool)
    requires DownloadCompleted(st, v, zip, ignoreError, writeMarker).Final().status == ReadyCbpEnabled
    ensures Displayable(v)
  {
    ParseRoundTrip(v, "");
    assert ToString(v) + "" == ToString(v);
  }

  /**
   * Unpacking never overwrites or deletes: whatever the outcome, every file of
   * the installed folder other than Version.txt is still there, unchanged.
   */
  lemma DownloadKeepsInstalledFiles(st: State, v: Version, zip: Option<Dir>, ignoreError: bool, writeMarker: bool, p: seq<string>)
    requires st.world.active.Some? && FileAt(st.world.active.value, p).Some? && p != [MarkerName]
    ensures var r := DownloadCompleted(st, v, zip, ignoreError, writeMarker).Final();
      r.world.active.Some? && FileAt(r.world.active.value, p) == FileAt(st.world.active.value, p)
  {
    DirectoryCopyNeverOverwrites(zip, st.world.active, true, p);
    var left := Extract(st.world, zip).dest.value;
    if WriteFile(left, MarkerName, ToString(v)).Some? {
      WriteFileKeepsPath(left, MarkerName, ToString(v), p);
    }
  }

  /**
   * An online update never archives, so an archive sharing any file with the
   * installed folder (normally Version.txt) makes the extraction raise: the
   * run ends if the user declines, and is an install problem if they accept
   * but do not write the marker.
   */
  lemma OnlineUpdateRefusesSharedFile(st: State, v: Version, d: Dir, p: seq<string>, writeMarker: bool)
    requires st.world.active.Some? && FileAt(d, p).Some? && FileAt(st.world.active.value, p).Some?
    ensures Extract(st.world, Some(d)).error == Some(NameTaken)
    ensures var r := DownloadCompleted(st, v, Some(d), false, writeMarker);
      r.Halted? && r.reason == UserExit && r.state.status == InstallFailed
    ensures DownloadCompleted(st, v, Some(d), true, false).Final().status == InstallProblem
  {
    DirectoryCopyRefusesExistingFile(d, st.world.active.value, true, p);
  }

  /**
   * An extraction that raised part-way, answered Yes to ignoring the error and
   * Yes to writing the marker anyway: the partial folder is reported ready,
   * labelled with the requested version, whatever files it is missing.
   */
  lemma ForcedMarkerAfterBrokenExtraction(st: State, v: Version, zip: Option<Dir>, n: string)
    requires Displayable(v)
    requires Extract(st.world, zip).error.Some? && Extract(st.world, zip).dest.Some?
    requires FindDir(Extract(st.world, zip).dest.value.subdirs, MarkerName).None?
    requires n != MarkerName
    ensures var r := DownloadCompleted(st, v, zip, true, true);
      && r.Continue?
      && r.state.status == ReadyCbpEnabled
      && r.state.settings == st.settings.(loaded := true)
      && Marker(r.state.world) == Some(ToString(v))
      && FindFile(r.state.world.active.value.files, n) == FindFile(Extract(st.world, zip).dest.value.files, n)
  {
    ParseRoundTrip(v, "");
    assert ToString(v) + "" == ToString(v);
  }

  /** With download mode on, a newer online version starts a download of that version. */
  lemma OnlineUpdateStartsDownload(st: State, latest: Option<string>, refetch: Option<string>, local: Version, online: Version)
    requires Serves(latest, online) && Installed(st.world, local) && online != local
    requires !st.settings.unloaded && st.settings.noWorkshopFiles
    ensures CheckForUpdates(st, latest, refetch)
         == Continue(st.(status := InstallingUpdateOnline, download := Some(online), world := st.world.(tempZip := true)))
  {
    NewVersionInstallsUpdate(st, latest, refetch, online, local);
    InstallRunsOneBranch(st, true, online, refetch);
  }

  /**
   * An online update started by the check completes with the served version
   * installed, provided the archive unpacks onto the installed folder without
   * a clash (so it cannot itself carry Version.txt).
   */
  lemma OnlineUpdateInstallsServedVersion(
    st: State, latest: Option<string>, refetch: Option<string>, local: Version, online: Version,
    d: Dir, ignoreError: bool, writeMarker: bool)
    requires Serves(latest, online) && Installed(st.world, local) && online != local
    requires !st.settings.unloaded && st.settings.noWorkshopFiles
    requires UnpacksCleanly(st.world, d)
    ensures var s := CheckForUpdates(st, latest, refetch).Final();
      && s.status == InstallingUpdateOnline && s.download == Some(online) && s.world.tempZip
      && var r := DownloadCompleted(s, s.download.value, Some(d), ignoreError, writeMarker).state;
         && r.status == ReadyCbpEnabled
         && Marker(r.world) == Some(ToString(online))
         && r.settings == st.settings.(loaded := true)
         && !r.world.tempZip
  {
    OnlineUpdateStartsDownload(st, latest, refetch, local, online);
    var s := st.(status := InstallingUpdateOnline, download := Some(online), world := st.world.(tempZip := true));
    assert Extract(s.world, Some(d)) == Extract(st.world, Some(d));
    DownloadWritesRequestedVersion(s, online, d, ignoreError, writeMarker);
  }

  /** A first online install downloads, and then records, the re-fetched version. */
  lemma FirstOnlineInstallRecordsRefetchedVersion(
    st: State, latest: Option<string>, refetch: Option<string>, online: Version, v: Version,
    d: Dir, ignoreError: bool, writeMarker: bool)
    requires Serves(latest, online) && Marker(st.world).None? && st.world.legacy.None?
    requires !st.settings.unloaded && st.settings.noWorkshopFiles
    requires refetch.Some? && Parse(refetch.value) == Success(v) && Displayable(v)
    requires UnpacksCleanly(st.world, d)
    ensures var s := CheckForUpdates(st, latest, refetch).Final();
      && s.status == InstallingFirstTimeOnline && s.download == Some(v)
      && var r := DownloadCompleted(s, s.download.value, Some(d), ignoreError, writeMarker).state;
         r.status == ReadyCbpEnabled && Marker(r.world) == Some(ToString(v)) && r.settings.loaded
  {
    NothingInstalledInstallsFresh(st, latest, refetch, online);
    InstallRunsOneBranch(st, false, Zero, refetch);
    var s := InstallFromServer(st, false, Zero, refetch);
    assert Extract(s.world, Some(d)) == Extract(st.world, Some(d));
    DownloadWritesRequestedVersion(s, v, d, ignoreError, writeMarker);
  }

  /** In download mode, the Alpha 6c path starts a download whose version to install is 0.0.0.0. */
  lemma LegacyOnlineUpdateDownloadsZero(st: State, latest: Option<string>, refetch: Option<string>, online: Version)
    requires Serves(latest, online) && Marker(st.world).None? && st.world.legacy.Some?
    requires !st.settings.unloaded && st.settings.noWorkshopFiles
    ensures CheckForUpdates(st, latest, refetch)
         == Continue(st.(status := InstallingUpdateOnline, download := Some(Zero), world := st.world.(tempZip := true)))
  {
    LegacyInstallUpdates(st, latest, refetch, online);
    InstallRunsOneBranch(st, true, Zero, refetch);
  }

  /**
   * So the marker that download writes is "0.0.0.0", not the served version.
   */
  lemma LegacyOnlineUpdateRecordsZero(
    st: State, latest: Option<string>, refetch: Option<string>, online: Version,
    d: Dir, ignoreError: bool, writeMarker: bool)
    requires Serves(latest, online) && Marker(st.world).None? && st.world.legacy.Some?
    requires !st.settings.unloaded && st.settings.noWorkshopFiles
    requires UnpacksCleanly(st.world, d)
    ensures var s := CheckForUpdates(st, latest, refetch).Final();
      && s.download == Some(Zero)
      && var r := DownloadCompleted(s, s.download.value, Some(d), ignoreError, writeMarker).state;
         r.status == ReadyCbpEnabled && Marker(r.world) == Some("0.0.0.0")
  {
    LegacyOnlineUpdateDownloadsZero(st, latest, refetch, online);
    var s := st.(status := InstallingUpdateOnline, download := Some(Zero), world := st.world.(tempZip := true));
    assert Extract(s.world, Some(d)) == Extract(st.world, Some(d));
    DownloadWritesRequestedVersion(s, Zero, d, ignoreError, writeMarker);
    assert ToString(Zero) == "0.0.0.0";
  }

  /** A "0.0.0.0" marker differs from any real served version, so every later check installs an update again. */
  lemma ZeroMarkerSeesUpdateAgain(st: State, latest: Option<string>, refetch: Option<string>, online: Version)
    requires Serves(latest, online) && online != Zero
    requires Marker(st.world) == Some("0.0.0.0")
    ensures CheckForUpdates(st, latest, refetch) == Continue(InstallGameFiles(st, true, online, refetch))
  {
    ReadDisplayableRoundTrip(Zero, "");
    assert ToString(Zero) + "" == "0.0.0.0";
    NewVersionInstallsUpdate(st, latest, refetch, online, Zero);
  }

  /**
   * The callback sets only the loaded flag: a patch unloaded while its
   * download was under way ends up both loaded and unloaded.
   */
  lemma UnloadDuringDownloadSetsBothFlags(st: State, v: Version, d: Dir, ignoreError: bool, writeMarker: bool)
    requires !st.settings.unloaded && st.world.active.Some? && st.world.parked.None?
    requires Displayable(v) && WellFormed(d) && FindDir(d.subdirs, MarkerName).None?
    ensures FlagsExclusive(UnloadCbp(st).settings)
    ensures var r := DownloadCompleted(UnloadCbp(st), v, Some(d), ignoreError, writeMarker).state;
      r.settings.loaded && r.settings.unloaded
  {
    FreshUnpackIsClean(UnloadCbp(st).world, d);
    DownloadWritesRequestedVersion(UnloadCbp(st), v, d, ignoreError, writeMarker);
  }

  // ---------------------------------------------------------------------------
  // Handlers and the play button
  // ---------------------------------------------------------------------------

  /** The start-up, update, unload and play handlers never set both load flags. */
  lemma HandlersKeepFlagsExclusive(st: State, exeExists: bool, latest: Option<string>, refetch: Option<string>)
    requires FlagsExclusive(st.settings)
    ensures FlagsExclusive(CheckForUpdates(st, latest, refetch).Final().settings)
    ensures FlagsExclusive(UnloadCbp(st).settings)
    ensures FlagsExclusive(ContentRendered(st, latest, refetch).Final().settings)
    ensures FlagsExclusive(PlayClick(st, exeExists, latest, refetch).Final().settings)
  {
  }

  /** The button is enabled on a connection or install problem, but pressing it does nothing. */
  lemma ProblemStatusesIgnoreClicks(st: State, exeExists: bool, latest: Option<string>, refetch: Option<string>)
    requires st.status.ConnectionProblemLoaded? || st.status.ConnectionProblemUnloaded? || st.status.InstallProblem?
    ensures Project(st.status).enabled
    ensures PlayClick(st, exeExists, latest, refetch) == Continue(st)
  {
  }

  /** While files are put in place the button is disabled, and a click changes nothing. */
  lemma InstallingIgnoresClicks(st: State, exeExists: bool, latest: Option<string>, refetch: Option<string>)
    requires st.status.IsInstalling()
    ensures !Project(st.status).enabled
    ensures PlayClick(st, exeExists, latest, refetch) == Continue(st)
  {
  }

  /** The retry captions: a failed install or load checks again, a failed unload unloads again. */
  lemma FailuresRetry(st: State, exeExists: bool, latest: Option<string>, refetch: Option<string>)
    ensures st.status == InstallFailed || st.status == LoadFailed ==>
      PlayClick(st, exeExists, latest, refetch) == CheckForUpdates(st, latest, refetch)
    ensures st.status == UnloadFailed ==> PlayClick(st, exeExists, latest, refetch) == Continue(UnloadCbp(st))
  {
  }
}
