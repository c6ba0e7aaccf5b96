/**
 * The install / update / unload decision engine of CBPLauncher/MainWindow.xaml.cs.
 *
 * The launcher's mutable fields become an explicit `State`: the persisted
 * settings, an abstract file system (`World`), the current status and the
 * version an asynchronous download was started with. Every event handler is a
 * function from a state to an `Outcome`; what the outside world decides (text
 * served by the version endpoint, the result of unpacking the download, the
 * user's answers, whether the game executable exists) arrives as parameters.
 *
 * An exception the source catches becomes the status its `catch` sets; one it
 * does not catch ends the program (`Halted(Unhandled, ...)`).
 */
module Engine {
  import opened Wrappers
  import opened Versions
  import opened Status
  import opened Tree

  /** The flags of `Properties.Settings.Default` the engine reads and writes. */
  datatype Settings = Settings(
    loaded: bool,           // CBPLoaded
    unloaded: bool,         // CBPUnloaded
    noWorkshopFiles: bool,  // NoWorkshopFiles: install from the download instead of the Workshop folder
    archive: bool,          // CBPArchive: archive the previous install before updating
    defaultCbp: bool)       // DefaultCBP: load the patch at start-up

  const ModName: string := "Community Balance Patch"
  const LegacyName: string := "Community Balance Patch (Alpha 6c)"
  const MarkerName: string := "Version.txt"

  /** The folder name an archived install is renamed to. */
  function ArchiveName(shown: string): string {
    ModName + " (" + shown + ")"
  }

  /** The folders and files the engine looks at. */
  datatype World = World(
    active: Option<Dir>,        // <mods>/Community Balance Patch
    parked: Option<Dir>,        // <mods>/Unloaded Mods/Community Balance Patch
    legacy: Option<Dir>,        // <mods>/Community Balance Patch (Alpha 6c)
    archive: map<string, Dir>,  // the folders inside <mods>/Unloaded Mods/CBP Archive
    workshop: Option<Dir>,      // <workshop>/2287791153/Community Balance Patch
    tempZip: bool)              // Community Balance Patch.zip beside the launcher

  /** `download` is the version handed to `DownloadFileAsync` as its user state, while a download is under way. */
  datatype State = State(settings: Settings, world: World, status: LauncherStatus, download: Option<Version>)

  datatype Halt = GameLaunched | UserExit | Unhandled

  datatype Outcome = Continue(state: State) | Halted(reason: Halt, state: State) {
    function Final(): State {
      match this
      case Continue(s) => s
      case Halted(_, s) => s
    }
  }

  // ---------------------------------------------------------------------------
  // Reading versions
  // ---------------------------------------------------------------------------

  /** The content of the installed version marker, if `File.Exists(versionFileCBP)`. */
  function Marker(w: World): (r: Option<string>)
    ensures r.Some? <==> w.active.Some? && FindFile(w.active.value.files, MarkerName).Some?
    ensures r.Some? ==> r == FindFile(w.active.value.files, MarkerName)
  {
    match w.active
    case None => None
    case Some(d) => FileAt(d, [MarkerName])
  }

  /** `new Version(text)` followed by the display-table lookups: `None` when either raises. */
  function ReadDisplayable(text: string): (r: Option<Version>)
    ensures r.Some? <==> Parse(text).Success? && Displayable(Parse(text).value)
    ensures r.Some? ==> r.value == Parse(text).value
  {
    match Parse(text)
    case Failure(_) => None
    case Success(v) => if Displayable(v) then Some(v) else None
  }

  /**
   * The marker the launcher writes reads back as the version it was written
   * from, trailing line break or not, and shows exactly when the tables can
   * label it.
   */
  lemma ReadDisplayableRoundTrip(v: Version, pad: string)
    requires AllWhite(pad)
    ensures ReadDisplayable(ToString(v) + pad) == if Displayable(v) then Some(v) else None
  {
    ParseRoundTrip(v, pad);
  }

  /**
   * `UpdateLocalVersionNumber()` returns normally: no marker, or a marker that
   * reads and displays. A marker without exactly three dots reads as 0.0.0.0,
   * which displays as "not installed", so it never raises.
   */
  predicate InstalledVersionShows(w: World)
    ensures w.active.None? ==> InstalledVersionShows(w)
    ensures Marker(w).Some? && multiset(Marker(w).value)['.'] != 3 ==> InstalledVersionShows(w)
  {
    match Marker(w)
    case None => true
    case Some(text) =>
      assert multiset(text)['.'] != 3 ==> Parse(text) == Success(Zero) by {
        if multiset(text)['.'] != 3 {
          WrongFieldCountReadsAsZero(text);
        }
      }
      ReadDisplayable(text).Some?
  }

  /** The settings are unchanged, or the two load flags were flipped together. */
  predicate FlagsMovedTogether(before: Settings, after: Settings) {
    || after == before
    || after == before.(loaded := true, unloaded := false)
    || after == before.(loaded := false, unloaded := true)
  }

  // ---------------------------------------------------------------------------
  // Archiving
  // ---------------------------------------------------------------------------

  /**
   * `ArchiveNormal()`: move the install into the archive, read its marker
   * there, and rename it after the version's display label.
   */
  function ArchiveNormal(st: State): (r: State)
    ensures r.settings == st.settings && r.download == st.download
    ensures r.world == st.world.(active := r.world.active, archive := r.world.archive)
    ensures r.status == st.status || r.status == LoadFailed
    ensures st.world.active.Some? ==>
      r.world.active == st.world.active || st.world.active.value in r.world.archive.Values
    ensures forall k :: k in st.world.archive ==> k in r.world.archive && r.world.archive[k] == st.world.archive[k]
    ensures r.status != LoadFailed ==> r.world.active.None? && ModName !in r.world.archive
  {
    var w := st.world;
    if w.active.None? || ModName in w.archive then st.(status := LoadFailed)
    else
      var d := w.active.value;
      var moved := w.(active := None, archive := w.archive[ModName := d]);
      assert moved.archive[ModName] == d;
      var failed := st.(world := moved, status := LoadFailed);
      match FileAt(d, [MarkerName])
      case None => failed
      case Some(text) =>
        match ReadDisplayable(text)
        case None => failed
        case Some(v) =>
          var name := ArchiveName(Render(v));
          if name in moved.archive then failed
          else
            var renamed := (moved.archive - {ModName})[name := d];
            assert renamed[name] == d;
            st.(world := moved.(archive := renamed))
  }

  /** `ArchiveA6c()`: move the legacy Alpha 6c folder into the archive under its own name. */
  function ArchiveLegacy(st: State): (r: State)
    ensures r.settings == st.settings && r.download == st.download
    ensures r.world == st.world.(legacy := r.world.legacy, archive := r.world.archive)
    ensures st.world.legacy.Some? && LegacyName !in st.world.archive ==>
      && r.status == st.status
      && r.world.legacy.None?
      && r.world.archive == st.world.archive[LegacyName := st.world.legacy.value]
    ensures st.world.legacy.None? || LegacyName in st.world.archive ==>
      r.status == LoadFailed && r.world == st.world
  {
    var w := st.world;
    if w.legacy.None? || LegacyName in w.archive then st.(status := LoadFailed)
    else st.(world := w.(legacy := None, archive := w.archive[LegacyName := w.legacy.value]))
  }

  // ---------------------------------------------------------------------------
  // InstallGameFiles
  // ---------------------------------------------------------------------------

  /**
   * The steps before the Workshop copy: the installing status and, for an
   * update with CBPArchive set, archiving whichever installs are present.
   */
  function PrepareWorkshop(st: State, isUpdate: bool): (r: State)
    ensures r.settings == st.settings && r.download == st.download
    ensures r.world == st.world.(active := r.world.active, legacy := r.world.legacy, archive := r.world.archive)
    ensures !isUpdate ==> r == st.(status := InstallingFirstTimeLocal)
    ensures isUpdate && !st.settings.archive ==> r == st.(status := InstallingUpdateLocal)
    ensures forall k :: k in st.world.archive ==> k in r.world.archive && r.world.archive[k] == st.world.archive[k]
  {
    if isUpdate then
      var a := st.(status := InstallingUpdateLocal);
      if st.settings.archive then
        var b := if a.world.active.Some? then ArchiveNormal(a) else a;
        if b.world.legacy.Some? then ArchiveLegacy(b) else b
      else a
    else st.(status := InstallingFirstTimeLocal)
  }

  /** The Workshop branch: optionally archive, then copy the Workshop folder over the install. */
  function InstallFromWorkshop(st: State, isUpdate: bool): (r: State)
    ensures r.download == st.download
    ensures r.world.workshop == st.world.workshop && r.world.parked == st.world.parked
    ensures r.world.tempZip == st.world.tempZip
    ensures r.status == ReadyCbpEnabled || r.status == LoadFailed || r.status == InstallFailed
    ensures r.status == ReadyCbpEnabled ==> r.settings == st.settings.(loaded := true, unloaded := false)
    ensures r.status != ReadyCbpEnabled ==> r.settings == st.settings
    ensures r.status == ReadyCbpEnabled ==> r.world.active.Some? && InstalledVersionShows(r.world)
    ensures st.world.workshop.None? ==> r.status == InstallFailed
    ensures r.status != InstallFailed ==> st.world.workshop.Some? && r.world.active.Some?
    ensures r.status != InstallFailed ==>
      forall p :: FileAt(st.world.workshop.value, p).Some? ==> FileAt(r.world.active.value, p) == FileAt(st.world.workshop.value, p)
  {
    var s1 := PrepareWorkshop(st, isUpdate);
    var copy := DirectoryCopy(s1.world.workshop, s1.world.active, true);
    var w := s1.world.(active := copy.dest);
    assert copy.error.None? ==>
      forall p :: FileAt(st.world.workshop.value, p).Some? ==> FileAt(w.active.value, p) == FileAt(st.world.workshop.value, p)
    by {
      if copy.error.None? {
        forall p | FileAt(st.world.workshop.value, p).Some?
          ensures FileAt(w.active.value, p) == FileAt(st.world.workshop.value, p)
        {
          DirectoryCopyDeliversEveryFile(st.world.workshop.value, s1.world.active, p);
        }
      }
    }
    if copy.error.Some? then s1.(world := w, status := InstallFailed)
    else if !InstalledVersionShows(w) then s1.(world := w, status := LoadFailed)
    else s1.(world := w, settings := s1.settings.(loaded := true, unloaded := false), status := ReadyCbpEnabled)
  }

  /** Starts `DownloadFileAsync(..., gameZip, version)`; the zip is being written from here on. */
  function StartDownload(st: State, version: Version): (r: State)
    ensures r.download == Some(version) && r.world.tempZip
    ensures r.settings == st.settings && r.status == st.status
    ensures r.world.(tempZip := st.world.tempZip) == st.world
  {
    st.(download := Some(version), world := st.world.(tempZip := true))
  }

  /**
   * The download branch. An update downloads the version already checked; a
   * first install asks the version endpoint again (`refetch`).
   */
  function InstallFromServer(st: State, isUpdate: bool, online: Version, refetch: Option<string>): (r: State)
    ensures r.settings == st.settings
    ensures r.status == InstallFailed ==> r.download == st.download && r.world == st.world
    ensures r.status != InstallFailed ==> r.download.Some? && r.world == st.world.(tempZip := true)
    ensures isUpdate ==> r.status == InstallingUpdateOnline && r.download == Some(online)
    ensures !isUpdate && r.status != InstallFailed ==>
      r.status == InstallingFirstTimeOnline && refetch.Some? && Parse(refetch.value).Success? && r.download == Some(Parse(refetch.value).value)
  {
    if isUpdate then StartDownload(st.(status := InstallingUpdateOnline), online)
    else
      var s1 := st.(status := InstallingFirstTimeOnline);
      match refetch
      case None => s1.(status := InstallFailed)
      case Some(text) =>
        match Parse(text)
        case Failure(_) => s1.(status := InstallFailed)
        case Success(v) => StartDownload(s1, v)
  }

  /** The restore branch: move the parked install back and mark it loaded. */
  function Restore(st: State): (r: State)
    ensures r.download == st.download
    ensures r.status == ReadyCbpEnabled || r.status == LoadFailed
    ensures r.status == ReadyCbpEnabled ==>
      && r.settings == st.settings.(loaded := true, unloaded := false)
      && r.world == st.world.(active := st.world.parked, parked := None)
      && InstalledVersionShows(r.world)
    ensures r.status == LoadFailed ==> r.settings == st.settings
    ensures st.world.parked.None? || st.world.active.Some? ==> r.world == st.world && r.status == LoadFailed
  {
    var w := st.world;
    if w.parked.None? || w.active.Some? then st.(status := LoadFailed)
    else
      var w1 := w.(active := w.parked, parked := None);
      if !InstalledVersionShows(w1) then st.(world := w1, status := LoadFailed)
      else st.(world := w1, settings := st.settings.(loaded := true, unloaded := false), status := ReadyCbpEnabled)
  }

  /**
   * `InstallGameFiles(isUpdate, onlineVersion)`: when the patch is not
   * unloaded, install it (from the Workshop folder or the download); then,
   * reading the flag again, restore it if it is unloaded.
   */
  function InstallGameFiles(st: State, isUpdate: bool, online: Version, refetch: Option<string>): (r: State)
    ensures FlagsMovedTogether(st.settings, r.settings)
  {
    var s1 :=
      if !st.settings.unloaded then
        if !st.settings.noWorkshopFiles then InstallFromWorkshop(st, isUpdate)
        else InstallFromServer(st, isUpdate, online, refetch)
      else st;
    if s1.settings.unloaded then Restore(s1) else s1
  }

  // ---------------------------------------------------------------------------
  // CheckForUpdates
  // ---------------------------------------------------------------------------

  /** The outer `catch`: report a connection problem, then show the installed version (which may raise again). */
  function ConnectionProblem(st: State): (r: Outcome)
    ensures r.Final() == st.(status := r.Final().status)
    ensures r.Final().status == (if st.settings.loaded then ConnectionProblemLoaded else ConnectionProblemUnloaded)
    ensures r.Halted? <==> !InstalledVersionShows(st.world)
  {
    var s := st.(status := if st.settings.loaded then ConnectionProblemLoaded else ConnectionProblemUnloaded);
    if InstalledVersionShows(st.world) then Continue(s) else Halted(Unhandled, s)
  }

  /**
   * `CheckForUpdates()`. `latest` is what the version endpoint served (`None`
   * when the request raised) and `refetch` what it serves to a first-time
   * download.
   */
  function CheckForUpdates(st: State, latest: Option<string>, refetch: Option<string>): (r: Outcome)
    ensures r.Halted? ==> r.reason == Unhandled
    ensures FlagsMovedTogether(st.settings, r.Final().settings)
    ensures r.Final().settings.defaultCbp == st.settings.defaultCbp
  {
    var online := if latest.Some? then ReadDisplayable(latest.value) else None;
    match online
    case None => ConnectionProblem(st)
    case Some(onlineVersion) =>
      match Marker(st.world)
      case Some(text) => (
        match ReadDisplayable(text)
        case None => ConnectionProblem(st)
        case Some(localVersion) =>
          if IsDifferentThan(onlineVersion, localVersion) then
            Continue(InstallGameFiles(st, true, onlineVersion, refetch))
          else
            Continue(st.(status := ReadyCbpEnabled, settings := st.settings.(loaded := true, unloaded := false))))
      case None =>
        if st.world.legacy.Some? then Continue(InstallGameFiles(st, true, Zero, refetch))
        else Continue(InstallGameFiles(st, false, Zero, refetch))
  }

  // ---------------------------------------------------------------------------
  // The download callback
  // ---------------------------------------------------------------------------

  /**
   * `ZipFile.ExtractToDirectory(gameZip, localMods)` for the patch folder.
   * `zip` is the tree the archive holds under "Community Balance Patch"
   * (`None` when the archive cannot be opened, which raises before anything
   * is written). Entries are written one by one onto the installed folder,
   * and an entry whose name is already taken raises, leaving behind what was
   * written so far. Nothing is ever overwritten or deleted.
   */
  function Extract(w: World, zip: Option<Dir>): (r: CopyResult)
    ensures zip.None? ==> r.error.Some? && r.dest == w.active
    ensures zip.Some? ==> r.dest.Some?
  {
    DirectoryCopy(zip, w.active, true)
  }

  /** `File.WriteAllText(versionFileCBP, text)` and what follows it in the callback. */
  function FinishDownload(s: State, text: string): (r: Outcome)
    ensures r.Continue?
    ensures !r.state.world.tempZip && r.state.download == s.download
    ensures r.state.status == ReadyCbpEnabled || r.state.status == InstallFailed
    ensures r.state.status == ReadyCbpEnabled ==>
      && Marker(r.state.world) == Some(text)
      && InstalledVersionShows(r.state.world)
      && r.state.settings == s.settings.(loaded := true)
    ensures r.state.status == InstallFailed ==> r.state.settings == s.settings
    ensures s.world.active.None? ==> r.state.world == s.world.(tempZip := false)
  {
    var w := s.world;
    var written := if w.active.Some? then WriteFile(w.active.value, MarkerName, text) else None;
    match written
    case None => Continue(s.(status := InstallFailed, world := w.(tempZip := false)))
    case Some(d) =>
      var w1 := w.(active := Some(d), tempZip := false);
      if !InstalledVersionShows(w1) then Continue(s.(world := w1, status := InstallFailed))
      else Continue(s.(world := w1, status := ReadyCbpEnabled, settings := s.settings.(loaded := true)))
  }

  /**
   * `DownloadGameCompletedCallback`, with `userState` the version the download
   * was started with. `zip` is what the downloaded archive holds (see
   * `Extract`); `ignoreError` and `writeMarker` are the user's answers to the
   * two prompts that follow a failed extraction.
   */
  function DownloadCompleted(st: State, userState: Version, zip: Option<Dir>, ignoreError: bool, writeMarker: bool): (r: Outcome)
    ensures !r.Final().world.tempZip
    ensures r.Final().download.None?
    ensures r.Halted? <==> Extract(st.world, zip).error.Some? && !ignoreError
    ensures r.Halted? ==> r.reason == UserExit
    ensures r.Final().status == ReadyCbpEnabled ==>
      Marker(r.Final().world) == Some(ToString(userState)) && InstalledVersionShows(r.Final().world)
    ensures r.Final().settings == st.settings || r.Final().settings == st.settings.(loaded := true)
    ensures r.Final().world == st.world.(active := r.Final().world.active, tempZip := false)
    ensures Extract(st.world, zip).error.Some? && ignoreError && !writeMarker ==>
      r == Continue(st.(download := None, world := st.world.(active := Extract(st.world, zip).dest, tempZip := false),
                        status := InstallProblem))
  {
    var text := ToString(userState);
    var x := Extract(st.world, zip);
    var s0 := st.(download := None, world := st.world.(active := x.dest, tempZip := false));
    if x.error.None? then FinishDownload(s0, text)
    else
      var failed := s0.(status := InstallFailed);
      if !ignoreError then Halted(UserExit, failed)
      else if !writeMarker then Continue(failed.(status := InstallProblem))
      else FinishDownload(failed.(status := InstallProblem), text)
  }

  // ---------------------------------------------------------------------------
  // Unloading, start-up and the play button
  // ---------------------------------------------------------------------------

  /** `UnloadCBP()`: park the install under Unloaded Mods, unless it is already unloaded. */
  function UnloadCbp(st: State): (r: State)
    ensures st.settings.unloaded ==> r == st
    ensures !st.settings.unloaded ==> r.status == ReadyCbpDisabled || r.status == UnloadFailed
    ensures !st.settings.unloaded ==>
      (r.status == ReadyCbpDisabled <==> st.world.active.Some? && st.world.parked.None?)
    ensures r.status == ReadyCbpDisabled && !st.settings.unloaded ==>
      && r.settings == st.settings.(loaded := false, unloaded := true)
      && r.world == st.world.(active := None, parked := st.world.active)
    ensures r.status == UnloadFailed ==> r.settings == st.settings && r.world == st.world
    ensures r.download == st.download
    ensures FlagsMovedTogether(st.settings, r.settings)
  {
    if !st.settings.unloaded then
      var w := st.world;
      if w.active.Some? && w.parked.None? then
        st.(world := w.(active := None, parked := w.active),
            settings := st.settings.(unloaded := true, loaded := false),
            status := ReadyCbpDisabled)
      else st.(status := UnloadFailed)
    else st
  }

  /**
   * `Window_ContentRendered`: with DefaultCBP check for updates; without it,
   * unload a loaded patch or just report it disabled.
   */
  function ContentRendered(st: State, latest: Option<string>, refetch: Option<string>): (r: Outcome)
    ensures st.settings.defaultCbp ==> r == CheckForUpdates(st, latest, refetch)
    ensures FlagsMovedTogether(st.settings, r.Final().settings)
    ensures !st.settings.defaultCbp && !st.settings.unloaded && st.settings.loaded ==> r == Continue(UnloadCbp(st))
    ensures !st.settings.defaultCbp && (st.settings.unloaded || !st.settings.loaded) ==>
      r == Continue(st.(status := ReadyCbpDisabled))
  {
    var first := if st.settings.defaultCbp then CheckForUpdates(st, latest, refetch) else Continue(st);
    match first
    case Halted(_, _) => first
    case Continue(s) =>
      if !s.settings.defaultCbp then
        if !s.settings.unloaded && s.settings.loaded then Continue(UnloadCbp(s))
        else Continue(s.(status := ReadyCbpDisabled))
      else first
  }

  /**
   * `PlayButton_Click`. The launch test reads `(exe exists && enabled) || disabled`,
   * so a disabled patch launches without the check and `Process.Start` raises
   * when the executable is missing.
   */
  function PlayClick(st: State, exeExists: bool, latest: Option<string>, refetch: Option<string>): (r: Outcome)
    ensures r == Halted(GameLaunched, st) <==> exeExists && (st.status == ReadyCbpEnabled || st.status == ReadyCbpDisabled)
    ensures st.status == ReadyCbpDisabled && !exeExists ==> r == Halted(Unhandled, st)
    ensures st.status == ReadyCbpEnabled && !exeExists ==> r == Continue(st)
    ensures FlagsMovedTogether(st.settings, r.Final().settings)
  {
    var s := st.status;
    if (exeExists && s == ReadyCbpEnabled) || s == ReadyCbpDisabled then
      if exeExists then Halted(GameLaunched, st) else Halted(Unhandled, st)
    else if s == InstallFailed then CheckForUpdates(st, latest, refetch)
    else if s == LoadFailed then CheckForUpdates(st, latest, refetch)
    else if s == UnloadFailed then Continue(UnloadCbp(st))
    else Continue(st)
  }
}
