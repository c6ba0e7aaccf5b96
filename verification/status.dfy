/**
 * `LauncherStatus` and what its setter shows: the status line, the play
 * button's caption and whether the button can be pressed. Colours are left out.
 */
module Status {
  import opened Wrappers

  datatype LauncherStatus =
    | ReadyCbpEnabled
    | ReadyCbpDisabled
    | LoadFailed
    | UnloadFailed
    | InstallFailed
    | InstallingFirstTimeLocal
    | InstallingUpdateLocal
    | InstallingFirstTimeOnline
    | InstallingUpdateOnline
    | ConnectionProblemLoaded
    | ConnectionProblemUnloaded
    | InstallProblem
  {
    /** The four transient statuses shown while files are being put in place. */
    predicate IsInstalling() {
      InstallingFirstTimeLocal? || InstallingUpdateLocal? || InstallingFirstTimeOnline? || InstallingUpdateOnline?
    }
  }

  /**
   * What the setter writes. `caption` is `None` where the setter leaves the
   * button's previous caption in place.
   */
  datatype Readout = Readout(text: string, caption: Option<string>, enabled: bool)

  /** The `Status` setter's switch. */
  function Project(s: LauncherStatus): (r: Readout)
    ensures r.enabled <==> !s.IsInstalling()
    ensures r.caption.None? <==> s.IsInstalling()
  {
    match s
    case ReadyCbpEnabled => Readout("Ready: CBP enabled", Some("Launch Game"), true)
    case ReadyCbpDisabled => Readout("Ready: CBP disabled", Some("Launch Game"), true)
    case LoadFailed => Readout("Error: unable to load CBP", Some("Retry Unload?"), true)
    case UnloadFailed => Readout("Error: unable to unload CBP", Some("Retry Unload?"), true)
    case InstallFailed => Readout("Error: update failed", Some("Retry Update?"), true)
    case InstallingFirstTimeLocal => Readout("Installing patch from local files...", None, false)
    case InstallingUpdateLocal => Readout("Installing update from local files...", None, false)
    case InstallingFirstTimeOnline => Readout("Installing patch from online files...", None, false)
    case InstallingUpdateOnline => Readout("Installing update from online files...", None, false)
    case ConnectionProblemLoaded => Readout("Error: connectivity issue (CBP loaded)", Some("Launch game"), true)
    case ConnectionProblemUnloaded => Readout("Error: connectivity issue (CBP not loaded)", Some("Launch game"), true)
    case InstallProblem => Readout("Potential installation error", Some("Launch game"), true)
  }

  /** Each status has its own status line, so the line identifies the status. */
  lemma ProjectionTextIsInjective(a: LauncherStatus, b: LauncherStatus)
    requires Project(a).text == Project(b).text
    ensures a == b
  {
  }
}
