/** installer.py: which executable the installer registers (`get_exe_path`)
    and the decisions of its `main`. Directory scans are given as listings of
    the `*.exe` names a glob yields, in order; the Task Scheduler registration
    and the setup run are given as their outcomes. */
module Installer {
  import opened Common
  import opened Text
  import opened Networks
  import opened Elevation

  /** The keywords that mark the main program's executable. */
  const ExeKeywords: seq<string> := ["jiit", "wifi", "auto", "auth"]

  /** The name used when no executable matched. */
  const FallbackName: string := "JIIT-AutoAuth.exe"

  /** Where the selected executable lives. */
  datatype Place = SearchDir | DistDir

  datatype ExePath = ExePath(place: Place, name: string)

  /** The fallback `search_dir / "JIIT-AutoAuth.exe"`. */
  const Fallback: ExePath := ExePath(SearchDir, FallbackName)

  /** A main-program candidate: not an installer or uninstaller, and some
      keyword occurs in the lower-cased name. */
  predicate IsMainExe(name: string) {
    var lower := Lower(name);
    !(Contains(lower, "installer") || Contains(lower, "uninstaller")) && MatchesAny(lower, ExeKeywords)
  }

  /** The first candidate among `names`, if any. */
  function FirstMainExe(names: seq<string>): (r: Option<nat>)
    ensures r.Some? ==> r.value < |names| && IsMainExe(names[r.value])
    ensures r.Some? ==> forall j :: 0 <= j < r.value ==> !IsMainExe(names[j])
    ensures r.None? ==> forall j :: 0 <= j < |names| ==> !IsMainExe(names[j])
    decreases |names|
  {
    if |names| == 0 then None
    else if IsMainExe(names[0]) then Some(0)
    else match FirstMainExe(names[1..])
      case None => None
      case Some(k) => Some(k + 1)
  }

  /** Some name in `names` is a candidate. */
  predicate HasCandidate(names: seq<string>) {
    exists k :: 0 <= k < |names| && IsMainExe(names[k])
  }

  /** `names[k]` is the first candidate in listing order. */
  predicate FirstCandidate(names: seq<string>, k: int) {
    0 <= k < |names| && IsMainExe(names[k]) && forall j :: 0 <= j < k ==> !IsMainExe(names[j])
  }

  /** `get_exe_path`: the first candidate of the search directory, else the
      first of `dist` (when it exists), else the fallback. A scan that raises
      abandons the search, so a raising search directory never reaches
      `dist`; candidates yielded before the raise still win. */
  function ExePathFor(search: Listing, dist: Listing): (r: ExePath)
    ensures HasCandidate(Yielded(search)) ==>
      r.place == SearchDir && exists k :: FirstCandidate(Yielded(search), k) && r.name == Yielded(search)[k]
    ensures !HasCandidate(Yielded(search)) && !Raises(search) && HasCandidate(Yielded(dist)) ==>
      r.place == DistDir && exists k :: FirstCandidate(Yielded(dist), k) && r.name == Yielded(dist)[k]
    ensures !HasCandidate(Yielded(search)) && (Raises(search) || !HasCandidate(Yielded(dist))) ==>
      r == Fallback
  {
    match FirstMainExe(Yielded(search))
    case Some(k) => ExePath(SearchDir, Yielded(search)[k])
    case None =>
      if Raises(search) then Fallback
      else match FirstMainExe(Yielded(dist))
        case Some(k) => ExePath(DistDir, Yielded(dist)[k])
        case None => Fallback
  }

  /** Whatever the listings, the selected name carries a keyword and is not
      an installer: the fallback name satisfies the rule as well. */
  lemma {:induction false} SelectedIsMainExe(search: Listing, dist: Listing)
    ensures IsMainExe(ExePathFor(search, dist).name)
  {
    FallbackIsMainExe(FallbackName);
  }

  /** `JIIT-AutoAuth.exe` lower-cases to `jiit-autoauth.exe`, which holds
      `jiit` and not `installer`. */
  lemma FallbackIsMainExe(name: string)
    requires name == "JIIT-AutoAuth.exe"
    ensures IsMainExe(name)
  {
    var lower := Lower(name);
    assert lower == "jiit-autoauth.exe";
    FallbackLowerFacts(lower);
    assert "jiit" in ExeKeywords;
  }

  lemma FallbackLowerFacts(lower: string)
    requires lower == "jiit-autoauth.exe"
    ensures Contains(lower, "jiit")
    ensures !Contains(lower, "installer") && !Contains(lower, "uninstaller")
  {
    assert OccursAt(lower, "jiit", 0);
    assert "installer" == "i" + "nstaller";
    FirstCharAbsent(lower, "nstaller");
    if Contains(lower, "installer") {
      ContainsSuffixOfNeedle(lower, "i", "nstaller");
    }
    UninstallerIsInstaller(lower);
  }

  /** Every name with `uninstaller` in it also has `installer` in it, so the
      second half of the skip test never decides anything. */
  lemma UninstallerIsInstaller(lower: string)
    ensures Contains(lower, "uninstaller") ==> Contains(lower, "installer")
  {
    if Contains(lower, "uninstaller") {
      assert "uninstaller" == "un" + "installer";
      ContainsSuffixOfNeedle(lower, "un", "installer");
    }
  }

  /** An installer in the search directory is passed over for a later
      candidate of the same directory. */
  lemma InstallerSkipped(installer: string, program: string, rest: seq<string>)
    requires Contains(Lower(installer), "installer") && IsMainExe(program)
    ensures ExePathFor(Listed([installer, program] + rest, false), Missing) == ExePath(SearchDir, program)
  {
    var names := [installer, program] + rest;
    assert names[1..] == [program] + rest;
    assert !IsMainExe(names[0]);
    assert FirstMainExe(names[1..]) == Some(0);
    assert FirstMainExe(names) == Some(1);
  }

  /** After a failed setup run, installation goes on exactly when the answer,
      lower-cased but not stripped, is `y`. */
  function ContinueAfterFailedSetup(answer: string): (r: bool)
    ensures r <==> |answer| == 1 && (answer[0] == 'y' || answer[0] == 'Y')
  {
    Lower(answer) == "y"
  }

  /** The outcomes of the installer's `main`. */
  datatype InstallExit =
    | Relaunching          // exit status 0 after asking for elevation
    | NotElevated          // returned without doing anything
    | ExeNotFound          // the selected path does not exist: exit status 1
    | Cancelled            // setup failed and the user declined: exit status 1
    | Installed            // scheduled task registered
    | RegistrationFailed   // scheduled task could not be registered

  /** What the installer observes: privileges, the two scans, whether the
      fallback file exists, whether the setup run exited with an error, the
      answer to the continue prompt, and whether registration succeeded. */
  datatype InstallEnv = InstallEnv(
    platform: string, admin: bool, search: Listing, dist: Listing,
    fallbackExists: bool, setupFailed: bool, continueAnswer: string,
    taskRegistered: bool)

  datatype InstallRun = InstallRun(exit: InstallExit, exe: Option<ExePath>, setupRan: bool, registrationTried: bool)

  /** The installer's `main`. A path produced by a scan exists; only the
      fallback may be missing, and `fallbackExists` says whether
      `JIIT-AutoAuth.exe` exists in the program directory. */
  function Install(e: InstallEnv): (r: InstallRun)
    ensures r.exit == Relaunching <==> AdminGate(e.platform, e.admin) == ExitForRelaunch
    ensures r.exit == NotElevated <==> AdminGate(e.platform, e.admin) == ReturnQuietly
    ensures AdminGate(e.platform, e.admin) == Proceed ==> r.exe == Some(ExePathFor(e.search, e.dist))
    ensures AdminGate(e.platform, e.admin) != Proceed ==> r.exe.None?
    ensures r.setupRan <==> AdminGate(e.platform, e.admin) == Proceed && r.exit != ExeNotFound
    ensures r.setupRan && !(e.setupFailed && !ContinueAfterFailedSetup(e.continueAnswer)) ==> r.registrationTried
    ensures r.registrationTried <==> r.exit == Installed || r.exit == RegistrationFailed
    ensures r.registrationTried ==> r.setupRan && r.exe.Some? && IsMainExe(r.exe.value.name)
    ensures r.registrationTried ==> (r.exit == Installed <==> e.taskRegistered)
    ensures r.exit == Cancelled <==>
      r.setupRan && e.setupFailed && !ContinueAfterFailedSetup(e.continueAnswer)
    ensures r.exit == ExeNotFound <==>
      AdminGate(e.platform, e.admin) == Proceed && ExePathFor(e.search, e.dist) == Fallback && !e.fallbackExists
  {
    match AdminGate(e.platform, e.admin)
    case ExitForRelaunch => InstallRun(Relaunching, None, false, false)
    case ReturnQuietly => InstallRun(NotElevated, None, false, false)
    case Proceed =>
      var exe := ExePathFor(e.search, e.dist);
      SelectedIsMainExe(e.search, e.dist);
      if exe == Fallback && !e.fallbackExists then
        InstallRun(ExeNotFound, Some(exe), false, false)
      else if e.setupFailed && !ContinueAfterFailedSetup(e.continueAnswer) then
        InstallRun(Cancelled, Some(exe), true, false)
      else
        InstallRun(if e.taskRegistered then Installed else RegistrationFailed, Some(exe), true, true)
  }

  /** An administrator whose program directory holds the program, whose
      setup run succeeds and whose registration goes through ends up with
      the first candidate of that directory registered. (A listing that
      yields `JIIT-AutoAuth.exe` means that file exists.) */
  lemma InstallRegistersFirstCandidate(e: InstallEnv, k: nat)
    requires e.admin && !e.setupFailed && e.taskRegistered
    requires FirstCandidate(Yielded(e.search), k)
    requires Yielded(e.search)[k] == FallbackName ==> e.fallbackExists
    ensures Install(e).exit == Installed
    ensures Install(e).exe == Some(ExePath(SearchDir, Yielded(e.search)[k]))
  {
    FirstCandidateFound(Yielded(e.search), k);
  }

  /** The search stops at the first candidate. */
  lemma FirstCandidateFound(names: seq<string>, k: nat)
    requires FirstCandidate(names, k)
    ensures FirstMainExe(names) == Some(k)
  {
  }
}
