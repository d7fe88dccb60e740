/** The privilege check and elevation request shared by installer.py and
    uninstaller.py (`is_admin`, `run_as_admin` and the gate at the top of
    each `main`). The operating-system calls are replaced by their answers:
    the user id when the platform has one, the shell's admin flag otherwise. */
module Elevation {
  import opened Common

  /** The platform name the elevation request is made on. */
  const Windows: string := "win32"

  /** `is_admin`: root on a platform with `os.getuid`, otherwise the
      shell's answer to `IsUserAnAdmin`, read as a C truth value. */
  function IsAdmin(uid: Option<int>, shellAdminFlag: int): (r: bool)
    ensures uid.Some? ==> (r <==> uid.value == 0)
    ensures uid.None? ==> (r <==> shellAdminFlag != 0)
  {
    match uid
    case Some(id) => id == 0
    case None => shellAdminFlag != 0
  }

  /** The answer of `run_as_admin` and whether it asked the shell to relaunch
      the program with the `runas` verb. */
  datatype Elevation = Elevation(proceed: bool, relaunchRequested: bool)

  /** `run_as_admin`: only a non-admin process on Windows asks for a relaunch,
      and that is the only case answered with `False`. */
  function RunAsAdmin(platform: string, admin: bool): (r: Elevation)
    ensures !r.proceed <==> platform == Windows && !admin
    ensures r.relaunchRequested <==> !r.proceed
  {
    if platform == Windows && !admin then Elevation(false, true)
    else Elevation(true, false)
  }

  /** What the start of an installer `main` does with the privilege check. */
  datatype Gate =
    | Proceed          // already admin: carry on with the installation steps
    | ExitForRelaunch  // relaunch requested, this process exits with status 0
    | ReturnQuietly    // not admin and no relaunch possible: main returns

  /** `if not is_admin(): if not run_as_admin(): sys.exit(0); return`. */
  function AdminGate(platform: string, admin: bool): (g: Gate)
    ensures g == Proceed <==> admin
    ensures g == ExitForRelaunch <==> !admin && platform == Windows
    ensures g == ReturnQuietly <==> !admin && platform != Windows
    ensures g == ExitForRelaunch <==> RunAsAdmin(platform, admin).relaunchRequested
  {
    if admin then Proceed
    else if !RunAsAdmin(platform, admin).proceed then ExitForRelaunch
    else ReturnQuietly
  }
}
