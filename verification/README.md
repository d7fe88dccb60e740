# JIIT WiFi auto-login, modelled in Dafny

This project models the decision logic of the JIIT WiFi auto-login tool. The tool has three programs:

- `main.py` logs a Windows machine into the college captive portal.
- `installer.py` registers the packaged main program (the `.exe` that `get_exe_path` selects) as a scheduled task.
- `uninstaller.py` removes the task, the saved credentials and the program files.

Every interaction with the outside world is given to the model as a value:

- the lock file's state;
- the clock;
- the text `netsh wlan show interfaces` prints;
- the connectivity probe's reply;
- whether the login POST raised;
- the config file's contents;
- the answers typed at prompts;
- the results of `schtasks`;
- the `*.exe` names a directory glob yields.

The model then states what each program does with those values.

Modules (one per file):

| module | file | what it models |
|---|---|---|
| `Common` | common.dfy | `Option`, timestamps, directory listings (missing, or names yielded and whether the scan raised) |
| `Text` | text.dfy | the `str` operations the programs rely on: `lower`, `in`, `strip`, `split`, `str(int)` (ASCII) |
| `ProcessLock` | lock.dfy | `acquire_lock` / `release_lock` with the 120-second stale rule |
| `CredentialStore` | credentials.dfy | `load_credentials`, `save_credentials`, `setup_credentials` |
| `Networks` | networks.dfy | the case-insensitive SSID keyword filter |
| `Netsh` | netsh.dfy | `get_connected_wifi`'s reading of the `netsh` report |
| `Portal` | portal.dfy | the probe, `login_to_portal` (URL and form) and `attempt_login` |
| `AttemptLoop` | attempt_loop.dfy | the five-attempt loop of `main` |
| `Monitor` | monitor.dfy | `monitor_wifi_changes`, one poll at a time, with its 60-second cooldown |
| `Launcher` | launcher.dfy | `main` of main.py: lock, probe, credentials, loop, release |
| `Elevation` | elevation.dfy | `is_admin`, `run_as_admin` and the admin gate of both installers |
| `Installer` | installer.dfy | `get_exe_path` and the decisions of the installer's `main` |
| `Uninstaller` | uninstaller.dfy | `get_program_files`, the task and config removals, the confirmation, the deletion loop and the uninstaller's `main` |

## Model

| member | source | states |
|---|---|---|
| ProcessLock.Acquire | main.py:28-43 | The lock is taken exactly when no lock file younger than 120 seconds exists, the write succeeds, and, for an existing stale lock, reading its age and removing it both succeed; every raising operation answers `False`. A taken lock records this pid and the current time. A lock younger than 120 seconds is never touched. A refusal changes the file only when a stale or absent lock met a failed write, which leaves no file or an empty one. |
| ProcessLock.Release | main.py:46-52 | Afterwards there is no lock file, unless removing it raised: that error is swallowed and the lock file stays as it was. |
| ProcessLock.ReleaseIdempotent | main.py:46-52 | Once a release has removed the lock, releasing again changes nothing, whether or not the second removal would raise. |
| ProcessLock.SecondAcquireRefused | main.py:31-35 | Mutual exclusion: a second instance within 120 seconds of the first is refused, whatever file errors it meets, and the lock keeps the first owner. |
| ProcessLock.StaleLockReclaimed | main.py:33-40 | A lock that is 120 seconds old or older is replaced by the new pid and time. At exactly 120 seconds the lock counts as stale. |
| ProcessLock.AcquireAfterRelease | main.py:28-52 | After a successful release, the next acquisition succeeds exactly when its own write succeeds. |
| ProcessLock.FailedReleaseBlocks | main.py:48-52 | A release whose removal raises keeps the owner's lock, so every other instance is refused until it turns stale. |
| ProcessLock.HalfWrittenLockBlocks | main.py:39-43 | A lock write that fails after creating the file leaves an empty lock file, which refuses every instance, the writer included, for the next 120 seconds. |
| CredentialStore.Record | main.py:70 | The saved record has exactly the keys `username` and `password`, holding the given values. |
| CredentialStore.Load | main.py:55-63 | Loading gives a mapping exactly when the file exists and holds a JSON object, and that mapping is the object's fields. |
| CredentialStore.Save | main.py:66-75 | Saving succeeds exactly when the write completes, and then the file holds the credential record. A write whose open fails leaves the file unchanged. A write that fails after `open(..., 'w')` leaves a truncated file that no longer parses. |
| CredentialStore.Fields | main.py:254-255 | Reading the credentials succeeds exactly when both keys are present (otherwise `KeyError`), and yields those two values. |
| CredentialStore.Setup | main.py:78-98 | Setup yields credentials exactly when both stripped entries are non-empty, the stripped and lower-cased confirmation is `y`, and the save completes. The credentials are the stripped entries, and they are stored. The file is untouched unless a save was tried, and a save that fails after opening the file leaves it unparsable. |
| CredentialStore.SetupCredentialsWellFormed | main.py:86-91 | Credentials returned by setup are non-empty, and neither the username nor the password carries surrounding whitespace. |
| CredentialStore.SaveLoadRoundTrip | main.py:55-75 | Loading what was saved gives back the same username and password. |
| CredentialStore.BrokenSaveLosesRecord | main.py:69-75 | A save that fails after opening the file destroys any stored record: setup reports failure and the next load finds nothing. |
| CredentialStore.ConfirmationExamples | main.py:93-94 | ` Y ` confirms the save; `yes` does not. |
| Text.Lower | main.py:194 | Lower-casing keeps the length and leaves no upper-case letter. It maps each ASCII upper-case letter to its lower-case partner and keeps every other character. |
| Text.LowerIdempotent | main.py:274 | Lower-casing twice is lower-casing once. |
| Text.Contains | main.py:112 | The `in` test holds exactly when the needle occurs at some position. |
| Text.Strip | main.py:113 | The stripped text is a contiguous slice of the input with only whitespace around it. It neither starts nor ends with whitespace, and it is empty exactly when the input is all whitespace. |
| Text.Split | main.py:111 | Splitting gives at least one piece. No piece holds the separator, and joining the pieces with the separator rebuilds the input. |
| Text.SplitJoin | main.py:111 | Splitting a join of separator-free pieces recovers the pieces. |
| Text.NatDigitsValue | main.py:140 | The decimal text `str(n)` reads back as `n`. |
| Networks.MatchesAny | main.py:274 | The `any(...)` scan holds exactly when some key occurs in the name. |
| Networks.IsCollegeNetwork | main.py:274 | An SSID is a college network exactly when some keyword, lower-cased, occurs in the lower-cased SSID. |
| Networks.CollegeNetworkIgnoresCase | main.py:194 | The filter gives the same answer for an SSID and for its lower-cased form. |
| Networks.KeywordInsideNameMatches | main.py:274 | Any of the five keywords, spelled in any case and embedded anywhere in a name, makes the name a college network. |
| Networks.HostelNetworkMatches | main.py:21 | `JIIT-Hostel-5G` is a college network. |
| Networks.HomeNetworkIgnored | main.py:21 | `homewifi` is not a college network. |
| Netsh.FirstSsidLine | main.py:111-112 | Finds the first line that mentions `SSID` but not `BSSID`, and no earlier line qualifies. |
| Netsh.ParseSsid | main.py:101-116 | No SSID is read exactly when there is no SSID line, or when the first SSID line has no colon (the caught `IndexError`). A read SSID holds no colon or newline and has no surrounding whitespace. |
| Netsh.CurrentNetwork | main.py:101-116 | A failed `netsh` run gives no SSID; otherwise the SSID is read from its output. |
| Netsh.ParseReport | main.py:111-113 | In a report whose first SSID line carries `name`, the SSID read is the stripped text of `name` up to its first colon. |
| Netsh.ParseReportRoundTrip | main.py:111-113 | A colon-free, already-stripped network name is read back exactly. |
| Netsh.ColonTruncates | main.py:113 | A name holding a colon is read only up to its first colon (`Cafe:Guest` reads as `Cafe`). |
| Netsh.SsidLineRecognised | main.py:112 | The interface line `SSID : name` is picked up as an SSID line whenever the name does not contain `BSSID`. |
| Portal.HasInternet | main.py:119-127 | Online exactly when the probe answers status 204. No reply, a redirect or any other status means offline. |
| Portal.LoginUrl | main.py:145 | The login URL ends in `/login.xml`, and what precedes it is the portal URL up to its last slash. |
| Portal.LoginUrlReplacesLastSegment | main.py:145 | `rsplit('/', 1)[0] + '/login.xml'` replaces the last path segment with `login.xml`. |
| Portal.PortalLoginUrl | main.py:17 | The configured portal page leads to `http://172.16.68.6:8090/login.xml`. |
| Portal.Truncate | main.py:140 | `int()` of a real truncates toward zero: the result is within one of the input, on the zero side. |
| Portal.LoginFormFields | main.py:136-142 | The login form carries mode `191`, the username, the password, the millisecond nonce `a` and product type `0`. |
| Portal.NonceIsMilliseconds | main.py:140 | For a non-negative clock the nonce is all digits and reads back as the clock in whole milliseconds. |
| Portal.LoginToPortal | main.py:130-152 | The POST goes to the login endpoint with the login form. The login succeeds exactly when the POST did not raise and the probe afterwards sees status 204. |
| Portal.AttemptLogin | main.py:155-171 | No POST is sent exactly when the first probe already sees internet, which counts as success. Otherwise the result is the portal login's result. |
| AttemptLoop.PlayRound | main.py:267-284 | One iteration does one of four things. It waits 5 seconds when no SSID is read. It waits 5 seconds when the SSID is not a college network. It otherwise attempts a login, and a success ends the loop; a failure waits 10 seconds. A POST is sent exactly on a connected college network whose probe shows no internet, and it is the POST `attempt_login` sends. |
| AttemptLoop.RunAttempts | main.py:262-286 | The loop plays between one and five rounds, in order, and stops at the first successful login. It succeeds exactly when the last round logged in. Giving up means five rounds were played and none logged in. |
| Monitor.Step | main.py:186-209 | A poll fires a login exactly when the reading changed, is a non-empty college SSID, and more than 60 seconds passed since that network's stored attempt (0 if none). The last reading is always updated. Only a fired poll changes the stored times, and only the fired network's. |
| Monitor.RecordsLastFire | main.py:198-201 | After any run, a network's stored time is the stamp of its most recent fired login. |
| Monitor.CooldownBetweenFires | main.py:198-201 | Two consecutive logins on one network are more than 60 seconds apart. The gap is measured from the time stored after the first. |
| Monitor.FiresAfterCooldown | main.py:189-201 | Coming back to a college network from a different reading fires again once the cooldown since its last stored time has passed. |
| Monitor.NoFireWithoutChange | main.py:189 | Two equal readings in a row never fire on the second. |
| Monitor.UntouchedWithoutFire | main.py:201 | A network that never fired keeps its stored time, or its absence, for the whole run. |
| Monitor.FirstCollegeNetworkFires | main.py:198-199 | From the initial state, the first college network fires once the clock is past 60 seconds. |
| Launcher.ObtainCredentials | main.py:244-255 | A non-empty stored record is used as is. It lacks credentials exactly when a key is missing, and then the exit is the `KeyError` one. Otherwise the interactive setup decides, and a failed setup gives the cancelled exit. The config file changes only through setup: it gets the new record, or it becomes unparsable when the save broke off. |
| Launcher.Authenticate | main.py:232-288 | Already online means nothing else happens. Otherwise a missing credential ends the run with its reason: `KeyError` or cancelled setup. The loop runs exactly when credentials were obtained, with those credentials and the rounds in order. It stops at the first round that logs in, and its last verdict decides success or giving up. |
| Launcher.RunOnce | main.py:222-290 | The run stops at once exactly when `acquire_lock` answers `False`: a fresh lock of another instance, or a file error. A lock younger than 120 seconds is never touched. Otherwise the body's contract holds, and the lock is removed on every path unless its removal raises, which leaves this run's own lock behind. |
| Elevation.IsAdmin | installer.py:7-13 | Admin means user id 0 where the platform has user ids, else a non-zero shell flag. |
| Elevation.RunAsAdmin | installer.py:16-26 | A relaunch is requested, answered `False`, exactly for a non-admin process on `win32`. |
| Elevation.AdminGate | installer.py:160-167 | The installer proceeds exactly when it is admin. A non-admin on `win32` exits for the relaunch; a non-admin elsewhere returns quietly. |
| Installer.FirstMainExe | installer.py:43-50 | Finds the first name in listing order that is a main-program candidate (keyword, not an installer), and no earlier name is one. |
| Installer.ExePathFor | installer.py:29-64 | The executable is the first candidate of the program directory. Failing that it is the first candidate of `dist`, unless the first scan raised. Failing both it is `JIIT-AutoAuth.exe`. |
| Installer.SelectedIsMainExe | installer.py:29-64 | Whatever the listings, the selected name is a main-program candidate, the fallback included. |
| Installer.UninstallerIsInstaller | installer.py:46 | A name containing `uninstaller` also contains `installer`, so the second half of the skip test never decides. |
| Installer.InstallerSkipped | installer.py:46-50 | An installer listed before the program is passed over. |
| Installer.ContinueAfterFailedSetup | installer.py:203-204 | After a failed setup, installation goes on exactly when the answer is the single letter `y` or `Y` (no stripping). |
| Installer.Install | installer.py:154-252 | A non-admin relaunches (on `win32`) or returns quietly (elsewhere) and does nothing else. Past the gate, the executable is the one `get_exe_path` selects, and a missing fallback executable aborts. Otherwise setup runs; a failed setup with a declined answer cancels; in every other case registration is attempted with that main-program executable, and its result decides the exit. |
| Installer.InstallRegistersFirstCandidate | installer.py:173-220 | An administrator whose program directory lists the program, whose setup run succeeds and whose registration goes through gets the first candidate of that directory registered. |
| Uninstaller.MatchesMeaning | uninstaller.py:101-108 | A path is matched in one directory exactly when the glob yielded its name there and the lower-cased name holds a keyword. |
| Uninstaller.CandidatesMeaning | uninstaller.py:96-110 | A path is a candidate exactly when some existing search directory yielded it and it matches. A directory that raised keeps what it yielded before the error. |
| Uninstaller.Dedup | uninstaller.py:107-108 | De-duplication keeps the same members, without repeats, and never grows. |
| Uninstaller.DedupKeepsFirstOccurrenceOrder | uninstaller.py:107-108 | De-duplicated paths keep the order of their first occurrences. |
| Uninstaller.DedupIgnoresRepeats | uninstaller.py:107-108 | Appending paths already seen does not change the result. |
| Uninstaller.AddMatches | uninstaller.py:101-108 | Scanning one directory appends exactly its keyword matches not already listed, so the list stays the de-duplication of every match found so far, in order. |
| Uninstaller.ProgramFiles | uninstaller.py:75-112 | The search loop's list equals the de-duplicated candidates of all search directories in order. |
| Uninstaller.ProgramFilesMeaning | uninstaller.py:75-112 | Every file found is a program file. A path is found exactly when a directory yielded a matching name. No path is listed twice. |
| Uninstaller.ProgramDirComesFirst | uninstaller.py:90-94 | A file found in the program directory is listed before any file found only in the parent or the install directory. |
| Uninstaller.Confirmed | uninstaller.py:168-170 | An answer confirms exactly when, once stripped, it spells `yes` or `y` in any case. |
| Uninstaller.LowerIsYes | uninstaller.py:170 | The lower-cased answer is `yes` or `y` exactly when it spells `yes` or `y` in any mix of cases. |
| Uninstaller.RemoveConfig | uninstaller.py:61-72 | Config removal fails only when the file exists and cannot be unlinked; a missing file is reported as already removed. |
| Uninstaller.RemoveConfigIdempotent | uninstaller.py:61-72 | After a successful removal, a second removal finds nothing and succeeds. |
| Uninstaller.RemoveTask | uninstaller.py:29-58 | A delete is issued exactly when the query finds the task. A task the query does not find counts as already removed, which is success. Otherwise success is the delete's exit status 0. A query that cannot run fails. |
| Uninstaller.RemoveTaskIdempotent | uninstaller.py:42-53 | After a successful removal the task is no longer scheduled. A second removal finds nothing and issues no delete. |
| Uninstaller.PartitionMeaning | uninstaller.py:215-224 | `Uninstaller.exe` is neither deleted nor failed. Every other file is deleted exactly when it can be unlinked and failed otherwise. Deleted, failed and skipped files add up to the list. |
| Uninstaller.DeleteProgramFiles | uninstaller.py:212-224 | The deletion loop produces the partition of the file list into deleted and failed files. |
| Uninstaller.UninstallAsWritten | uninstaller.py:143-268 | The uninstaller as written crashes at its summary exactly when it passed the gate and the confirmation and found no program files. |
| Uninstaller.NoFilesCrashesSummary | uninstaller.py:256 | A confirmed uninstall where no scanned directory yields a program file reaches the unbound `delete_files` and crashes. |
| Uninstaller.Uninstall | uninstaller.py:143-268 | The corrected uninstaller never crashes. A non-admin relaunches (on `win32`) or returns quietly (elsewhere); an admin whose first answer does not confirm cancels. It completes exactly when it passed the gate and was confirmed, and then it removed the task and config and listed the de-duplicated candidates. Files are deleted (and reported) exactly when some were found and the second answer confirms. |
| Uninstaller.CorrectionOnlyRemovesCrash | uninstaller.py:256-264 | The correction changes nothing but the crash: wherever the program as written completes, both agree. |

## Left out

- HTTP is not modelled. The connectivity probe and the login POST appear only through their outcomes: a status code or no reply, and whether the POST raised. `requests.Session` and timeouts are out of scope.
- External commands are not modelled. `subprocess` runs of `netsh`, `schtasks` and the setup program are given as their outputs or exit codes.
- `ctypes` calls are not modelled. `IsUserAnAdmin` and `ShellExecuteW` are replaced by their answers.
- JSON parsing is not modelled. A config file is missing, unparsable, or an object of string fields; non-string values and non-object JSON are not distinguished. A truthy non-object value such as `["a"]` makes `credentials['username']` raise an uncaught `TypeError` at main.py:252; the model reads such a file as unparsable and runs setup instead.
- Directory globbing and `Path.exists` are given as listings: the names yielded in order and whether the scan raised part-way.
- Path equality is structural (directory, name); Windows' case-insensitive path comparison is not modelled.
- Text handling covers ASCII only: `str.lower`, `str.strip` and whitespace are not modelled for Unicode.
- Time is a real number of seconds, not a float; rounding of floating-point clocks is not modelled.
- `time.sleep` is not performed; each loop round records the pause it would take (5 or 10 seconds).
- The monitoring branch of `main` is unreachable because `MONITOR_MODE` is `False`. `Launcher.RunOnce` models the single-attempt branch only. `monitor_wifi_changes` is modelled separately, one poll at a time, in `Monitor`.
- `KeyboardInterrupt`, the `except Exception` retry in the monitor loop and the top-level exception handler are not modelled.
- Installer.Install: `exe_path.exists()` is a flag only for `JIIT-AutoAuth.exe` (`fallbackExists`). A name the directory scan yielded is taken to exist. So when a scan yields `JIIT-AutoAuth.exe` itself, the flag must agree with that.
- Races between processes on the lock file (two instances acquiring at the same instant) are not modelled.
- ProcessLock.Acquire / Launcher.RunOnce: a run is one instant. A lock that turns stale while its owner still runs (waiting at the setup prompts, or through five slow rounds) is reclaimed by the next instance, and the owner's `release_lock` then removes the newcomer's lock; neither is modelled.
- The scheduled-task XML and `create_task_scheduler_task` are given as a success flag.
- The uninstaller's self-delete script (`create_self_delete_script`) is not modelled; its result only chooses a printed message.
- Printed messages, prompts and the text of returned messages are not modelled; only the decisions are.
- Uninstaller.DeleteProgramFiles: its contract is equality with `Partition`. What the partition means is stated by `Uninstaller.PartitionMeaning`.
- Uninstaller.ProgramFiles: its contract is equality with the de-duplicated candidates. What that list means is stated by `Uninstaller.ProgramFilesMeaning`.

## Findings

| source | as written | input that shows it | evidently intended | confidence | as-written member | corrected member |
|---|---|---|---|---|---|---|
| uninstaller.py:256 | The summary tests `delete_files`, which is bound only inside `if program_files:` (line 209). When no program file is found, the test raises `UnboundLocalError` after the task and credentials were already removed. | Running the uninstaller as admin from a folder where none of the three search directories yields a `.exe` whose name holds a keyword, and answering `y`. | When nothing was found, the summary is printed without the program-files line. | not executed | Uninstaller.NoFilesCrashesSummary | Uninstaller.Uninstall |
