/** uninstaller.py: which program files the uninstaller offers to delete
    (`get_program_files`), the two "already removed" outcome rules
    (`remove_config_file`, `remove_task_scheduler_task`), the confirmation
    prompts, the deletion loop, and the flow of its `main`. Directory scans,
    file removals and `schtasks` runs are given as their outcomes. */
module Uninstaller {
  import opened Common
  import opened Text
  import opened Networks
  import opened Elevation

  // ---------------------------------------------------------------------------
  // Program files
  // ---------------------------------------------------------------------------

  /** The keywords that mark a file of the program (case-insensitive). */
  const FileKeywords: seq<string> := ["jiit", "wifi", "auto", "auth", "installer", "uninstaller"]

  /** A file as `search_dir / name`; two paths are equal when both parts are. */
  datatype FilePath = FilePath(dir: string, name: string)

  /** One directory to search and what its scan yields. */
  datatype Scan = Scan(dir: string, listing: Listing)

  /** Some keyword occurs in the lower-cased file name. */
  predicate IsProgramFile(name: string) {
    MatchesAny(Lower(name), FileKeywords)
  }

  /** The matching paths of one scan, in listing order. */
  function Matches(dir: string, names: seq<string>): seq<FilePath>
    decreases |names|
  {
    if |names| == 0 then []
    else (if IsProgramFile(names[0]) then [FilePath(dir, names[0])] else []) + Matches(dir, names[1..])
  }

  /** A path matches exactly when it is in `dir`, its name is listed and it
      is a program file. */
  lemma {:induction false} MatchesMeaning(dir: string, names: seq<string>)
    ensures forall p :: p in Matches(dir, names) <==> p.dir == dir && p.name in names && IsProgramFile(p.name)
    decreases |names|
  {
    if |names| > 0 {
      MatchesMeaning(dir, names[1..]);
      assert forall n :: n in names <==> n == names[0] || n in names[1..];
    }
  }

  /** The matching paths of all scans, directory by directory: every path
      `get_program_files` considers, before duplicates are dropped. */
  function Candidates(scans: seq<Scan>): seq<FilePath>
    decreases |scans|
  {
    if |scans| == 0 then []
    else
      var last := scans[|scans| - 1];
      Candidates(scans[..|scans| - 1]) + Matches(last.dir, Yielded(last.listing))
  }

  /** A path is a candidate exactly when some scan's listing matches it. */
  lemma {:induction false} CandidatesMeaning(scans: seq<Scan>)
    ensures forall p :: p in Candidates(scans) <==>
      exists d :: 0 <= d < |scans| && p in Matches(scans[d].dir, Yielded(scans[d].listing))
    decreases |scans|
  {
    if |scans| > 0 {
      var n := |scans| - 1;
      var init := scans[..n];
      var tail := Matches(scans[n].dir, Yielded(scans[n].listing));
      CandidatesMeaning(init);
      assert Candidates(scans) == Candidates(init) + tail;
      forall p | p in Candidates(scans)
        ensures exists d :: 0 <= d < |scans| && p in Matches(scans[d].dir, Yielded(scans[d].listing))
      {
        if p !in tail {
          var d :| 0 <= d < |init| && p in Matches(init[d].dir, Yielded(init[d].listing));
          assert init[d] == scans[d];
        }
      }
      forall p, d | 0 <= d < |scans| && p in Matches(scans[d].dir, Yielded(scans[d].listing))
        ensures p in Candidates(scans)
      {
        if d < n {
          assert init[d] == scans[d];
        }
      }
    }
  }

  /** `xs` with every repetition of an earlier element dropped. */
  function Dedup(xs: seq<FilePath>): (r: seq<FilePath>)
    ensures forall x :: x in r <==> x in xs
    ensures forall i, j :: 0 <= i < j < |r| ==> r[i] != r[j]
    ensures |r| <= |xs|
    decreases |xs|
  {
    if |xs| == 0 then []
    else
      var init := xs[..|xs| - 1];
      var last := xs[|xs| - 1];
      assert xs == init + [last];
      var d := Dedup(init);
      if last in d then d else d + [last]
  }

  /** The position of the first occurrence of `x` in `xs`. */
  function FirstIndex(xs: seq<FilePath>, x: FilePath): (k: nat)
    requires x in xs
    ensures k < |xs| && xs[k] == x && x !in xs[..k]
    decreases |xs|
  {
    if xs[0] == x then 0
    else
      var k := 1 + FirstIndex(xs[1..], x);
      assert xs[..k] == [xs[0]] + xs[1..][..k - 1];
      k
  }

  /** A first occurrence is unaffected by what is appended after it. */
  lemma {:induction false} FirstIndexAppend(xs: seq<FilePath>, y: FilePath, x: FilePath)
    requires x in xs
    ensures FirstIndex(xs + [y], x) == FirstIndex(xs, x)
    decreases |xs|
  {
    if xs[0] != x {
      assert (xs + [y])[1..] == xs[1..] + [y];
      FirstIndexAppend(xs[1..], y, x);
    }
  }

  /** De-duplication keeps the order of first occurrences. */
  lemma {:induction false} DedupKeepsFirstOccurrenceOrder(xs: seq<FilePath>)
    ensures forall i, j :: 0 <= i < j < |Dedup(xs)| ==>
      FirstIndex(xs, Dedup(xs)[i]) < FirstIndex(xs, Dedup(xs)[j])
    decreases |xs|
  {
    if |xs| > 0 {
      var init := xs[..|xs| - 1];
      var last := xs[|xs| - 1];
      assert xs == init + [last];
      DedupKeepsFirstOccurrenceOrder(init);
      var d := Dedup(init);
      forall e | e in d ensures FirstIndex(xs, e) == FirstIndex(init, e) && FirstIndex(init, e) < |init| {
        FirstIndexAppend(init, last, e);
      }
      if last !in d {
        assert last !in init;
        assert FirstIndex(xs, last) == |init| by {
          assert xs[|init|] == last && last !in xs[..|init|];
        }
      }
    }
  }

  /** Appending only elements already present changes nothing: a directory
      scanned twice (the install directory can be the program directory)
      contributes nothing the second time. */
  lemma {:induction false} DedupIgnoresRepeats(xs: seq<FilePath>, ys: seq<FilePath>)
    requires forall y :: y in ys ==> y in xs
    ensures Dedup(xs + ys) == Dedup(xs)
    decreases |ys|
  {
    if |ys| > 0 {
      var init := ys[..|ys| - 1];
      assert xs + ys == (xs + init) + [ys[|ys| - 1]];
      assert (xs + ys)[..|xs + ys| - 1] == xs + init;
      DedupIgnoresRepeats(xs, init);
    } else {
      assert xs + ys == xs;
    }
  }

  /** `get_program_files` as the Python loop: scans in order, names in listing
      order, a matching path appended unless already present. A missing
      directory is skipped; a scan that raises keeps what it yielded so far. */
  method ProgramFiles(scans: seq<Scan>) returns (files: seq<FilePath>)
    ensures files == Dedup(Candidates(scans))
  {
    files := [];
    var d := 0;
    while d < |scans|
      invariant 0 <= d <= |scans|
      invariant files == Dedup(Candidates(scans[..d]))
    {
      var scan := scans[d];
      CandidatesStep(scans, d);
      if scan.listing.Missing? {
        d := d + 1;
        continue;
      }
      files := AddMatches(files, Candidates(scans[..d]), scan.dir, scan.listing.names);
      d := d + 1;
    }
    assert scans[..|scans|] == scans;
  }

  /** The inner loop of `get_program_files` over one directory's names, a
      step of `ProgramFiles`: appending the unseen matches keeps the list the
      de-duplication of every match so far. */
  method AddMatches(files: seq<FilePath>, ghost seen: seq<FilePath>, dir: string, names: seq<string>)
    returns (out: seq<FilePath>)
    requires files == Dedup(seen)
    ensures out == Dedup(seen + Matches(dir, names))
  {
    ghost var target := Dedup(seen + Matches(dir, names));
    DedupOntoIsDedup(seen, Matches(dir, names));
    assert names[0..] == names;
    out := files;
    var i := 0;
    while i < |names|
      invariant 0 <= i <= |names|
      invariant DedupOnto(out, Matches(dir, names[i..])) == target
    {
      var path := FilePath(dir, names[i]);
      ghost var rest := Matches(dir, names[i + 1..]);
      assert names[i..][1..] == names[i + 1..];
      if IsProgramFile(names[i]) {
        assert Matches(dir, names[i..]) == [path] + rest;
        assert ([path] + rest)[1..] == rest;
        assert DedupOnto(out, [path] + rest) == DedupOnto(if path in out then out else out + [path], rest);
        if path !in out {
          out := out + [path];
        }
      } else {
        assert Matches(dir, names[i..]) == [] + rest;
        assert [] + rest == rest;
      }
      i := i + 1;
    }
  }

  /** `xs` appended onto `acc`, each element only if not yet present: the
      `if file_path not in files: files.append(file_path)` loop. */
  function DedupOnto(acc: seq<FilePath>, xs: seq<FilePath>): seq<FilePath>
    decreases |xs|
  {
    if |xs| == 0 then acc
    else DedupOnto(if xs[0] in acc then acc else acc + [xs[0]], xs[1..])
  }

  /** Folding the rest onto the de-duplicated prefix de-duplicates the whole. */
  lemma {:induction false} DedupOntoIsDedup(a: seq<FilePath>, b: seq<FilePath>)
    ensures DedupOnto(Dedup(a), b) == Dedup(a + b)
    decreases |b|
  {
    if |b| == 0 {
      assert a + b == a;
    } else {
      DedupStep(a, b[0]);
      assert a + b == (a + [b[0]]) + b[1..];
      DedupOntoIsDedup(a + [b[0]], b[1..]);
    }
  }

  lemma CandidatesStep(scans: seq<Scan>, d: nat)
    requires d < |scans|
    ensures Candidates(scans[..d + 1]) == Candidates(scans[..d]) + Matches(scans[d].dir, Yielded(scans[d].listing))
    ensures scans[d].listing.Missing? ==> Candidates(scans[..d + 1]) == Candidates(scans[..d])
  {
    assert scans[..d + 1][..d] == scans[..d];
  }

  lemma DedupStep(xs: seq<FilePath>, x: FilePath)
    ensures Dedup(xs + [x]) == if x in Dedup(xs) then Dedup(xs) else Dedup(xs) + [x]
  {
    assert (xs + [x])[..|xs|] == xs;
  }

  /** The files offered are exactly the program files the scans yielded,
      each once. */
  lemma ProgramFilesMeaning(scans: seq<Scan>, files: seq<FilePath>)
    requires files == Dedup(Candidates(scans))
    ensures forall p :: p in files ==> IsProgramFile(p.name)
    ensures forall p :: p in files <==>
      exists d :: 0 <= d < |scans| && p.dir == scans[d].dir && p.name in Yielded(scans[d].listing) && IsProgramFile(p.name)
    ensures forall i, j :: 0 <= i < j < |files| ==> files[i] != files[j]
  {
    CandidatesMeaning(scans);
    forall d | 0 <= d < |scans| {
      MatchesMeaning(scans[d].dir, Yielded(scans[d].listing));
    }
  }

  /** The three directories of `get_program_files`, in their order: the
      program's own directory, its parent and the install directory. */
  function SearchOrder(programDir: Scan, parent: Scan, installDir: Scan): seq<Scan> {
    [programDir, parent, installDir]
  }

  /** A file found in the program directory is offered before any file that
      only a later directory holds. */
  lemma ProgramDirComesFirst(programDir: Scan, parent: Scan, installDir: Scan, p: FilePath, q: FilePath)
    requires p in Matches(programDir.dir, Yielded(programDir.listing))
    requires q in Candidates(SearchOrder(programDir, parent, installDir))
    requires q !in Matches(programDir.dir, Yielded(programDir.listing))
    ensures p in Candidates(SearchOrder(programDir, parent, installDir))
    ensures FirstIndex(Candidates(SearchOrder(programDir, parent, installDir)), p)
      < FirstIndex(Candidates(SearchOrder(programDir, parent, installDir)), q)
  {
    var first := Matches(programDir.dir, Yielded(programDir.listing));
    var rest := Matches(parent.dir, Yielded(parent.listing)) + Matches(installDir.dir, Yielded(installDir.listing));
    CandidatesOfThree(programDir, parent, installDir);
    EarlierPartFirst(first, rest, p, q);
  }

  /** The candidates of the three directories are theirs, concatenated in order. */
  lemma CandidatesOfThree(a: Scan, b: Scan, c: Scan)
    ensures Candidates(SearchOrder(a, b, c)) ==
      Matches(a.dir, Yielded(a.listing)) + (Matches(b.dir, Yielded(b.listing)) + Matches(c.dir, Yielded(c.listing)))
  {
    var scans := SearchOrder(a, b, c);
    assert scans[..2][..1] == [a] && scans[..2][1] == b;
    assert scans[..3] == scans && scans[..3][..2] == scans[..2];
    assert [a][..0] == [];
    assert Candidates([a]) == Matches(a.dir, Yielded(a.listing));
    assert Candidates(scans[..2]) == Candidates([a]) + Matches(b.dir, Yielded(b.listing));
  }

  /** In `first + rest`, an element of `first` occurs first before anything
      that only `rest` holds. */
  lemma {:induction false} EarlierPartFirst(first: seq<FilePath>, rest: seq<FilePath>, p: FilePath, q: FilePath)
    requires p in first && q in first + rest && q !in first
    ensures p in first + rest
    ensures FirstIndex(first + rest, p) < FirstIndex(first + rest, q)
    decreases |first|
  {
    var all := first + rest;
    if first[0] != p {
      assert all[1..] == first[1..] + rest;
      EarlierPartFirst(first[1..], rest, p, q);
    }
  }

  // ---------------------------------------------------------------------------
  // Confirmation
  // ---------------------------------------------------------------------------

  /** `c` is the letter `lower` in either case. */
  predicate IsLetter(c: char, lower: char) {
    c == lower || c as int == lower as int - 32
  }

  /** `t` spells `y` or `yes`, in any mix of cases. */
  predicate SpellsYes(t: string) {
    || (|t| == 1 && IsLetter(t[0], 'y'))
    || (|t| == 3 && IsLetter(t[0], 'y') && IsLetter(t[1], 'e') && IsLetter(t[2], 's'))
  }

  /** `answer.strip().lower() in ['yes', 'y']`: the stripped answer spells
      `y` or `yes`, case ignored. */
  function Confirmed(answer: string): (r: bool)
    ensures r <==> SpellsYes(Strip(answer))
  {
    var t := Strip(answer);
    LowerIsYes(t, "yes", "y");
    Lower(t) == "yes" || Lower(t) == "y"
  }

  // The literal is a parameter pinned by `requires`, so the proof works on one named term instead of unfolding the literal in every clause.
  lemma LowerIsYes(t: string, yes: string, y: string)
    requires yes == "yes" && y == "y"
    ensures (Lower(t) == yes || Lower(t) == y) <==> SpellsYes(t)
  {
    var l := Lower(t);
    forall i | 0 <= i < |t| ensures (l[i] == 'y' <==> IsLetter(t[i], 'y'))
      && (l[i] == 'e' <==> IsLetter(t[i], 'e')) && (l[i] == 's' <==> IsLetter(t[i], 's'))
    {
    }
    assert |t| == 3 && l[0] == 'y' && l[1] == 'e' && l[2] == 's' ==> l == yes;
    assert |t| == 1 && l[0] == 'y' ==> l == y;
  }

  // ---------------------------------------------------------------------------
  // Removing the credentials file and the scheduled task
  // ---------------------------------------------------------------------------

  /** How a removal step ended. */
  datatype Removal = Removed | AlreadyGone | RemovalError

  /** The outcome of `remove_config_file` and whether the file is still there. */
  datatype ConfigRemoval = ConfigRemoval(ok: bool, kind: Removal, present: bool)

  /** `remove_config_file`: success whether or not the file existed; failure
      only when the unlink raises, which leaves the file in place. */
  function RemoveConfig(fileExists: bool, unlinkRaises: bool): (r: ConfigRemoval)
    ensures r.ok <==> !(fileExists && unlinkRaises)
    ensures r.kind == AlreadyGone <==> !fileExists
    ensures r.present <==> !r.ok
  {
    if !fileExists then ConfigRemoval(true, AlreadyGone, false)
    else if unlinkRaises then ConfigRemoval(false, RemovalError, true)
    else ConfigRemoval(true, Removed, false)
  }

  /** Removing the file again after a successful removal succeeds and
      touches nothing, however the filesystem would behave. */
  lemma RemoveConfigIdempotent(fileExists: bool, raises1: bool, raises2: bool)
    requires RemoveConfig(fileExists, raises1).ok
    ensures RemoveConfig(RemoveConfig(fileExists, raises1).present, raises2) == ConfigRemoval(true, AlreadyGone, false)
  {
  }

  /** The result of a `schtasks` run: its exit status, or no run at all
      (the program could not be started). */
  datatype Command = Exited(code: int) | CannotRun

  /** The outcome of `remove_task_scheduler_task` and whether it issued the
      delete command. */
  datatype TaskRemoval = TaskRemoval(ok: bool, kind: Removal, deleteIssued: bool)

  /** `remove_task_scheduler_task`: a failed query means the task is already
      gone, which counts as success without any delete; otherwise the delete
      must exit with status 0. */
  function RemoveTask(query: Command, delete: Command): (r: TaskRemoval)
    ensures r.deleteIssued <==> query == Exited(0)
    ensures r.kind == AlreadyGone <==> query.Exited? && query.code != 0
    ensures r.kind == AlreadyGone ==> r.ok
    ensures r.deleteIssued ==> (r.ok <==> delete == Exited(0))
    ensures query == CannotRun ==> !r.ok
  {
    match query
    case CannotRun => TaskRemoval(false, RemovalError, false)
    case Exited(code) =>
      if code != 0 then TaskRemoval(true, AlreadyGone, false)
      else if delete == Exited(0) then TaskRemoval(true, Removed, true)
      else TaskRemoval(false, RemovalError, true)
  }

  /** The query's answer for a scheduler that does or does not hold the task. */
  function QueryFor(hasTask: bool): Command {
    Exited(if hasTask then 0 else 1)
  }

  /** Whether the scheduler still holds the task after a removal step. */
  function StillScheduled(hasTask: bool, r: TaskRemoval): bool {
    hasTask && r.kind != Removed
  }

  /** Running the removal again after a successful one finds no task and
      issues no delete. */
  lemma RemoveTaskIdempotent(hasTask: bool, delete1: Command, delete2: Command)
    requires RemoveTask(QueryFor(hasTask), delete1).ok
    ensures !StillScheduled(hasTask, RemoveTask(QueryFor(hasTask), delete1))
    ensures RemoveTask(QueryFor(StillScheduled(hasTask, RemoveTask(QueryFor(hasTask), delete1))), delete2)
      == TaskRemoval(true, AlreadyGone, false)
  {
  }

  // ---------------------------------------------------------------------------
  // Deleting the program files
  // ---------------------------------------------------------------------------

  /** The running uninstaller, which the deletion loop never touches (the
      name test is exact and case-sensitive). */
  const SelfName: string := "Uninstaller.exe"

  /** The `deleted` and `failed` lists of the deletion loop. */
  datatype Deletion = Deletion(deleted: seq<FilePath>, failed: seq<FilePath>)

  /** How many entries carry the uninstaller's own name. */
  function SelfCount(files: seq<FilePath>): (n: nat)
    ensures n <= |files|
    ensures n == 0 <==> forall f :: f in files ==> f.name != SelfName
    decreases |files|
  {
    if |files| == 0 then 0
    else
      var init := files[..|files| - 1];
      assert files == init + [files[|files| - 1]];
      SelfCount(init) + (if files[|files| - 1].name == SelfName then 1 else 0)
  }

  /** One pass of the deletion loop: the uninstaller itself is skipped, a
      file whose unlink raises is recorded as failed, any other as deleted. */
  function DeleteOne(d: Deletion, file: FilePath, undeletable: set<FilePath>): Deletion {
    if file.name == SelfName then d
    else if file in undeletable then Deletion(d.deleted, d.failed + [file])
    else Deletion(d.deleted + [file], d.failed)
  }

  /** The deletion loop's result, as a function of its inputs. */
  function Partition(files: seq<FilePath>, undeletable: set<FilePath>): Deletion
    decreases |files|
  {
    if |files| == 0 then Deletion([], [])
    else DeleteOne(Partition(files[..|files| - 1], undeletable), files[|files| - 1], undeletable)
  }

  /** Every file not named `Uninstaller.exe` lands in exactly one of the two
      lists: `failed` when its unlink raises, `deleted` otherwise. */
  lemma {:induction false} PartitionMeaning(files: seq<FilePath>, undeletable: set<FilePath>)
    ensures forall f :: f in Partition(files, undeletable).deleted <==>
      f in files && f.name != SelfName && f !in undeletable
    ensures forall f :: f in Partition(files, undeletable).failed <==>
      f in files && f.name != SelfName && f in undeletable
    ensures |Partition(files, undeletable).deleted| + |Partition(files, undeletable).failed| + SelfCount(files) == |files|
    decreases |files|
  {
    if |files| > 0 {
      var init := files[..|files| - 1];
      assert files == init + [files[|files| - 1]];
      PartitionMeaning(init, undeletable);
    }
  }

  /** One more file extends the partition of a prefix by that file alone. */
  lemma PartitionNext(files: seq<FilePath>, undeletable: set<FilePath>, i: nat)
    requires i < |files|
    ensures Partition(files[..i + 1], undeletable) == DeleteOne(Partition(files[..i], undeletable), files[i], undeletable)
  {
    assert files[..i + 1][..i] == files[..i];
  }

  /** The deletion loop over `files`, where unlinking exactly the paths in
      `undeletable` raises. */
  method DeleteProgramFiles(files: seq<FilePath>, undeletable: set<FilePath>) returns (r: Deletion)
    ensures r == Partition(files, undeletable)
  {
    var deleted: seq<FilePath> := [];
    var failed: seq<FilePath> := [];
    var i := 0;
    while i < |files|
      invariant 0 <= i <= |files|
      invariant Deletion(deleted, failed) == Partition(files[..i], undeletable)
    {
      var file := files[i];
      PartitionNext(files, undeletable, i);
      if file.name == SelfName {
        i := i + 1;
        continue;
      }
      if file in undeletable {
        failed := failed + [file];
      } else {
        deleted := deleted + [file];
      }
      i := i + 1;
    }
    assert files[..|files|] == files;
    r := Deletion(deleted, failed);
  }

  // ---------------------------------------------------------------------------
  // The uninstaller's main
  // ---------------------------------------------------------------------------

  /** What the uninstaller observes. */
  datatype UninstallEnv = UninstallEnv(
    platform: string, admin: bool, confirm: string,
    taskQuery: Command, taskDelete: Command,
    configExists: bool, configUnlinkRaises: bool,
    scans: seq<Scan>, deleteAnswer: string, undeletable: set<FilePath>)

  /** The outcomes of the uninstaller's `main`. */
  datatype UninstallExit =
    | Relaunching       // exit status 0 after asking for elevation
    | NotElevated       // returned without doing anything
    | Cancelled         // the first confirmation was declined: exit status 0
    | Completed         // the summary was printed
    | CrashedAtSummary  // the summary raised: exit status 1

  /** What a run did: its exit, the two removal outcomes, the files it
      found, the deletion (when the second prompt was confirmed), and
      whether the summary reports the program files as removed. */
  datatype UninstallRun = UninstallRun(
    exit: UninstallExit, task: Option<TaskRemoval>, config: Option<ConfigRemoval>,
    files: seq<FilePath>, deletion: Option<Deletion>, reportsFilesRemoved: bool)

  /** The steps every variant of `main` shares up to the summary, given how
      the summary treats the second answer when it was never asked (`None`
      stands for the unbound variable). */
  function UninstallSteps(e: UninstallEnv, summary: Option<string> -> UninstallExit): (r: UninstallRun) {
    match AdminGate(e.platform, e.admin)
    case ExitForRelaunch => UninstallRun(Relaunching, None, None, [], None, false)
    case ReturnQuietly => UninstallRun(NotElevated, None, None, [], None, false)
    case Proceed =>
      if !Confirmed(e.confirm) then UninstallRun(Cancelled, None, None, [], None, false)
      else
        var task := RemoveTask(e.taskQuery, e.taskDelete);
        var config := RemoveConfig(e.configExists, e.configUnlinkRaises);
        var files := Dedup(Candidates(e.scans));
        var answer := if |files| > 0 then Some(e.deleteAnswer) else None;
        var deletion := if answer.Some? && Confirmed(answer.value) then Some(Partition(files, e.undeletable)) else None;
        UninstallRun(summary(answer), Some(task), Some(config), files, deletion, deletion.Some?)
  }

  /** The summary as written: it tests `delete_files`, which is bound only
      when program files were found; otherwise the test raises. */
  function SummaryAsWritten(answer: Option<string>): UninstallExit {
    if answer.None? then CrashedAtSummary else Completed
  }

  /** The summary as intended: no files found means no files deleted. */
  function SummaryCorrected(answer: Option<string>): UninstallExit {
    Completed
  }

  /** The uninstaller's `main` as written. */
  function UninstallAsWritten(e: UninstallEnv): (r: UninstallRun)
    ensures r.exit == CrashedAtSummary <==>
      AdminGate(e.platform, e.admin) == Proceed && Confirmed(e.confirm) && |Dedup(Candidates(e.scans))| == 0
  {
    UninstallSteps(e, SummaryAsWritten)
  }

  /** A confirmed uninstall run where no scanned directory yields a program
      file removes the task and the credentials, then crashes in the
      summary. */
  lemma NoFilesCrashesSummary(e: UninstallEnv)
    requires e.admin && e.confirm == "y"
    requires forall d, n :: 0 <= d < |e.scans| && n in Yielded(e.scans[d].listing) ==> !IsProgramFile(n)
    ensures UninstallAsWritten(e).exit == CrashedAtSummary
  {
    StrippedLetter(e.confirm);
    NothingFound(e.scans);
  }

  lemma StrippedLetter(s: string)
    requires |s| == 1 && !IsSpace(s[0])
    ensures Strip(s) == s
  {
    assert !AllSpace(s);
  }

  /** Listings without a program file yield no candidates. */
  lemma {:induction false} NothingFound(scans: seq<Scan>)
    requires forall d, n :: 0 <= d < |scans| && n in Yielded(scans[d].listing) ==> !IsProgramFile(n)
    ensures Candidates(scans) == []
    decreases |scans|
  {
    if |scans| > 0 {
      var init := scans[..|scans| - 1];
      assert forall d :: 0 <= d < |init| ==> init[d] == scans[d];
      NothingFound(init);
      var last := scans[|scans| - 1];
      NoMatches(last.dir, Yielded(last.listing));
    }
  }

  lemma {:induction false} NoMatches(dir: string, names: seq<string>)
    requires forall n :: n in names ==> !IsProgramFile(n)
    ensures Matches(dir, names) == []
    decreases |names|
  {
    if |names| > 0 {
      assert names[0] in names;
      NoMatches(dir, names[1..]);
    }
  }

  /** The uninstaller's `main` with the summary corrected. */
  function Uninstall(e: UninstallEnv): (r: UninstallRun)
    ensures r.exit != CrashedAtSummary
    ensures r.exit == Relaunching <==> AdminGate(e.platform, e.admin) == ExitForRelaunch
    ensures r.exit == NotElevated <==> AdminGate(e.platform, e.admin) == ReturnQuietly
    ensures r.exit == Cancelled <==> AdminGate(e.platform, e.admin) == Proceed && !Confirmed(e.confirm)
    ensures r.exit == Completed <==> AdminGate(e.platform, e.admin) == Proceed && Confirmed(e.confirm)
    ensures r.exit == Completed ==>
      && r.task == Some(RemoveTask(e.taskQuery, e.taskDelete))
      && r.config == Some(RemoveConfig(e.configExists, e.configUnlinkRaises))
      && r.files == Dedup(Candidates(e.scans))
    ensures r.exit != Completed ==> r.task.None? && r.config.None? && r.deletion.None?
    ensures r.deletion.Some? <==> r.exit == Completed && |r.files| > 0 && Confirmed(e.deleteAnswer)
    ensures r.deletion.Some? ==> r.deletion.value == Partition(r.files, e.undeletable)
    ensures r.reportsFilesRemoved <==> r.deletion.Some?
  {
    UninstallSteps(e, SummaryCorrected)
  }

  /** The correction changes nothing but the crash: whenever the program as
      written reaches its summary, both variants agree. */
  lemma CorrectionOnlyRemovesCrash(e: UninstallEnv)
    ensures UninstallAsWritten(e).exit != CrashedAtSummary ==> UninstallAsWritten(e) == Uninstall(e)
    ensures UninstallAsWritten(e).exit == CrashedAtSummary ==>
      Uninstall(e) == UninstallAsWritten(e).(exit := Completed)
  {
  }
}
