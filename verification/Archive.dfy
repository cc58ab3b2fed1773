/**
 Moving processed files into a shared archive directory (`_move_file_to_archive` in parsedmarc/cli.py):
 claim a free name by exclusive creation, then move the file over the placeholder.
 */
module Archive {
  import opened Wrappers
  import opened Numbering

  type Name = string
  type Path = string

  /** What a directory entry holds: an empty placeholder, an unfinished copy, or a whole file. */
  datatype File = Placeholder | Partial | Whole(content: nat)

  /* ---------- Names ---------- */

  /** A dot starts an extension if something other than a dot comes before it. */
  predicate IsExtensionDot(name: Name, k: nat) {
    k < |name| && name[k] == '.' && exists j :: 0 <= j < k && name[j] != '.'
  }

  /** Where `os.path.splitext` cuts the first `n` characters: at the last such dot, or not at all. */
  function LastExtensionDot(name: Name, n: nat): (i: nat)
    requires n <= |name|
    ensures i <= |name|
  {
    if n == 0 then |name| else if IsExtensionDot(name, n - 1) then n - 1 else LastExtensionDot(name, n - 1)
  }

  function ExtensionStart(name: Name): (i: nat)
    ensures i <= |name|
  {
    LastExtensionDot(name, |name|)
  }

  /** The n-th name tried for a file: its own name first, then `stem-1.ext`, `stem-2.ext`, ... */
  function Candidate(name: Name, n: nat): Name {
    var dot := ExtensionStart(name);
    Numbered(name[..dot], "-", "", name[dot..], n)
  }

  lemma CandidatesAreDistinct(name: Name, m: nat, n: nat)
    requires Candidate(name, m) == Candidate(name, n)
    ensures m == n
  {
    var dot := ExtensionStart(name);
    NumberedInjective(name[..dot], "-", "", name[dot..], m, n);
  }

  lemma OwnNameComesFirst(name: Name)
    ensures Candidate(name, 0) == name
  {
  }

  /** A dot with something other than a dot before it, and no dot after it, is where the extension starts. */
  lemma {:induction false} ExtensionFound(name: Name, dot: nat, n: nat)
    requires dot < n <= |name| && name[dot] == '.' && exists j :: 0 <= j < dot && name[j] != '.'
    requires forall k :: dot < k < n ==> name[k] != '.'
    ensures LastExtensionDot(name, n) == dot
  {
    if n - 1 > dot {
      ExtensionFound(name, dot, n - 1);
    }
  }

  /** Without a dot after the leading dots there is no extension. */
  lemma {:induction false} NoExtension(name: Name, start: nat, n: nat)
    requires n <= |name| && start <= |name| && (forall k :: 0 <= k < start ==> name[k] == '.')
    requires forall k :: start <= k < |name| ==> name[k] != '.'
    ensures LastExtensionDot(name, n) == |name|
  {
    if n > 0 {
      NoExtension(name, start, n - 1);
    }
  }

  /** The number of a numbered candidate goes before the last suffix, or to the end of a name that has none. */
  lemma CandidateShape(stem: Name, ext: Name, n: nat)
    requires n > 0 && '.' !in ext
    ensures (exists j :: 0 <= j < |stem| && stem[j] != '.') ==>
      Candidate(stem + "." + ext, n) == stem + "-" + Numeral(n) + "." + ext
    ensures (forall k :: 0 <= k < |stem| ==> stem[k] == '.') ==>
      Candidate(stem + ext, n) == stem + ext + "-" + Numeral(n)
  {
    hide Numeral;
    var whole, plain := stem + "." + ext, stem + ext;
    if j :| 0 <= j < |stem| && stem[j] != '.' {
      assert whole[j] != '.';
      forall k | |stem| < k < |whole| ensures whole[k] != '.' {
        assert whole[k] == ext[k - |stem| - 1];
      }
      ExtensionFound(whole, |stem|, |whole|);
      assert whole[..|stem|] == stem && whole[|stem|..] == "." + ext;
      assert stem + "-" + Numeral(n) + "" + ("." + ext) == stem + "-" + Numeral(n) + "." + ext;
    }
    if forall k :: 0 <= k < |stem| ==> stem[k] == '.' {
      forall k | |stem| <= k < |plain| ensures plain[k] != '.' {
        assert plain[k] == ext[k - |stem|];
      }
      NoExtension(plain, |stem|, |plain|);
      assert plain[..|plain|] == plain && plain[|plain|..] == "";
    }
  }

  lemma TakenCandidatesBound(name: Name, n: nat, taken: set<Name>)
    requires forall k: nat :: k < n ==> Candidate(name, k) in taken
    ensures n <= |taken|
  {
    var dot := ExtensionStart(name);
    assert forall k: nat :: Candidate(name, k) == Numbered(name[..dot], "-", "", name[dot..], k);
    TakenNamesBound(name[..dot], "-", "", name[dot..], n, taken);
  }

  /* ---------- One archiver on its own ---------- */

  /** What becomes of `shutil.move`: a rename, a finished copy, or a failure somewhere on the way. */
  datatype MoveOutcome = Renamed | Copied | RenameFails | CopyFails | UnlinkFails {
    predicate Succeeds() { Renamed? || Copied? }
  }

  class Disk {
    var files: map<Name, File>
    var sources: map<Path, nat>

    constructor (files: map<Name, File>, sources: map<Path, nat>)
      ensures this.files == files && this.sources == sources
    {
      this.files, this.sources := files, sources;
    }

    /** Stakes out the first candidate that does not exist yet. */
    method Claim(name: Name) returns (claimed: Name, ghost n: nat)
      modifies this`files
      ensures claimed == Candidate(name, n) && claimed !in old(files)
      ensures forall k: nat :: k < n ==> Candidate(name, k) in old(files)
      ensures files == old(files)[claimed := Placeholder]
    {
      var dot := ExtensionStart(name);
      var base, ext := name[..dot], name[dot..];
      claimed := name;
      n := 0;
      var number := 1;
      OwnNameComesFirst(name);
      while claimed in files
        invariant claimed == Candidate(name, n) && number == n + 1
        invariant forall k: nat :: k < n ==> Candidate(name, k) in files
        invariant files == old(files)
        decreases |files.Keys| - n
      {
        TakenCandidatesBound(name, n + 1, files.Keys);
        claimed := base + "-" + Numeral(number) + "" + ext;
        number := number + 1;
        n := n + 1;
      }
      files := files[claimed := Placeholder];
    }

    /**
     `_move_file_to_archive`. On success the file has moved to the claimed name; on failure, which a missing source
     always is, the sources are as they were and at most debris is left in the archive, under the claimed name.
     */
    method MoveToArchive(path: Path, name: Name, outcome: MoveOutcome, cleanupWorks: bool)
      returns (r: Option<Name>, ghost n: nat)
      modifies this
      ensures r.Some? <==> path in old(sources) && outcome.Succeeds()
      ensures Candidate(name, n) !in old(files) && forall k: nat :: k < n ==> Candidate(name, k) in old(files)
      ensures r.Some? ==> r.value == Candidate(name, n) && sources == old(sources) - {path}
      ensures r.Some? ==> files == old(files)[r.value := Whole(old(sources)[path])]
      ensures r.None? ==> sources == old(sources) && files - {Candidate(name, n)} == old(files)
      ensures r.None? && cleanupWorks ==> files == old(files)
    {
      var destination;
      destination, n := Claim(name);
      assert old(files) - {destination} == old(files);
      if path in sources {
        match outcome {
          case Renamed =>
            files := files[destination := Whole(sources[path])];
            sources := sources - {path};
            return Some(destination), n;
          case Copied =>
            files := files[destination := Partial];
            files := files[destination := Whole(sources[path])];
            sources := sources - {path};
            return Some(destination), n;
          case RenameFails =>
          case CopyFails =>
            files := files[destination := Partial];
          case UnlinkFails =>
            files := files[destination := Partial];
            files := files[destination := Whole(sources[path])];
        }
      }
      if cleanupWorks {
        files := files - {destination};
      }
      return None, n;
    }
  }

  /* ---------- Many archivers at once ---------- */

  datatype Job = Job(source: Path, name: Name)

  /**
   Where an archiver is: trying candidates, holding a claimed name, copying over it, or finished; one that gave up has
   removed what it left in the archive, or its cleanup has failed.
   */
  datatype Phase =
    | Claiming(n: nat)
    | Claimed(name: Name)
    | Copying(name: Name, complete: bool)
    | Failed(name: Name)
    | Done(name: Name)
    | GaveUp(name: Name, cleaned: bool)

  datatype System = System(files: map<Name, File>, sources: map<Path, nat>, phases: seq<Phase>)

  datatype Action = TryClaim | Rename | StartCopy | FinishCopy | Unlink | Fail | Cleanup(works: bool)

  /** What an archiver may do next; once its source is gone, taken by another archiver, its move can only fail. */
  predicate Enabled(jobs: seq<Job>, s: System, i: nat, action: Action)
    requires |jobs| == |s.phases|
  {
    && i < |jobs|
    && match s.phases[i]
       case Claiming(_) => action.TryClaim?
       case Claimed(_) => action.Fail? || (jobs[i].source in s.sources && (action.Rename? || action.StartCopy?))
       case Copying(_, complete) =>
         action.Fail? || (jobs[i].source in s.sources && if complete then action.Unlink? else action.FinishCopy?)
       case Failed(_) => action.Cleanup?
       case Done(_) => false
       case GaveUp(_, _) => false
  }

  /** One atomic file system operation of archiver `i`. */
  function Do(jobs: seq<Job>, s: System, i: nat, action: Action): System
    requires |jobs| == |s.phases| && Enabled(jobs, s, i, action)
  {
    var source := jobs[i].source;
    match s.phases[i]
    case Claiming(n) =>
      var name := Candidate(jobs[i].name, n);
      if name in s.files then s.(phases := s.phases[i := Claiming(n + 1)])
      else s.(files := s.files[name := Placeholder], phases := s.phases[i := Claimed(name)])
    case Claimed(name) =>
      (match action
       case Rename => System(s.files[name := Whole(s.sources[source])], s.sources - {source}, s.phases[i := Done(name)])
       case StartCopy => s.(files := s.files[name := Partial], phases := s.phases[i := Copying(name, false)])
       case _ => s.(phases := s.phases[i := Failed(name)]))
    case Copying(name, complete) =>
      (match action
       case FinishCopy => s.(files := s.files[name := Whole(s.sources[source])],
         phases := s.phases[i := Copying(name, true)])
       case Unlink => s.(sources := s.sources - {source}, phases := s.phases[i := Done(name)])
       case _ => s.(phases := s.phases[i := Failed(name)]))
    case Failed(name) =>
      var cleaned := action == Cleanup(true);
      s.(files := if cleaned then s.files - {name} else s.files, phases := s.phases[i := GaveUp(name, cleaned)])
    case _ => s
  }

  datatype Move = Move(archiver: nat, action: Action)

  function Initial(jobs: seq<Job>, files: map<Name, File>, sources: map<Path, nat>): System {
    System(files, sources, seq(|jobs|, i => Claiming(0)))
  }

  /** The system after a schedule; a move that is not possible when its turn comes is skipped. */
  function Execute(jobs: seq<Job>, files: map<Name, File>, sources: map<Path, nat>, schedule: seq<Move>): (s: System)
    ensures |s.phases| == |jobs|
  {
    if schedule == [] then Initial(jobs, files, sources)
    else
      var before := Execute(jobs, files, sources, schedule[..|schedule| - 1]);
      var move := schedule[|schedule| - 1];
      if Enabled(jobs, before, move.archiver, move.action) then Do(jobs, before, move.archiver, move.action) else before
  }

  /** The name of the archiver's file in the archive. */
  function Holds(phase: Phase): Option<Name> {
    match phase
    case Claimed(name) => Some(name)
    case Copying(name, _) => Some(name)
    case Failed(name) => Some(name)
    case Done(name) => Some(name)
    case GaveUp(name, false) => Some(name)
    case _ => None
  }

  /**
   Every file is one that was there before, unchanged, or belongs to exactly one archiver. Each content is at its source
   or, when the source is gone, archived by exactly one of the source's archivers.
   */
  ghost predicate Safe(jobs: seq<Job>, files: map<Name, File>, sources: map<Path, nat>, s: System)
    requires |s.phases| == |jobs|
  {
    NamesKept(jobs, files, s) && ContentsKept(jobs, sources, s)
  }

  ghost predicate NamesKept(jobs: seq<Job>, files: map<Name, File>, s: System)
    requires |s.phases| == |jobs|
  {
    && (forall name :: name in files ==> name in s.files && s.files[name] == files[name])
    && (forall i :: 0 <= i < |jobs| && Holds(s.phases[i]).Some? ==>
          Holds(s.phases[i]).value in s.files && Holds(s.phases[i]).value !in files)
    && (forall i, j :: 0 <= i < j < |jobs| && Holds(s.phases[i]).Some? ==> Holds(s.phases[i]) != Holds(s.phases[j]))
    && (forall name :: name in s.files && name !in files ==> HeldBySome(s, name))
  }

  ghost predicate HeldBySome(s: System, name: Name) {
    exists i :: 0 <= i < |s.phases| && Holds(s.phases[i]) == Some(name)
  }

  ghost predicate ContentsKept(jobs: seq<Job>, sources: map<Path, nat>, s: System)
    requires |s.phases| == |jobs|
  {
    && (forall i :: 0 <= i < |jobs| ==> FileMatches(jobs[i], sources, s, s.phases[i]))
    && (forall path :: path in s.sources ==> path in sources && s.sources[path] == sources[path])
    && (forall path :: path in sources && path !in s.sources ==> ArchivedBySome(jobs, s, path))
    && (forall i, j :: 0 <= i < j < |jobs| && s.phases[i].Done? && s.phases[j].Done? ==>
      jobs[i].source != jobs[j].source)
  }

  /** What an archiver's file holds: never anything whole but the content of its own source. */
  ghost predicate FileMatches(job: Job, sources: map<Path, nat>, s: System, phase: Phase) {
    match phase
    case Claiming(_) => true
    case Claimed(name) => name in s.files && s.files[name] == Placeholder
    case Copying(name, false) => name in s.files && s.files[name] == Partial
    case Copying(name, true) => name in s.files && IsOwnContent(job, sources, s.files[name])
    case Failed(name) => name in s.files && (s.files[name].Whole? ==> IsOwnContent(job, sources, s.files[name]))
    case GaveUp(name, cleaned) =>
      !cleaned ==> name in s.files && (s.files[name].Whole? ==> IsOwnContent(job, sources, s.files[name]))
    case Done(name) =>
      name in s.files && IsOwnContent(job, sources, s.files[name]) && job.source !in s.sources
  }

  ghost predicate IsOwnContent(job: Job, sources: map<Path, nat>, file: File) {
    job.source in sources && file == Whole(sources[job.source])
  }

  ghost predicate ArchivedBySome(jobs: seq<Job>, s: System, path: Path)
    requires |s.phases| == |jobs|
  {
    exists i :: 0 <= i < |jobs| && s.phases[i].Done? && jobs[i].source == path
  }

  /** A step changes at most the mover's own name and source, and a name it claims is new. */
  ghost predicate IsLocal(jobs: seq<Job>, s: System, s': System, i: nat)
    requires |s.phases| == |jobs| && i < |jobs| && |s'.phases| == |jobs|
  {
    && s'.phases == s.phases[i := s'.phases[i]] && !s.phases[i].Done?
    && (Holds(s'.phases[i]).Some? ==>
          Holds(s'.phases[i]).value in s'.files
          || (Holds(s'.phases[i]) == Holds(s.phases[i]) && s'.files == s.files))
    && (Holds(s'.phases[i]).Some? && Holds(s'.phases[i]) != Holds(s.phases[i]) ==>
      Holds(s'.phases[i]).value !in s.files)
    && (forall name :: Some(name) != Holds(s.phases[i]) && name in s.files ==>
          name in s'.files && s'.files[name] == s.files[name])
    && (forall name :: name in s'.files && name !in s.files ==> Holds(s'.phases[i]) == Some(name))
    && (forall name :: Some(name) == Holds(s.phases[i]) && name in s'.files ==> Holds(s'.phases[i]) == Some(name))
    && s'.sources == (if s'.phases[i].Done? then s.sources - {jobs[i].source} else s.sources)
    && (s'.phases[i].Done? ==> jobs[i].source in s.sources)
  }

  lemma StepIsLocal(jobs: seq<Job>, s: System, i: nat, action: Action)
    requires |s.phases| == |jobs| && Enabled(jobs, s, i, action)
    ensures |Do(jobs, s, i, action).phases| == |jobs| && IsLocal(jobs, s, Do(jobs, s, i, action), i)
  {
    hide Candidate;
  }

  lemma NamesStay(jobs: seq<Job>, files: map<Name, File>, s: System, s': System, i: nat)
    requires |s.phases| == |jobs| && i < |jobs| && |s'.phases| == |jobs| && IsLocal(jobs, s, s', i)
    requires NamesKept(jobs, files, s)
    ensures NamesKept(jobs, files, s')
  {
    forall name | name in s'.files && name !in files ensures HeldBySome(s', name) {
      if name in s.files && Holds(s.phases[i]) != Some(name) {
        var k :| 0 <= k < |jobs| && Holds(s.phases[k]) == Some(name);
        assert Holds(s'.phases[k]) == Some(name);
      } else {
        assert Holds(s'.phases[i]) == Some(name);
      }
    }
  }

  lemma FileStays(jobs: seq<Job>, files: map<Name, File>, sources: map<Path, nat>, s: System, s': System, i: nat,
      k: nat)
    requires |s.phases| == |jobs| && i < |jobs| && |s'.phases| == |jobs| && IsLocal(jobs, s, s', i)
    requires k < |jobs| && k != i && NamesKept(jobs, files, s) && FileMatches(jobs[k], sources, s, s.phases[k])
    ensures FileMatches(jobs[k], sources, s', s'.phases[k])
  {
    assert Holds(s.phases[k]).Some? ==> Holds(s.phases[k]) != Holds(s.phases[i]);
    hide NamesKept;
  }

  lemma ArchivedByOne(jobs: seq<Job>, sources: map<Path, nat>, s: System, s': System, i: nat, path: Path)
    requires |s.phases| == |jobs| && i < |jobs| && |s'.phases| == |jobs| && IsLocal(jobs, s, s', i)
    requires path !in s.sources ==> ArchivedBySome(jobs, s, path)
    requires path !in s'.sources
    ensures ArchivedBySome(jobs, s', path)
  {
    if path !in s.sources {
      var k :| 0 <= k < |jobs| && s.phases[k].Done? && jobs[k].source == path;
      assert s'.phases[k].Done?;
    } else {
      assert s'.phases[i].Done? && jobs[i].source == path;
    }
  }

  lemma ContentsStay(jobs: seq<Job>, files: map<Name, File>, sources: map<Path, nat>, s: System, s': System, i: nat)
    requires |s.phases| == |jobs| && i < |jobs| && |s'.phases| == |jobs| && IsLocal(jobs, s, s', i)
    requires NamesKept(jobs, files, s) && ContentsKept(jobs, sources, s)
    requires FileMatches(jobs[i], sources, s', s'.phases[i])
    ensures ContentsKept(jobs, sources, s')
  {
    hide NamesKept, ArchivedBySome;
    forall k | 0 <= k < |jobs| ensures FileMatches(jobs[k], sources, s', s'.phases[k]) {
      if k != i {
        FileStays(jobs, files, sources, s, s', i, k);
      }
    }
    forall path | path in sources && path !in s'.sources ensures ArchivedBySome(jobs, s', path) {
      ArchivedByOne(jobs, sources, s, s', i, path);
    }
    forall a, b | 0 <= a < b < |jobs| && s'.phases[a].Done? && s'.phases[b].Done?
      ensures jobs[a].source != jobs[b].source {
      assert FileMatches(jobs[a], sources, s, s.phases[a]) && FileMatches(jobs[b], sources, s, s.phases[b]);
    }
  }

  lemma MoverFileMatches(jobs: seq<Job>, sources: map<Path, nat>, s: System, i: nat, action: Action)
    requires |s.phases| == |jobs| && Enabled(jobs, s, i, action) && FileMatches(jobs[i], sources, s, s.phases[i])
    requires forall path :: path in s.sources ==> path in sources && s.sources[path] == sources[path]
    ensures FileMatches(jobs[i], sources, Do(jobs, s, i, action), Do(jobs, s, i, action).phases[i])
  {
    hide Candidate;
  }

  lemma StepIsSafe(jobs: seq<Job>, files: map<Name, File>, sources: map<Path, nat>, s: System, i: nat, action: Action)
    requires |s.phases| == |jobs| && Safe(jobs, files, sources, s) && Enabled(jobs, s, i, action)
    ensures Safe(jobs, files, sources, Do(jobs, s, i, action))
  {
    var s' := Do(jobs, s, i, action);
    StepIsLocal(jobs, s, i, action);
    MoverFileMatches(jobs, sources, s, i, action);
    hide Do, Enabled, IsLocal, NamesKept, FileMatches;
    NamesStay(jobs, files, s, s', i);
    ContentsStay(jobs, files, sources, s, s', i);
  }

  /**
   Whatever the interleaving, no older or archived file is overwritten or removed, no content is lost, and no two
   archivers both succeed with one source.
   */
  lemma {:induction false} EveryScheduleIsSafe(jobs: seq<Job>, files: map<Name, File>, sources: map<Path, nat>,
      schedule: seq<Move>)
    ensures Safe(jobs, files, sources, Execute(jobs, files, sources, schedule))
  {
    if schedule != [] {
      var n := |schedule| - 1;
      EveryScheduleIsSafe(jobs, files, sources, schedule[..n]);
      var before := Execute(jobs, files, sources, schedule[..n]);
      if Enabled(jobs, before, schedule[n].archiver, schedule[n].action) {
        StepIsSafe(jobs, files, sources, before, schedule[n].archiver, schedule[n].action);
      }
      hide Safe;
    }
  }

  lemma DoneIsFinal(jobs: seq<Job>, s: System, i: nat, action: Action, k: nat)
    requires |s.phases| == |jobs| && Enabled(jobs, s, i, action) && k < |jobs| && s.phases[k].Done?
    ensures Do(jobs, s, i, action).phases[k] == s.phases[k]
  {
    hide Candidate;
  }

  /** An archiver that is done takes no further step. */
  lemma {:induction false} DoneStays(jobs: seq<Job>, files: map<Name, File>, sources: map<Path, nat>,
      schedule: seq<Move>, k: nat, i: nat)
    requires k <= |schedule| && i < |jobs| && Execute(jobs, files, sources, schedule[..k]).phases[i].Done?
    ensures Execute(jobs, files, sources, schedule).phases[i] == Execute(jobs, files, sources, schedule[..k]).phases[i]
    decreases |schedule|
  {
    hide Candidate, Do, Enabled;
    var n := |schedule| - 1;
    if k <= n {
      assert schedule[..n][..k] == schedule[..k];
      DoneStays(jobs, files, sources, schedule[..n], k, i);
      var before, move := Execute(jobs, files, sources, schedule[..n]), schedule[n];
      if Enabled(jobs, before, move.archiver, move.action) {
        DoneIsFinal(jobs, before, move.archiver, move.action, i);
      }
    } else {
      assert schedule[..k] == schedule;
    }
  }

  /** Once archived, a file stays as it is for the rest of the schedule. */
  lemma ArchivedStays(jobs: seq<Job>, files: map<Name, File>, sources: map<Path, nat>, schedule: seq<Move>, k: nat,
      i: nat)
    requires k <= |schedule| && i < |jobs| && Execute(jobs, files, sources, schedule[..k]).phases[i].Done?
    ensures var then_, now := Execute(jobs, files, sources, schedule[..k]), Execute(jobs, files, sources, schedule);
      && now.phases[i] == then_.phases[i] && jobs[i].source in sources
      && now.phases[i].name in now.files && now.files[now.phases[i].name] == Whole(sources[jobs[i].source])
  {
    hide Execute, NamesKept, ArchivedBySome;
    DoneStays(jobs, files, sources, schedule, k, i);
    EveryScheduleIsSafe(jobs, files, sources, schedule);
    var now := Execute(jobs, files, sources, schedule);
    assert FileMatches(jobs[i], sources, now, now.phases[i]);
  }

  lemma OwnerOf(jobs: seq<Job>, files: map<Name, File>, sources: map<Path, nat>, s: System, name: Name) returns (i: nat)
    requires |s.phases| == |jobs| && Safe(jobs, files, sources, s)
    requires name in s.files && name !in files && s.files[name].Whole?
    ensures i < |jobs| && Holds(s.phases[i]) == Some(name) && FileMatches(jobs[i], sources, s, s.phases[i])
    ensures forall k :: 0 <= k < |jobs| && k != i ==> Holds(s.phases[k]) != Some(name)
  {
    hide FileMatches;
    assert HeldBySome(s, name);
    i :| 0 <= i < |jobs| && Holds(s.phases[i]) == Some(name);
  }

  lemma HeldWhole(job: Job, sources: map<Path, nat>, s: System, phase: Phase, name: Name)
    requires FileMatches(job, sources, s, phase) && Holds(phase) == Some(name)
    requires name in s.files && s.files[name].Whole?
    ensures IsOwnContent(job, sources, s.files[name])
    ensures phase in {Done(name), Copying(name, true), Failed(name), GaveUp(name, false)}
  {
  }

  /**
   Besides the archived file, whole copies of a content can only lie under names whose archivers have finished copying
   but not yet unlinked, have just failed, or gave up and could not clean up; each copies its archiver's own source.
   */
  lemma WholeCopiesAreOwned(jobs: seq<Job>, files: map<Name, File>, sources: map<Path, nat>, schedule: seq<Move>,
      name: Name) returns (i: nat)
    requires var s := Execute(jobs, files, sources, schedule);
      name in s.files && name !in files && s.files[name].Whole?
    ensures var s := Execute(jobs, files, sources, schedule);
      && i < |jobs| && IsOwnContent(jobs[i], sources, s.files[name])
      && s.phases[i] in {Done(name), Copying(name, true), Failed(name), GaveUp(name, false)}
      && (forall k :: 0 <= k < |jobs| && k != i ==> Holds(s.phases[k]) != Some(name))
  {
    hide *;
    EveryScheduleIsSafe(jobs, files, sources, schedule);
    var s := Execute(jobs, files, sources, schedule);
    i := OwnerOf(jobs, files, sources, s, name);
    HeldWhole(jobs[i], sources, s, s.phases[i], name);
  }

  /** Two archivers of one file: the first finishes its copy, the second takes the source, the first cannot clean up. */
  const RACE: seq<Move> := [
    Move(0, TryClaim), Move(0, StartCopy), Move(0, FinishCopy), Move(1, TryClaim), Move(1, TryClaim), Move(1, Rename),
    Move(0, Fail), Move(0, Cleanup(false))]

  function AfterRace(path: Path, name: Name, content: nat, k: nat): System
    requires k <= |RACE|
  {
    Execute([Job(path, name), Job(path, name)], map[], map[path := content], RACE[..k])
  }

  lemma RaceGoesOn(path: Path, name: Name, content: nat, k: nat)
    requires k < |RACE|
    ensures var jobs, before, move := [Job(path, name), Job(path, name)], AfterRace(path, name, content, k), RACE[k];
      Enabled(jobs, before, move.archiver, move.action) ==>
        AfterRace(path, name, content, k + 1) == Do(jobs, before, move.archiver, move.action)
  {
    assert RACE[..k + 1][..k] == RACE[..k] && RACE[..k + 1][k] == RACE[k];
    hide Enabled, Do;
  }

  lemma FirstCopies(path: Path, name: Name, content: nat)
    ensures AfterRace(path, name, content, 3) ==
      System(map[name := Whole(content)], map[path := content], [Copying(name, true), Claiming(0)])
  {
    OwnNameComesFirst(name);
    hide Candidate;
    assert AfterRace(path, name, content, 0) == System(map[], map[path := content], [Claiming(0), Claiming(0)]);
    hide AfterRace;
    RaceGoesOn(path, name, content, 0);
    RaceGoesOn(path, name, content, 1);
    RaceGoesOn(path, name, content, 2);
  }

  lemma SecondTakesSource(path: Path, name: Name, content: nat)
    ensures name != Candidate(name, 1)
    ensures AfterRace(path, name, content, 6) ==
      System(map[name := Whole(content), Candidate(name, 1) := Whole(content)], map[],
             [Copying(name, true), Done(Candidate(name, 1))])
  {
    FirstCopies(path, name, content);
    OwnNameComesFirst(name);
    hide Candidate, AfterRace;
    if Candidate(name, 1) == Candidate(name, 0) {
      CandidatesAreDistinct(name, 1, 0);
    }
    RaceGoesOn(path, name, content, 3);
    RaceGoesOn(path, name, content, 4);
    RaceGoesOn(path, name, content, 5);
  }

  /** Such a leftover can stay: after that race the archive holds the same content twice, and the source is gone. */
  lemma LeftoverCanStay(path: Path, name: Name, content: nat)
    ensures var s := Execute([Job(path, name), Job(path, name)], map[], map[path := content], RACE);
      && s.phases == [GaveUp(name, false), Done(Candidate(name, 1))] && name != Candidate(name, 1)
      && s.files == map[name := Whole(content), Candidate(name, 1) := Whole(content)]
      && path !in s.sources
  {
    SecondTakesSource(path, name, content);
    assert RACE[..|RACE|] == RACE;
    assert AfterRace(path, name, content, |RACE|) ==
      Execute([Job(path, name), Job(path, name)], map[], map[path := content], RACE);
    hide Candidate, AfterRace, Execute;
    RaceGoesOn(path, name, content, 6);
    RaceGoesOn(path, name, content, 7);
  }

  /* ---------- Claiming comes to an end ---------- */

  /** All names that any of the archivers has ever claimed. */
  function EverClaimed(phases: seq<Phase>): (r: set<Name>) {
    if phases == [] then {}
    else
      var last := phases[|phases| - 1];
      EverClaimed(phases[..|phases| - 1]) + if last.Claiming? then {} else {last.name}
  }

  lemma {:induction false} EverClaimedBound(phases: seq<Phase>)
    ensures |EverClaimed(phases)| <= |phases|
    ensures (exists i :: 0 <= i < |phases| && phases[i].Claiming?) ==> |EverClaimed(phases)| < |phases|
  {
    if phases != [] {
      EverClaimedBound(phases[..|phases| - 1]);
    }
  }

  lemma {:induction false} EverClaimedMembers(phases: seq<Phase>, name: Name)
    ensures name in EverClaimed(phases) <==>
      exists i :: 0 <= i < |phases| && !phases[i].Claiming? && phases[i].name == name
  {
    if phases != [] {
      EverClaimedMembers(phases[..|phases| - 1], name);
      assert phases == phases[..|phases| - 1] + [phases[|phases| - 1]];
    }
  }

  lemma EverClaimedGrows(phases: seq<Phase>, i: nat, phase: Phase)
    requires i < |phases| && (phases[i].Claiming? || (!phase.Claiming? && phase.name == phases[i].name))
    ensures EverClaimed(phases) <= EverClaimed(phases[i := phase])
  {
    forall name | name in EverClaimed(phases) ensures name in EverClaimed(phases[i := phase]) {
      EverClaimedMembers(phases, name);
      EverClaimedMembers(phases[i := phase], name);
      var k :| 0 <= k < |phases| && !phases[k].Claiming? && phases[k].name == name;
      assert !phases[i := phase][k].Claiming? && phases[i := phase][k].name == name;
    }
  }

  /** Every file was there at first or was claimed, and so was every name an archiver has been refused. */
  ghost predicate Explained(jobs: seq<Job>, files: map<Name, File>, s: System)
    requires |s.phases| == |jobs|
  {
    && s.files.Keys <= files.Keys + EverClaimed(s.phases)
    && (forall i :: 0 <= i < |jobs| && s.phases[i].Claiming? ==>
      Refused(jobs[i], s.phases[i].n, files.Keys + EverClaimed(s.phases)))
  }

  ghost predicate Refused(job: Job, n: nat, names: set<Name>) {
    forall k: nat :: k < n ==> Candidate(job.name, k) in names
  }

  lemma StepIsExplained(jobs: seq<Job>, files: map<Name, File>, s: System, i: nat, action: Action)
    requires |s.phases| == |jobs| && Explained(jobs, files, s) && Enabled(jobs, s, i, action)
    ensures Explained(jobs, files, Do(jobs, s, i, action))
  {
    var s' := Do(jobs, s, i, action);
    StepClaims(jobs, s, i, action);
    hide Candidate, EverClaimed, Do, Enabled;
    EverClaimedGrows(s.phases, i, s'.phases[i]);
    if !s'.phases[i].Claiming? {
      EverClaimedMembers(s'.phases, s'.phases[i].name);
    }
    var names, names' := files.Keys + EverClaimed(s.phases), files.Keys + EverClaimed(s'.phases);
    forall k | 0 <= k < |jobs| && s'.phases[k].Claiming? ensures Refused(jobs[k], s'.phases[k].n, names') {
      assert s.phases[k].Claiming? && Refused(jobs[k], s.phases[k].n, names);
    }
  }

  /** A step adds no file but the one it claims, and is refused only a name that exists. */
  lemma StepClaims(jobs: seq<Job>, s: System, i: nat, action: Action)
    requires |s.phases| == |jobs| && Enabled(jobs, s, i, action)
    ensures var s' := Do(jobs, s, i, action);
      && s'.phases == s.phases[i := s'.phases[i]]
      && (s.phases[i].Claiming? || (!s'.phases[i].Claiming? && s'.phases[i].name == s.phases[i].name))
      && (forall name :: name in s'.files ==> name in s.files || (!s'.phases[i].Claiming? && name == s'.phases[i].name))
      && (s'.phases[i].Claiming? ==> s.phases[i].Claiming? && s'.phases[i].n == s.phases[i].n + 1
                                     && Candidate(jobs[i].name, s.phases[i].n) in s.files)
  {
    hide Candidate;
  }

  lemma {:induction false} EveryScheduleIsExplained(jobs: seq<Job>, files: map<Name, File>, sources: map<Path, nat>,
      schedule: seq<Move>)
    ensures Explained(jobs, files, Execute(jobs, files, sources, schedule))
  {
    if schedule != [] {
      var n := |schedule| - 1;
      EveryScheduleIsExplained(jobs, files, sources, schedule[..n]);
      var before := Execute(jobs, files, sources, schedule[..n]);
      if Enabled(jobs, before, schedule[n].archiver, schedule[n].action) {
        StepIsExplained(jobs, files, before, schedule[n].archiver, schedule[n].action);
      }
    }
  }

  /**
   However the archivers interleave, none is ever refused more names than there were files at first and
   other archivers: each of those accounts for one name, and an archiver's candidates are all different.
   */
  lemma ClaimingIsBounded(jobs: seq<Job>, files: map<Name, File>, sources: map<Path, nat>, schedule: seq<Move>, i: nat)
    requires i < |jobs| && Execute(jobs, files, sources, schedule).phases[i].Claiming?
    ensures Execute(jobs, files, sources, schedule).phases[i].n <= |files| + |jobs| - 1
  {
    var s := Execute(jobs, files, sources, schedule);
    EveryScheduleIsExplained(jobs, files, sources, schedule);
    EverClaimedBound(s.phases);
    var names := files.Keys + EverClaimed(s.phases);
    assert Refused(jobs[i], s.phases[i].n, names);
    TakenCandidatesBound(jobs[i].name, s.phases[i].n, names);
    UnionNotLarger(files.Keys, EverClaimed(s.phases));
  }

  lemma UnionNotLarger(a: set<Name>, b: set<Name>)
    ensures |a + b| <= |a| + |b|
  {
    assert a + b == a + (b - a);
    SubsetNotLarger(b - a, b);
  }
}
