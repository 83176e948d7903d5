// Installing a prepared release: directories swapped by renames under an advisory lock, with rollback
// (crates/fidan-cli/src/distribution.rs).

module Installer {
  import opened Options

  /** What a release directory's metadata file holds; a failed write can leave it torn. */
  datatype Metadata = Absent | Bytes(bytes: string) | Torn

  /** A directory: an unpacked archive, identified by a number, and its metadata. */
  datatype Dir = Dir(archive: nat, metadata: Metadata)

  /** The destination path. */
  datatype Live = Nothing | Directory(dir: Dir) | NotADirectory

  /** A retained previous release; deleting it can stop halfway. */
  datatype Backup = Whole(dir: Dir) | PartlyDeleted

  datatype Outcome = Succeeded | Failed | RetainedAtBackup | Crashed

  datatype Phase =
    | Idle
    | Locked
    | Prepared
    | SetAside(previous: bool)
    | Restoring
    | Published(previous: bool)
    | Over(outcome: Outcome)

  /** One installer. `candidate` is its private staging copy, `metadata` what it has to add, `found` what
      was live when it took the lock. */
  datatype Proc = Proc(phase: Phase, candidate: Dir, usable: bool, metadata: Option<string>, found: Live)

  /** `current` is the release last live or published; `backups` are named after the installer that made
      them. */
  datatype World = World(live: Live, backups: map<nat, Backup>, lock: Option<nat>, procs: map<nat, Proc>,
      current: Option<Dir>)

  /** The release an installer means to publish. */
  function Target(proc: Proc): Dir {
    if proc.metadata.Some? then proc.candidate.(metadata := Bytes(proc.metadata.value)) else proc.candidate
  }

  predicate Holding(phase: Phase) {
    !phase.Idle? && !phase.Over?
  }

  function Put(w: World, p: nat, proc: Proc): World {
    w.(procs := w.procs[p := proc])
  }

  function Goes(w: World, p: nat, phase: Phase): World
    requires p in w.procs
  {
    Put(w, p, w.procs[p].(phase := phase))
  }

  /** Returning or dying gives the lock back. */
  function Ends(w: World, p: nat, outcome: Outcome): World
    requires p in w.procs
  {
    Goes(w, p, Over(outcome)).(lock := if w.lock == Some(p) then None else w.lock)
  }

  // ----- steps; each can go well or fail -----

  ghost predicate Acquire(w: World, w': World, p: nat, well: bool) {
    && p in w.procs && w.procs[p].phase == Idle
    && w' == if well && w.lock == None
             then Put(w, p, w.procs[p].(phase := Locked, found := w.live)).(lock := Some(p))
             else Ends(w, p, Failed)
  }

  /** The candidate is checked and completed while it is still private. */
  ghost predicate Prepare(w: World, w': World, p: nat, well: bool, torn: bool) {
    && p in w.procs && w.procs[p].phase == Locked
    && var proc := w.procs[p];
       w' == if well && proc.usable
             then Put(w, p, proc.(phase := Prepared, candidate := Target(proc)))
             else Ends(Put(w, p, if torn then proc.(candidate := proc.candidate.(metadata := Torn)) else proc), p,
                 Failed)
  }

  /** A previous release is moved out of the way. */
  ghost predicate SetAsideStep(w: World, w': World, p: nat, well: bool) {
    && p in w.procs && w.procs[p].phase == Prepared
    && w' == if well && w.live.Directory?
             then Goes(w, p, SetAside(true)).(live := Nothing, backups := w.backups[p := Whole(w.live.dir)])
             else if well && w.live.Nothing? then Goes(w, p, SetAside(false))
             else Ends(w, p, Failed)
  }

  ghost predicate Publish(w: World, w': World, p: nat, well: bool) {
    && p in w.procs && w.procs[p].phase.SetAside?
    && w' == if well
             then Goes(w, p, Published(w.procs[p].phase.previous))
                    .(live := Directory(w.procs[p].candidate), current := Some(w.procs[p].candidate))
             else if w.procs[p].phase.previous then Goes(w, p, Restoring)
             else Ends(w, p, Failed)
  }

  ghost predicate Restore(w: World, w': World, p: nat, well: bool) {
    && p in w.procs && w.procs[p].phase == Restoring
    && w' == if well && p in w.backups && w.backups[p].Whole?
             then Ends(w, p, Failed).(live := Directory(w.backups[p].dir), backups := w.backups - {p})
             else Ends(w, p, RetainedAtBackup)
  }

  /** The backup is deleted file by file; what is left of it does not matter any more. */
  ghost predicate Delete(w: World, w': World, p: nat, well: bool) {
    && p in w.procs && w.procs[p].phase == Published(true)
    && w' == if well then Goes(w, p, Published(false)).(backups := w.backups - {p})
             else Goes(w, p, Published(false)).(backups := w.backups[p := PartlyDeleted])
  }

  ghost predicate Finish(w: World, w': World, p: nat) {
    && p in w.procs && w.procs[p].phase == Published(false)
    && w' == Ends(w, p, Succeeded)
  }

  ghost predicate Crash(w: World, w': World, p: nat) {
    && p in w.procs && !w.procs[p].phase.Over?
    && w' == Ends(w, p, Crashed)
  }

  ghost predicate Step(w: World, w': World, p: nat, well: bool, torn: bool) {
    || Acquire(w, w', p, well) || Prepare(w, w', p, well, torn) || SetAsideStep(w, w', p, well)
    || Publish(w, w', p, well) || Restore(w, w', p, well) || Delete(w, w', p, well)
    || Finish(w, w', p) || Crash(w, w', p)
  }

  ghost predicate Next(w: World, w': World) {
    exists p, well, torn :: Step(w, w', p, well, torn)
  }

  // ----- what every state satisfies -----

  /** The directories that may ever be live: the first one, and each installer's finished candidate. */
  type Releases = set<Dir>

  ghost predicate Initial(w: World, releases: Releases) {
    && w.lock == None && w.backups == map[]
    && (w.live.Directory? ==> w.current == Some(w.live.dir) && w.live.dir in releases)
    && (!w.live.Directory? ==> w.current == None)
    && forall p :: p in w.procs ==> w.procs[p].phase == Idle && (w.procs[p].usable ==> Target(w.procs[p]) in releases)
  }

  /** What was found live is whole at this installer's backup path, and is still the release in force. */
  ghost predicate KeptBack(w: World, releases: Releases, p: nat, found: Live) {
    found.Directory? && found.dir in releases && p in w.backups && w.backups[p] == Whole(found.dir) &&
        w.current == Some(found.dir)
  }

  /** What an installer in this phase relies on. */
  ghost predicate ProcOk(w: World, releases: Releases, p: nat)
    requires p in w.procs
  {
    var proc := w.procs[p];
    && (Holding(proc.phase) <==> w.lock == Some(p))
    && (proc.phase in {Idle, Locked} && proc.usable ==> Target(proc) in releases)
    && (proc.phase in {Idle, Locked, Prepared} ==> p !in w.backups)
    && (proc.phase in {Locked, Prepared} ==> w.live == proc.found)
    && (proc.phase.Prepared? || proc.phase.SetAside? || proc.phase.Published? ==> proc.candidate in releases)
    && (proc.phase.SetAside? ==>
          w.live == Nothing && if proc.phase.previous then KeptBack(w, releases, p, proc.found)
              else proc.found == Nothing)
    && (proc.phase.Restoring? ==> w.live == Nothing && KeptBack(w, releases, p, proc.found))
    && (proc.phase.Published? ==> w.live == Directory(proc.candidate) && w.current == Some(proc.candidate))
  }

  /** The release last published is live, or kept whole at a backup path. */
  ghost predicate Safe(w: World) {
    w.current.Some? ==>
      || w.live == Directory(w.current.value)
      || (w.live == Nothing && exists p :: p in w.backups && w.backups[p] == Whole(w.current.value))
  }

  ghost predicate Inv(w: World, releases: Releases) {
    && (w.live.Directory? ==> w.live.dir in releases && w.current == Some(w.live.dir))
    && Safe(w)
    && (w.lock.Some? ==> w.lock.value in w.procs)
    && (forall p :: p in w.procs ==> ProcOk(w, releases, p))
  }

  lemma InitialHolds(w: World, releases: Releases)
    requires Initial(w, releases)
    ensures Inv(w, releases)
  {
  }

  /** Installers that do not hold the lock rely on nothing shared. */
  lemma IdleKeeps(w: World, w': World, releases: Releases, q: nat)
    requires q in w.procs && q in w'.procs && w'.procs[q] == w.procs[q]
    requires ProcOk(w, releases, q) && !Holding(w.procs[q].phase)
    requires w'.lock != Some(q) && (q in w'.backups ==> q in w.backups)
    ensures ProcOk(w', releases, q)
  {
  }

  /** A step that only changes installer `p` and perhaps frees or takes the lock for it. */
  lemma LocalStep(w: World, w': World, releases: Releases, p: nat)
    requires Inv(w, releases) && p in w.procs && p in w'.procs && ProcOk(w', releases, p)
    requires w'.live == w.live && w'.backups == w.backups && w'.current == w.current
    requires w'.lock == w.lock || (w.lock in {None, Some(p)} && w'.lock in {None, Some(p)})
    requires w'.procs == w.procs[p := w'.procs[p]]
    ensures Inv(w', releases)
  {
    forall q | q in w'.procs && q != p
      ensures ProcOk(w', releases, q)
    {
      assert ProcOk(w, releases, q);
    }
  }

  /** A step of the lock holder on the shared directories. */
  lemma HolderStep(w: World, w': World, releases: Releases, p: nat)
    requires Inv(w, releases) && p in w.procs && w.lock == Some(p) && p in w'.procs && ProcOk(w', releases, p)
    requires w'.lock in {None, Some(p)} && w'.procs == w.procs[p := w'.procs[p]]
    requires forall q :: q != p && q in w'.backups ==> q in w.backups
    requires Safe(w') && (w'.live.Directory? ==> w'.live.dir in releases && w'.current == Some(w'.live.dir))
    ensures Inv(w', releases)
  {
    hide Safe;
    forall q | q in w'.procs && q != p
      ensures ProcOk(w', releases, q)
    {
      assert ProcOk(w, releases, q);
      IdleKeeps(w, w', releases, q);
    }
  }

  lemma SetAsideKeeps(w: World, w': World, releases: Releases, p: nat, well: bool)
    requires Inv(w, releases) && SetAsideStep(w, w', p, well)
    ensures Inv(w', releases)
  {
    assert ProcOk(w, releases, p);
    if w'.live == w.live {
      LocalStep(w, w', releases, p);
    } else {
      assert w'.backups[p] == Whole(w.current.value);
      HolderStep(w, w', releases, p);
    }
  }

  lemma PublishKeeps(w: World, w': World, releases: Releases, p: nat, well: bool)
    requires Inv(w, releases) && Publish(w, w', p, well)
    ensures Inv(w', releases)
  {
    assert ProcOk(w, releases, p);
    if w'.live == w.live {
      LocalStep(w, w', releases, p);
    } else {
      HolderStep(w, w', releases, p);
    }
  }

  lemma RestoreKeeps(w: World, w': World, releases: Releases, p: nat, well: bool)
    requires Inv(w, releases) && Restore(w, w', p, well)
    ensures Inv(w', releases)
  {
    assert ProcOk(w, releases, p);
    if w'.live == w.live {
      LocalStep(w, w', releases, p);
    } else {
      HolderStep(w, w', releases, p);
    }
  }

  lemma DeleteKeeps(w: World, w': World, releases: Releases, p: nat, well: bool)
    requires Inv(w, releases) && Delete(w, w', p, well)
    ensures Inv(w', releases)
  {
    assert ProcOk(w, releases, p);
    HolderStep(w, w', releases, p);
  }

  lemma StepKeeps(w: World, w': World, releases: Releases, p: nat, well: bool, torn: bool)
    requires Inv(w, releases) && Step(w, w', p, well, torn)
    ensures Inv(w', releases)
  {
    if SetAsideStep(w, w', p, well) {
      SetAsideKeeps(w, w', releases, p, well);
    } else if Publish(w, w', p, well) {
      PublishKeeps(w, w', releases, p, well);
    } else if Restore(w, w', p, well) {
      RestoreKeeps(w, w', releases, p, well);
    } else if Delete(w, w', p, well) {
      DeleteKeeps(w, w', releases, p, well);
    } else {
      assert ProcOk(w, releases, p);
      LocalStep(w, w', releases, p);
    }
  }

  // ----- whole runs -----

  ghost predicate Run(run: seq<World>, releases: Releases) {
    && run != [] && Initial(run[0], releases)
    && forall i :: 0 <= i < |run| - 1 ==> Next(run[i], run[i + 1])
  }

  lemma {:induction false} RunKeeps(run: seq<World>, releases: Releases, i: nat)
    requires Run(run, releases) && i < |run|
    ensures Inv(run[i], releases)
  {
    hide Inv, Initial, Step;
    if i == 0 {
      InitialHolds(run[0], releases);
    } else {
      RunKeeps(run, releases, i - 1);
      assert Next(run[i - 1], run[i - 1 + 1]);
      var p, well, torn :| Step(run[i - 1], run[i], p, well, torn);
      StepKeeps(run[i - 1], run[i], releases, p, well, torn);
    }
  }

  // ----- where what is live comes from -----

  /** `d` is this installer's usable candidate with what it had to add: the archive as unpacked, the given
      metadata in place of any it came with, and its own where none is given. */
  ghost predicate Completes(first: Proc, d: Dir) {
    && first.usable
    && d.archive == first.candidate.archive
    && (first.metadata.Some? ==> d.metadata == Bytes(first.metadata.value))
    && (first.metadata.None? ==> d.metadata == first.candidate.metadata)
  }

  /** The directory live in the first state, or some installer's completed candidate. */
  ghost predicate ComesFrom(first: World, d: Dir) {
    first.live == Directory(d) || exists p :: p in first.procs && Completes(first.procs[p], d)
  }

  /** What an installer that was `first` holds as its candidate. */
  ghost predicate Holds(first: Proc, now: Proc) {
    && now.usable == first.usable && now.metadata == first.metadata
    && (now.phase in {Idle, Locked} ==> now.candidate == first.candidate)
    && (now.phase in {Prepared, Restoring, Over(Succeeded)} || now.phase.SetAside? || now.phase.Published? ==>
          Completes(first, now.candidate))
  }

  ghost predicate Traced(first: World, w: World) {
    && w.procs.Keys == first.procs.Keys
    && (forall p :: p in w.procs ==> Holds(first.procs[p], w.procs[p]))
    && (w.live.Directory? ==> ComesFrom(first, w.live.dir))
    && forall p :: p in w.backups && w.backups[p].Whole? ==> ComesFrom(first, w.backups[p].dir)
  }

  /** A step changes one installer and moves directories about. */
  lemma MovesTrace(first: World, w: World, w': World, p: nat)
    requires Traced(first, w) && p in w.procs && p in w'.procs && Holds(first.procs[p], w'.procs[p])
    requires w'.procs == w.procs[p := w'.procs[p]]
    requires w'.live in {w.live, Nothing} || (w'.live.Directory? && ComesFrom(first, w'.live.dir))
    requires forall q :: q in w'.backups && w'.backups[q].Whole? ==>
        (q in w.backups && w'.backups[q] == w.backups[q]) || ComesFrom(first, w'.backups[q].dir)
    ensures Traced(first, w')
  {
    hide ComesFrom;
  }

  lemma PublishTraces(first: World, w: World, w': World, p: nat, well: bool)
    requires Traced(first, w) && Publish(w, w', p, well)
    ensures Traced(first, w')
  {
    assert Holds(first.procs[p], w.procs[p]);
    assert Completes(first.procs[p], w.procs[p].candidate);
    MovesTrace(first, w, w', p);
  }

  lemma MoveTraces(first: World, w: World, w': World, p: nat, well: bool)
    requires Traced(first, w)
    requires SetAsideStep(w, w', p, well) || Restore(w, w', p, well) || Delete(w, w', p, well)
    ensures Traced(first, w')
  {
    hide ComesFrom;
    assert Holds(first.procs[p], w.procs[p]);
    MovesTrace(first, w, w', p);
  }

  lemma BeginTraces(first: World, w: World, w': World, p: nat, well: bool, torn: bool)
    requires Traced(first, w)
    requires Acquire(w, w', p, well) || Prepare(w, w', p, well, torn)
    ensures Traced(first, w')
  {
    hide ComesFrom;
    assert Holds(first.procs[p], w.procs[p]);
    MovesTrace(first, w, w', p);
  }

  lemma StepTraces(first: World, w: World, w': World, p: nat, well: bool, torn: bool)
    requires Traced(first, w) && Step(w, w', p, well, torn)
    ensures Traced(first, w')
  {
    hide ComesFrom, Acquire, Prepare, Publish, SetAsideStep, Restore, Delete;
    if Publish(w, w', p, well) {
      PublishTraces(first, w, w', p, well);
    } else if Acquire(w, w', p, well) || Prepare(w, w', p, well, torn) {
      BeginTraces(first, w, w', p, well, torn);
    } else if SetAsideStep(w, w', p, well) || Restore(w, w', p, well) || Delete(w, w', p, well) {
      MoveTraces(first, w, w', p, well);
    } else {
      assert Holds(first.procs[p], w.procs[p]);
      MovesTrace(first, w, w', p);
    }
  }

  lemma {:induction false} RunTraces(run: seq<World>, releases: Releases, i: nat)
    requires Run(run, releases) && i < |run|
    ensures Traced(run[0], run[i])
  {
    hide Step;
    if i > 0 {
      RunTraces(run, releases, i - 1);
      assert Next(run[i - 1], run[i - 1 + 1]);
      var p, well, torn :| Step(run[i - 1], run[i], p, well, torn);
      StepTraces(run[0], run[i - 1], run[i], p, well, torn);
    }
  }

  /** What an installer has published, in any run, is its own usable candidate, with the archive it unpacked and
      exactly the metadata it was given. */
  lemma PublishedIsComplete(run: seq<World>, releases: Releases, i: nat, p: nat)
    requires Run(run, releases) && i < |run| && p in run[i].procs
    requires run[i].procs[p].phase.Published?
    ensures p in run[0].procs && run[0].procs[p].usable && run[i].live.Directory?
    ensures run[i].live.dir.archive == run[0].procs[p].candidate.archive
    ensures match run[0].procs[p].metadata
            case Some(m) => run[i].live.dir.metadata == Bytes(m)
            case None => run[i].live.dir.metadata == run[0].procs[p].candidate.metadata
  {
    RunKeeps(run, releases, i);
    assert ProcOk(run[i], releases, p);
    RunTraces(run, releases, i);
    assert Holds(run[0].procs[p], run[i].procs[p]);
  }

  /** With any number of installers, and a failure or crash possible at every step: what is live is the
      first directory or one installer's candidate with its metadata, or nothing; and the release last
      published is live or kept whole at a backup path. */
  lemma LiveIsWhole(run: seq<World>, releases: Releases, i: nat)
    requires Run(run, releases) && i < |run|
    ensures run[i].live.Directory? ==>
              || run[i].live == run[0].live
              || exists p :: p in run[0].procs && run[0].procs[p].usable &&
                   run[i].live.dir == Dir(run[0].procs[p].candidate.archive,
                       match run[0].procs[p].metadata
                       case Some(m) => Bytes(m)
                       case None => run[0].procs[p].candidate.metadata)
    ensures run[i].live.Directory? ==> run[i].live.dir in releases && run[i].current == Some(run[i].live.dir)
    ensures run[i].current.Some? ==>
              || run[i].live == Directory(run[i].current.value)
              || exists p :: p in run[i].backups && run[i].backups[p] == Whole(run[i].current.value)
  {
    RunKeeps(run, releases, i);
    RunTraces(run, releases, i);
    if run[i].live.Directory? && run[i].live != run[0].live {
      var p :| p in run[0].procs && Completes(run[0].procs[p], run[i].live.dir);
    }
  }

  /** At most one installer is between taking the lock and returning. */
  lemma OneInstaller(run: seq<World>, releases: Releases, i: nat, p: nat, q: nat)
    requires Run(run, releases) && i < |run| && p in run[i].procs && q in run[i].procs
    requires Holding(run[i].procs[p].phase) && Holding(run[i].procs[q].phase)
    ensures p == q
  {
    RunKeeps(run, releases, i);
    assert ProcOk(run[i], releases, p) && ProcOk(run[i], releases, q);
  }

  /** What is true where a call ends this way. */
  ghost predicate EndsWell(w: World, w': World, releases: Releases, p: nat)
    requires p in w.procs && p in w'.procs && w'.procs[p].phase.Over?
  {
    var before := w.procs[p];
    match w'.procs[p].phase.outcome
    case Succeeded => w'.live == Directory(before.candidate) && before.candidate in releases
    case Failed => w'.live == if before.phase == Idle then w.live else before.found
    case RetainedAtBackup => before.found.Directory? && p in w'.backups && w'.backups[p] == Whole(before.found.dir)
    case Crashed => w'.live == w.live && w'.backups == w.backups
  }

  lemma OwnStep(w: World, w': World, q: nat, well: bool, torn: bool, p: nat)
    requires Step(w, w', q, well, torn)
    requires p in w.procs && !w.procs[p].phase.Over? && p in w'.procs && w'.procs[p].phase.Over?
    ensures q == p
  {
  }

  /** Ends after the old release was set aside. */
  lemma LateEnds(w: World, w': World, releases: Releases, p: nat, well: bool)
    requires p in w.procs && ProcOk(w, releases, p) && !w.procs[p].phase.Over? && p in w'.procs &&
        w'.procs[p].phase.Over?
    requires Publish(w, w', p, well) || Restore(w, w', p, well) || Finish(w, w', p)
    ensures EndsWell(w, w', releases, p)
  {
  }

  lemma StepEnds(w: World, w': World, releases: Releases, q: nat, well: bool, torn: bool, p: nat)
    requires Inv(w, releases) && Step(w, w', q, well, torn)
    requires p in w.procs && !w.procs[p].phase.Over? && p in w'.procs && w'.procs[p].phase.Over?
    ensures EndsWell(w, w', releases, p)
  {
    hide Safe, Publish, Restore, Finish;
    OwnStep(w, w', q, well, torn, p);
    assert ProcOk(w, releases, p);
    if Publish(w, w', p, well) || Restore(w, w', p, well) || Finish(w, w', p) {
      LateEnds(w, w', releases, p, well);
    }
  }

  /** How a call can end. Success leaves this installer's finished candidate live. An error leaves live
      what the installer found, unless putting it back failed, and then it is whole at the backup path. A
      refused lock changes nothing, and neither does a crash by itself. */
  lemma CallEnds(run: seq<World>, releases: Releases, i: nat, p: nat)
    requires Run(run, releases) && i + 1 < |run|
    requires p in run[i].procs && !run[i].procs[p].phase.Over?
    requires p in run[i + 1].procs && run[i + 1].procs[p].phase.Over?
    ensures EndsWell(run[i], run[i + 1], releases, p)
  {
    hide Step, Inv, EndsWell, Initial;
    RunKeeps(run, releases, i);
    assert Next(run[i], run[i + 1]);
    var q, well, torn :| Step(run[i], run[i + 1], q, well, torn);
    StepEnds(run[i], run[i + 1], releases, q, well, torn, p);
  }
}
