// The installer's program, step by step, with a failure possible at every file operation
// (crates/fidan-cli/src/distribution.rs).

module InstallCall {
  import opened Options
  import opened Installer

  /** Which operations fail. `tears` says that a failing metadata write leaves a torn file. */
  datatype Faults = Faults(lock: bool, write: bool, tears: bool, inspect: bool, retain: bool, publish: bool,
      restore: bool, cleanup: bool)

  const NO_FAULTS := Faults(false, false, false, false, false, false, false, false)

  /** `states` is a path of installer steps from `w` to `last`. */
  ghost predicate Path(w: World, states: seq<World>, last: World) {
    && states != [] && states[0] == w && states[|states| - 1] == last
    && forall i :: 0 <= i < |states| - 1 ==> Next(states[i], states[i + 1])
  }

  lemma PathMore(w: World, states: seq<World>, last: World, w': World, p: nat, well: bool, torn: bool)
    requires Path(w, states, last) && Step(last, w', p, well, torn)
    ensures Path(w, states + [w'], w')
  {
    hide Step;
    var more := states + [w'];
    forall i | 0 <= i < |more| - 1
      ensures Next(more[i], more[i + 1])
    {
      if i < |states| - 1 {
        assert Next(states[i], states[i + 1]);
      }
    }
  }

  lemma PathStart(w: World)
    ensures Path(w, [w], w)
  {
  }

  /** The parent directory: the destination, its backups and the lock file beside it. */
  class Destination {
    var live: Live
    var backups: map<nat, Backup>
    var lock: Option<nat>

    ghost predicate Shows(w: World)
      reads this
    {
      w.live == live && w.backups == backups && w.lock == lock
    }

    /** Nothing else beside this installer's own backup changed. */
    twostate predicate OthersKept(p: nat)
      reads this
    {
      forall q :: q != p ==> (q in backups <==> q in old(backups)) && (q in backups ==> backups[q] == old(backups)[q])
    }

    /** Takes the lock if it is free. */
    method TryLock(p: nat, fails: bool) returns (ok: bool)
      modifies this`lock
      ensures ok == (!fails && old(lock) == None)
      ensures lock == if ok then Some(p) else old(lock)
    {
      ok := !fails && lock == None;
      if ok {
        lock := Some(p);
      }
    }

    method Unlock()
      modifies this`lock
      ensures lock == None
    {
      lock := None;
    }

    /** Renames the destination to the backup path. */
    method Retain(p: nat, fails: bool) returns (ok: bool)
      requires live.Directory?
      modifies this`live, this`backups
      ensures ok == !fails
      ensures ok ==> live == Nothing && backups == old(backups)[p := Whole(old(live).dir)]
      ensures !ok ==> live == old(live) && backups == old(backups)
    {
      ok := !fails;
      if ok {
        backups := backups[p := Whole(live.dir)];
        live := Nothing;
      }
    }

    /** Renames the candidate to the destination. */
    method Replace(candidate: Dir, fails: bool) returns (ok: bool)
      requires live == Nothing
      modifies this`live
      ensures ok == !fails && live == if ok then Directory(candidate) else Nothing
    {
      ok := !fails;
      if ok {
        live := Directory(candidate);
      }
    }

    /** Renames the backup to the destination. */
    method PutBack(p: nat, fails: bool) returns (ok: bool)
      requires live == Nothing && p in backups && backups[p].Whole?
      modifies this`live, this`backups
      ensures ok == !fails
      ensures ok ==> live == Directory(old(backups)[p].dir) && backups == old(backups) - {p}
      ensures !ok ==> live == Nothing && backups == old(backups)
    {
      ok := !fails;
      if ok {
        live := Directory(backups[p].dir);
        backups := backups - {p};
      }
    }

    method DeleteBackup(p: nat, fails: bool)
      modifies this`backups
      ensures backups == if fails then old(backups)[p := PartlyDeleted] else old(backups) - {p}
    {
      backups := if fails then backups[p := PartlyDeleted] else backups - {p};
    }

    /** With the old release out of the way: publish, or put it back, or clean up after it. */
    method Swap(p: nat, finished: Dir, previous: bool, faults: Faults, ghost w: World, ghost found: Live)
      returns (outcome: Outcome, ghost states: seq<World>, ghost last: World)
      requires Shows(w) && lock == Some(p) && live == Nothing && p in w.procs
      requires w.procs[p].phase == SetAside(previous) && w.procs[p].candidate == finished
      requires if previous then found.Directory? && p in backups && backups[p] == Whole(found.dir)
          else found == Nothing && p !in backups
      modifies this
      ensures Path(w, states, last) && Shows(last)
      ensures p in last.procs && last.procs[p].phase == Over(outcome)
      ensures lock == None && outcome != Crashed
      ensures outcome == Succeeded ==> live == Directory(finished)
      ensures outcome == Failed ==> live == found && p !in backups
      ensures outcome == RetainedAtBackup ==>
          found.Directory? && live == Nothing && p in backups && backups[p] == Whole(found.dir)
      ensures outcome == RetainedAtBackup ==> faults.publish && faults.restore
      ensures !faults.publish ==> outcome == Succeeded
      ensures outcome == Succeeded && !faults.cleanup ==> p !in backups
      ensures OthersKept(p)
    {
      hide Step, Path;
      PathStart(w);
      var replaced := Replace(finished, faults.publish);
      last := PublishStep(w, p, !faults.publish);
      PathMore(w, [w], w, last, p, !faults.publish, false);
      states := [w] + [last];
      ghost var next;
      if !replaced {
        if !previous {
          Unlock();
          return Failed, states, last;
        }
        var restored := PutBack(p, faults.restore);
        next := RestoreStep(last, p, !faults.restore);
        PathMore(w, states, last, next, p, !faults.restore, false);
        Unlock();
        return if restored then Failed else RetainedAtBackup, states + [next], next;
      }
      if previous {
        DeleteBackup(p, faults.cleanup);
        next := DeleteStep(last, p, !faults.cleanup);
        PathMore(w, states, last, next, p, !faults.cleanup, false);
        states, last := states + [next], next;
      }
      next := FinishStep(last, p);
      PathMore(w, states, last, next, p, true, false);
      Unlock();
      return Succeeded, states + [next], next;
    }

    /** Takes the lock and finishes the private candidate. */
    method Begin(p: nat, usable: bool, faults: Faults, ghost w: World)
        returns (ok: bool, ghost states: seq<World>, ghost last: World)
      requires Shows(w) && p in w.procs && w.procs[p].phase == Idle && w.procs[p].usable == usable && lock != Some(p)
      modifies this`lock
      ensures Path(w, states, last) && Shows(last) && p in last.procs
      ensures ok == (!faults.lock && old(lock) == None && !faults.write && usable)
      ensures ok ==> lock == Some(p) && last.procs[p].phase == Prepared && last.procs[p].candidate == Target(w.procs[p])
      ensures !ok ==> lock == old(lock) && last.procs[p].phase == Over(Failed)
    {
      hide Step, Path;
      PathStart(w);
      var taken := TryLock(p, faults.lock);
      last := AcquireStep(w, p, !faults.lock);
      PathMore(w, [w], w, last, p, !faults.lock, false);
      states := [w] + [last];
      if !taken {
        return false, states, last;
      }
      ghost var next := PrepareStep(last, p, !faults.write, faults.tears);
      PathMore(w, states, last, next, p, !faults.write, faults.tears);
      if faults.write || !usable {
        Unlock();
      }
      return !faults.write && usable, states + [next], next;
    }

    /** Moves what is live out of the way, if there is something. */
    method MoveAside(p: nat, faults: Faults, ghost w: World)
        returns (ok: bool, previous: bool, ghost states: seq<World>, ghost last: World)
      requires Shows(w) && p in w.procs && w.procs[p].phase == Prepared && lock == Some(p) && p !in backups
      modifies this
      ensures Path(w, states, last) && Shows(last) && p in last.procs
      ensures previous == old(live).Directory?
      ensures ok == (!faults.inspect && old(live) != NotADirectory && !(previous && faults.retain))
      ensures ok ==> lock == Some(p) && live == Nothing && last.procs[p] == w.procs[p].(phase := SetAside(previous))
      ensures ok ==> backups == if previous then old(backups)[p := Whole(old(live).dir)] else old(backups)
      ensures !ok ==> lock == None && live == old(live) && backups == old(backups)
      ensures !ok ==> last.procs[p].phase == Over(Failed)
    {
      hide Step, Path, Goes, Put, Ends;
      PathStart(w);
      previous := live.Directory?;
      var goes := !faults.inspect && !(previous && faults.retain);
      last := SetAsideNext(w, p, goes);
      PathMore(w, [w], w, last, p, goes, false);
      states := [w] + [last];
      if faults.inspect || live.NotADirectory? {
        Unlock();
        return false, previous, states, last;
      }
      if previous {
        var retained := Retain(p, faults.retain);
        if !retained {
          Unlock();
          return false, previous, states, last;
        }
      }
      ok := true;
    }

    /** One call. Its effect on the directories is a path of installer steps; the lock is given back;
        success means that the candidate is live with its metadata, an error that the old release is, or that it
        is whole at the backup path; and without faults a usable candidate is installed. */
    method Materialize(p: nat, candidate: Dir, usable: bool, metadata: Option<string>, faults: Faults, ghost w: World)
      returns (outcome: Outcome, ghost states: seq<World>, ghost last: World)
      requires Shows(w) && p in w.procs && w.procs[p] == Proc(Idle, candidate, usable, metadata, w.procs[p].found)
      requires lock != Some(p) && p !in backups
      modifies this
      ensures Path(w, states, last) && Shows(last)
      ensures p in last.procs && last.procs[p].phase == Over(outcome)
      ensures lock == old(lock) && outcome != Crashed
      ensures outcome == Succeeded ==> live.Directory? && live.dir.archive == candidate.archive
      ensures outcome == Succeeded && metadata.Some? ==> live.dir.metadata == Bytes(metadata.value)
      ensures outcome == Succeeded && metadata.None? ==> live.dir.metadata == candidate.metadata
      ensures outcome == Succeeded && !faults.cleanup ==> p !in backups
      ensures outcome == Failed ==> live == old(live) && p !in backups
      ensures outcome == RetainedAtBackup ==>
                old(live).Directory? && live == Nothing && p in backups && backups[p] == Whole(old(live).dir)
      ensures outcome == RetainedAtBackup ==> faults.publish && faults.restore
      ensures faults == NO_FAULTS && usable && old(lock) == None && old(live) != NotADirectory ==> outcome == Succeeded
      ensures OthersKept(p)
    {
      hide Step, Path, Goes, Put, Ends;
      var begun;
      begun, states, last := Begin(p, usable, faults, w);
      if !begun {
        return Failed, states, last;
      }
      var finished := if metadata.Some? then candidate.(metadata := Bytes(metadata.value)) else candidate;
      var clear, previous;
      ghost var moved, ready;
      clear, previous, moved, ready := MoveAside(p, faults, last);
      states := Joined(w, states, last, moved, ready);
      if !clear {
        return Failed, states, ready;
      }
      ghost var rest, end;
      outcome, rest, end := Swap(p, finished, previous, faults, ready, old(live));
      ghost var all := Joined(w, states, ready, rest, end);
      return outcome, all, end;
    }
  }

  lemma Joined(w: World, states: seq<World>, middle: World, rest: seq<World>, last: World) returns (all: seq<World>)
    requires Path(w, states, middle) && Path(middle, rest, last)
    ensures Path(w, all, last)
  {
    all := states + rest[1..];
    forall i | 0 <= i < |all| - 1
      ensures Next(all[i], all[i + 1])
    {
      if i >= |states| - 1 {
        assert Next(rest[i - |states| + 1], rest[i - |states| + 1 + 1]);
      } else {
        assert Next(states[i], states[i + 1]);
      }
    }
  }

  // ----- the steps, as worlds -----

  lemma AcquireStep(w: World, p: nat, well: bool) returns (w': World)
    requires p in w.procs && w.procs[p].phase == Idle && w.lock != Some(p)
    ensures Step(w, w', p, well, false)
    ensures w' == if well && w.lock == None
                  then Put(w, p, w.procs[p].(phase := Locked, found := w.live)).(lock := Some(p))
                  else Goes(w, p, Over(Failed))
  {
    w' := if well && w.lock == None
          then Put(w, p, w.procs[p].(phase := Locked, found := w.live)).(lock := Some(p))
          else Ends(w, p, Failed);
    assert Acquire(w, w', p, well);
  }

  lemma PrepareStep(w: World, p: nat, well: bool, torn: bool) returns (w': World)
    requires p in w.procs && w.procs[p].phase == Locked && w.lock == Some(p)
    ensures Step(w, w', p, well, torn)
    ensures w'.live == w.live && w'.backups == w.backups && p in w'.procs
    ensures if well && w.procs[p].usable
            then w'.lock == w.lock && w'.procs[p] == w.procs[p].(phase := Prepared, candidate := Target(w.procs[p]))
            else w'.lock == None && w'.procs[p].phase == Over(Failed)
  {
    var proc := w.procs[p];
    w' := if well && proc.usable
          then Put(w, p, proc.(phase := Prepared, candidate := Target(proc)))
          else Ends(Put(w, p, if torn then proc.(candidate := proc.candidate.(metadata := Torn)) else proc), p, Failed);
    assert Prepare(w, w', p, well, torn);
  }

  lemma SetAsideNext(w: World, p: nat, well: bool) returns (w': World)
    requires p in w.procs && w.procs[p].phase == Prepared && w.lock == Some(p)
    ensures Step(w, w', p, well, false)
    ensures p in w'.procs
    ensures well && !w.live.NotADirectory? ==>
              && w'.live == Nothing && w'.lock == w.lock &&
                  w'.procs[p] == w.procs[p].(phase := SetAside(w.live.Directory?))
              && w'.backups == if w.live.Directory? then w.backups[p := Whole(w.live.dir)] else w.backups
    ensures !well || w.live.NotADirectory? ==>
              w'.live == w.live && w'.backups == w.backups && w'.lock == None && w'.procs[p].phase == Over(Failed)
  {
    w' := if well && w.live.Directory?
          then Goes(w, p, SetAside(true)).(live := Nothing, backups := w.backups[p := Whole(w.live.dir)])
          else if well && w.live.Nothing? then Goes(w, p, SetAside(false))
          else Ends(w, p, Failed);
    assert SetAsideStep(w, w', p, well);
  }

  lemma PublishStep(w: World, p: nat, well: bool) returns (w': World)
    requires p in w.procs && w.procs[p].phase.SetAside? && w.lock == Some(p)
    ensures Step(w, w', p, well, false)
    ensures p in w'.procs && w'.backups == w.backups
    ensures well ==>
        w'.live == Directory(w.procs[p].candidate) && w'.lock == w.lock &&
        w'.procs[p] == w.procs[p].(phase := Published(w.procs[p].phase.previous))
    ensures !well ==> w'.live == w.live
    ensures !well && w.procs[p].phase.previous ==> w'.lock == w.lock && w'.procs[p] == w.procs[p].(phase := Restoring)
    ensures !well && !w.procs[p].phase.previous ==> w'.lock == None && w'.procs[p].phase == Over(Failed)
  {
    w' := if well
          then Goes(w, p, Published(w.procs[p].phase.previous)).(live := Directory(w.procs[p].candidate),
              current := Some(w.procs[p].candidate))
          else if w.procs[p].phase.previous then Goes(w, p, Restoring)
          else Ends(w, p, Failed);
    assert Publish(w, w', p, well);
  }

  lemma RestoreStep(w: World, p: nat, well: bool) returns (w': World)
    requires p in w.procs && w.procs[p].phase == Restoring && w.lock == Some(p)
    requires p in w.backups && w.backups[p].Whole?
    ensures Step(w, w', p, well, false)
    ensures p in w'.procs && w'.lock == None
    ensures well ==>
        w'.live == Directory(w.backups[p].dir) && w'.backups == w.backups - {p} && w'.procs[p].phase == Over(Failed)
    ensures !well ==> w'.live == w.live && w'.backups == w.backups && w'.procs[p].phase == Over(RetainedAtBackup)
  {
    w' := if well
          then Ends(w, p, Failed).(live := Directory(w.backups[p].dir), backups := w.backups - {p})
          else Ends(w, p, RetainedAtBackup);
    assert Restore(w, w', p, well);
  }

  lemma DeleteStep(w: World, p: nat, well: bool) returns (w': World)
    requires p in w.procs && w.procs[p].phase == Published(true) && w.lock == Some(p)
    ensures Step(w, w', p, well, false)
    ensures p in w'.procs && w'.live == w.live && w'.lock == w.lock && w'.procs[p].phase == Published(false)
    ensures w'.backups == if well then w.backups - {p} else w.backups[p := PartlyDeleted]
  {
    w' := if well then Goes(w, p, Published(false)).(backups := w.backups - {p})
          else Goes(w, p, Published(false)).(backups := w.backups[p := PartlyDeleted]);
    assert Delete(w, w', p, well);
  }

  lemma FinishStep(w: World, p: nat) returns (w': World)
    requires p in w.procs && w.procs[p].phase == Published(false) && w.lock == Some(p)
    ensures Step(w, w', p, true, false)
    ensures p in w'.procs && w'.live == w.live && w'.backups == w.backups && w'.lock == None &&
        w'.procs[p].phase == Over(Succeeded)
  {
    w' := Ends(w, p, Succeeded);
    assert Finish(w, w', p);
  }
}
