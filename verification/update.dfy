/** Self-update: two containers, three database files, and a rollback that any call may cut short. */
module SelfUpdate {
  import opened Wrappers

  /** How a call to Docker went; one that times out may have taken effect all the same. */
  datatype Outcome = Done | Failed | FailedAfter {
    predicate Effective() {
      !Failed?
    }
  }

  /** How a call on a file went; a copy cut short leaves part of the file behind. */
  datatype FileOutcome = Fine | Refused | Torn(part: string)

  /** One look at the new container. */
  datatype Poll = Unknown | Exited | Unwell | Healthy

  datatype Cause = CannotReplace | CannotSnapshot | CannotStart | NewExited | NoAnswer

  /** The errors of a failed update: why it failed, and which steps of the rollback did not work. */
  datatype Failure = Failure(cause: Cause, discard: bool, restoreDb: bool, restore: bool) {
    predicate Recovered() {
      !discard && !restoreDb && !restore
    }

    /** The new container is gone, and the old one has its name and state back. */
    predicate OldIsBack() {
      !discard && !restore
    }
  }

  /** The database, its write-ahead log and its index: 0, 1 and 2. A missing key is a missing file. */
  type Files = map<nat, string>

  const FILES: nat := 3

  predicate IsDb(f: Files) {
    forall i | i in f :: i < FILES
  }

  /** Every file there is comes unchanged from one of the two. */
  ghost predicate FromEither(f: Files, a: Files, b: Files) {
    forall i | i in f :: (i in a && f[i] == a[i]) || (i in b && f[i] == b[i])
  }

  datatype Name = Own | Previous

  datatype Panel = Panel(name: Name, running: bool)

  /** Everything that happens around one update and that the updater does not decide. */
  datatype Script = Script(
    inspect: bool,
    rename: Outcome,
    stop: Outcome,
    copies: seq<FileOutcome>,
    create: Outcome,
    start: Outcome,
    polls: seq<Poll>,
    removeOld: Outcome,
    removeNew: Outcome,
    moves: seq<FileOutcome>,
    drops: seq<FileOutcome>,
    renameBack: Outcome,
    startBack: Outcome,
    report: bool,
    oldWrites: Files,  // the database as the old panel leaves it when it stops
    newWrites: Files   // and as the new version leaves it when it goes
  ) {
    /** Every step of a rollback works. */
    predicate UndoWorks() {
      removeNew.Done? && renameBack.Done? && startBack.Done? && MovesWork()
    }

    predicate DropsWork() {
      forall f | f in drops :: f.Fine?
    }

    predicate MovesWork() {
      forall f | f in moves :: f.Fine?
    }

    predicate Valid() {
      |copies| == FILES && |moves| == FILES && |drops| == FILES && IsDb(oldWrites) && IsDb(newWrites)
    }
  }

  /** The machine: both containers and the data directory. */
  class Host {
    var previous: Option<Panel>
    var next: Option<Panel>
    var db: Files
    var snapshot: Files
    /** What the last result file says: a failure, or that there was none. */
    var report: Option<Option<Failure>>
    /** Whether both panels ever ran at once. */
    ghost var overlap: bool
    /** The database as the old panel last left it. */
    ghost var kept: Files
    /** The report that was there when the old panel was last started. */
    ghost var found: Option<Option<Failure>>

    /** A machine on which the panel runs. */
    constructor (db: Files, snapshot: Files)
      ensures OldIs(Own, true) && next.None? && this.db == db && this.snapshot == snapshot && !overlap
    {
      previous, next := Some(Panel(Own, true)), None;
      this.db, this.snapshot, report := db, snapshot, None;
      overlap, kept, found := false, db, None;
    }

    predicate BothRun()
      reads this
    {
      previous.Some? && previous.value.running && next.Some? && next.value.running
    }

    predicate OldIs(name: Name, running: bool)
      reads this
    {
      previous == Some(Panel(name, running))
    }

    /** Renames the old container and stops it; it goes on writing until then. */
    method Replace(s: Script) returns (r: Option<Replacement>, ok: bool)
      requires s.Valid() && OldIs(Own, true) && next.None? && !overlap
      modifies this
      ensures !overlap && next.None? && db == kept == s.oldWrites && unchanged(`snapshot) && unchanged(`report)
      ensures r.None? ==> !ok && OldIs(if s.inspect && s.rename.FailedAfter? then Previous else Own, true)
      ensures r.Some? ==> fresh(r.value) && r.value.host == this && r.value.renamed && !r.value.made
      ensures r.Some? ==> r.value.stopped == ok == s.stop.Done? && OldIs(Previous, !s.stop.Effective())
      ensures r.Some? <==> s.inspect && s.rename.Done?
    {
      db, kept := s.oldWrites, s.oldWrites;
      if !s.inspect {
        return None, false;
      }
      if s.rename.Effective() {
        previous := Some(previous.value.(name := Previous));
      }
      if !s.rename.Done? {
        return None, false;
      }
      var made := new Replacement(this);
      made.renamed := true;
      if s.stop.Effective() {
        previous := Some(previous.value.(running := false));
      }
      if !s.stop.Done? {
        return Some(made), false;
      }
      made.stopped := true;
      return Some(made), true;
    }

    /** Copies every file; the copy of a file that is not there goes. */
    method SnapshotDb(copies: seq<FileOutcome>) returns (ok: bool)
      requires |copies| == FILES && IsDb(db) && IsDb(snapshot)
      modifies this`snapshot
      ensures IsDb(snapshot) && (ok ==> snapshot == db)
      ensures ok <==> forall i | 0 <= i < FILES :: copies[i].Fine?
    {
      var i: nat := 0;
      while i < FILES
        invariant i <= FILES && IsDb(snapshot)
        invariant forall k | 0 <= k < i :: copies[k].Fine?
        invariant forall k: nat | k < i :: (k in snapshot <==> k in db) && (k in db ==> snapshot[k] == db[k])
      {
        if i in db {
          if copies[i].Refused? {
            return false;
          }
          if copies[i].Torn? {
            snapshot := snapshot[i := copies[i].part];
            return false;
          }
          snapshot := snapshot[i := db[i]];
        } else {
          if !copies[i].Fine? {
            return false;
          }
          snapshot := snapshot - {i};
        }
        i := i + 1;
      }
      return true;
    }

    /** Moves every copy back, and removes a log file that there is no copy of. */
    method RestoreDb(moves: seq<FileOutcome>) returns (ok: bool)
      requires |moves| == FILES && IsDb(db) && IsDb(snapshot)
      modifies this`db, this`snapshot
      ensures IsDb(db) && IsDb(snapshot) && (ok ==> db == old(snapshot) && snapshot == map[])
      ensures ok <==> 0 in old(snapshot) && forall i | 0 <= i < FILES :: moves[i].Fine?
      ensures FromEither(db, old(db), old(snapshot))
    {
      var i: nat := 0;
      ghost var was, dbWas := snapshot, db;
      while i < FILES
        invariant i <= FILES && IsDb(db) && IsDb(snapshot)
        invariant i > 0 ==> 0 in was
        invariant forall k | 0 <= k < i :: moves[k].Fine?
        invariant forall k: nat | k < i :: k !in snapshot
        invariant forall k: nat | k >= i :: (k in snapshot <==> k in was) && (k in was ==> snapshot[k] == was[k])
        invariant forall k: nat | k < i :: (k in db <==> k in was) && (k in was ==> db[k] == was[k])
        invariant FromEither(db, dbWas, was)
      {
        if !moves[i].Fine? || (i !in snapshot && i == 0) {
          return false;
        }
        db := if i in snapshot then db[i := snapshot[i]] else db - {i};
        snapshot := snapshot - {i};
        i := i + 1;
      }
      return true;
    }

    /** Removes the copies; one that stays is only logged. */
    method DropSnapshot(drops: seq<FileOutcome>)
      requires |drops| == FILES && IsDb(snapshot)
      modifies this`snapshot
      ensures IsDb(snapshot) && snapshot.Keys <= old(snapshot).Keys
      ensures forall i: nat | i in snapshot :: !drops[i].Fine?
    {
      var i: nat := 0;
      while i < FILES
        invariant i <= FILES && IsDb(snapshot) && snapshot.Keys <= old(snapshot).Keys
        invariant forall k: nat | k < i && k in snapshot :: !drops[k].Fine?
      {
        if drops[i].Fine? {
          snapshot := snapshot - {i};
        }
        i := i + 1;
      }
    }

    /** Polls until the new panel answers, stops, or the time is up. */
    method WaitHealthy(polls: seq<Poll>) returns (cause: Option<Cause>)
      ensures cause.None? <==> ComesUp(polls)
      ensures cause.Some? ==> cause.value == if GoesDown(polls) then NewExited else NoAnswer
    {
      var i := 0;
      while i < |polls|
        invariant 0 <= i <= |polls|
        invariant forall k | 0 <= k < i :: !polls[k].Healthy? && !polls[k].Exited?
      {
        if polls[i].Exited? {
          return Some(NewExited);
        }
        if polls[i].Healthy? {
          return None;
        }
        i := i + 1;
      }
      return Some(NoAnswer);
    }

    method Report(failure: Option<Failure>, written: bool)
      modifies this`report
      ensures report == if written then Some(failure) else old(report)
    {
      if written {
        report := Some(failure);
      }
    }

    method UndoDb(database: bool, s: Script) returns (ok: bool)
      requires s.Valid() && IsDb(db) && IsDb(snapshot)
      modifies this`db, this`snapshot
      ensures IsDb(db) && IsDb(snapshot)
      ensures ok ==> db == if database then old(snapshot) else old(db)
      ensures !database || (0 in old(snapshot) && s.MovesWork()) ==> ok
      ensures if database then FromEither(db, old(db), old(snapshot)) else db == old(db)
      ensures ok && s.DropsWork() ==> snapshot == map[]
    {
      if database {
        ok := RestoreDb(s.moves);
      } else {
        DropSnapshot(s.drops);
        ok := true;
      }
    }

    /**
     Once the new container is gone. The reason is written down before the old panel starts
     again, which it does even on a database that could not be put back.
     */
    method PutBack(r: Replacement, cause: Cause, database: bool, s: Script) returns (f: Failure)
      requires s.Valid() && IsDb(db) && IsDb(snapshot) && !overlap && !BothRun()
      requires r.host == this && r.Sound() && r.renamed && !r.made
      requires if database then snapshot == kept else db == kept && next.None?
      modifies this`db, this`snapshot, this`report, this`previous, this`overlap, this`found, r
      ensures !overlap && !BothRun() && f.cause == cause && !f.discard
      ensures !f.restoreDb ==> db == kept && (s.DropsWork() ==> snapshot == map[])
      ensures !database || (0 in old(snapshot) && s.MovesWork()) ==> !f.restoreDb
      ensures FromEither(db, old(db), kept)
      ensures !f.restore ==> next.None? && previous == Some(Panel(Own, old(r.stopped) || old(previous.value.running)))
      ensures !f.restore && old(r.stopped) && s.report ==> found == Some(Some(f))
      ensures next.None? && s.renameBack.Done? && s.startBack.Done? ==> !f.restore
      ensures s.report ==> report == Some(Some(f))
    {
      var ok := UndoDb(database, s);
      f := Failure(cause, false, !ok, false);
      Report(Some(f), s.report);
      ok := r.Restore(s);
      if !ok {
        f := f.(restore := true);
        Report(Some(f), s.report);
      }
    }

    /**
     Undoes a swap that had begun. If the new container cannot be removed it goes no
     further: the database and its copies stay as they are, and the old panel stays down.
     */
    method UndoSwap(r: Replacement, cause: Cause, database: bool, s: Script) returns (f: Failure)
      requires s.Valid() && IsDb(db) && IsDb(snapshot) && !overlap && !BothRun()
      requires r.host == this && r.Sound() && r.renamed
      requires if database then snapshot == kept else db == kept && next.None?
      modifies this, r
      ensures !overlap && !BothRun() && unchanged(`kept) && f.cause == cause
      ensures f.discard <==> old(r.made) && !s.removeNew.Done?
      ensures f.discard ==> unchanged(`previous) && unchanged(`db) && unchanged(`snapshot) && unchanged(`found)
      ensures !f.discard && !f.restoreDb ==> db == kept && (s.DropsWork() ==> snapshot == map[])
      ensures !database || (0 in old(snapshot) && s.MovesWork()) ==> !f.restoreDb
      ensures FromEither(db, old(db), kept)
      ensures !f.discard && !f.restore ==>
                next.None? && previous == Some(Panel(Own, old(r.stopped) || old(previous.value.running)))
      ensures !f.discard && !f.restore && old(r.stopped) && s.report ==> found == Some(Some(f))
      ensures (old(next).Some? ==> old(r.made)) && s.renameBack.Done? && s.startBack.Done? ==> !f.restore
      ensures s.report ==> report == Some(Some(f))
    {
      var ok := r.Discard(s);
      if !ok {
        f := Failure(cause, true, false, false);
        Report(Some(f), s.report);
        return;
      }
      f := PutBack(r, cause, database, s);
    }

    /** Without a replacement nothing had changed yet. */
    method RollBack(r: Option<Replacement>, cause: Cause, database: bool, s: Script) returns (f: Failure)
      requires s.Valid() && IsDb(db) && IsDb(snapshot) && !overlap && !BothRun()
      requires r.Some? ==> r.value.host == this && r.value.Sound() && r.value.renamed
      requires r.None? ==> !database
      requires if database then snapshot == kept else db == kept && next.None?
      modifies this, if r.Some? then {r.value} else {}
      ensures !overlap && !BothRun() && unchanged(`kept) && f.cause == cause
      ensures r.None? ==> f.Recovered() && unchanged(`previous) && unchanged(`next)
      ensures f.discard <==> r.Some? && old(r.value.made) && !s.removeNew.Done?
      ensures f.discard ==> unchanged(`previous) && unchanged(`db) && unchanged(`snapshot) && unchanged(`found)
      ensures !f.discard && !f.restoreDb ==> db == kept && (s.DropsWork() ==> snapshot == map[])
      ensures !database || (0 in old(snapshot) && s.MovesWork()) ==> !f.restoreDb
      ensures FromEither(db, old(db), kept)
      ensures r.Some? && !f.discard && !f.restore ==>
                next.None? && previous == Some(Panel(Own, old(r.value.stopped) || old(previous.value.running)))
      ensures r.Some? && !f.discard && !f.restore && old(r.value.stopped) && s.report ==> found == Some(Some(f))
      ensures r.Some? && s.renameBack.Done? && s.startBack.Done? ==>
                (old(next).Some? ==> old(r.value.made)) ==> !f.restore
      ensures s.report ==> report == Some(Some(f))
    {
      if r.Some? {
        f := UndoSwap(r.value, cause, database, s);
      } else {
        DropSnapshot(s.drops);
        f := Failure(cause, false, false, false);
        Report(Some(f), s.report);
      }
    }

    /**
     Swaps the panel for one on the new image. Whatever fails, and however the calls that
     fail leave things, the two never run at once, and no file of the database comes from
     a copy that an earlier update left behind. A failed update leaves the database as the
     old panel left it, whatever the new version wrote, unless the new container could not
     be removed or the copies could not be moved back. Unless that container could not be
     removed, or the old one not be named and started again, no new container is left, and
     the old panel runs again under its name exactly when neither the rename nor the stop
     took effect while reporting a failure; as it starts it finds the reason.
     */
    method Apply(s: Script) returns (failure: Option<Failure>)
      requires s.Valid() && OldIs(Own, true) && next.None? && IsDb(db) && IsDb(snapshot) && !overlap
      modifies this
      ensures !overlap
      ensures failure.None? ==> next == Some(Panel(Own, true)) && db == s.newWrites
      ensures failure.None? ==> previous == if s.removeOld.Effective() then None else Some(Panel(Previous, false))
      ensures failure.Some? ==> failure.value.cause == CauseOf(s)
      ensures failure.None? && s.DropsWork() ==> snapshot == map[]
      ensures FromEither(db, s.oldWrites, s.newWrites)
      ensures failure.Some? && !failure.value.discard && !failure.value.restoreDb ==>
                db == kept == s.oldWrites && (s.DropsWork() ==> snapshot == map[])
      ensures failure.Some? && failure.value.OldIsBack() ==> next.None?
      ensures failure.Some? && failure.value.OldIsBack() ==> (OldIs(Own, true) <==> !RenameLost(s) && !StopLost(s))
      ensures failure.Some? && failure.value.OldIsBack() && RenameLost(s) ==> OldIs(Previous, true)
      ensures failure.Some? && failure.value.OldIsBack() && StopLost(s) ==> OldIs(Own, false)
      ensures failure.Some? && failure.value.OldIsBack() && s.report && s.inspect && s.rename.Done? && s.stop.Done? ==>
                found == Some(failure)
      ensures s.report ==> report == Some(failure)
      ensures failure.Some? && failure.value.discard ==> OldIs(Previous, false) && snapshot == s.oldWrites
      ensures failure.Some? && s.removeNew.Done? ==> !failure.value.discard
      ensures failure.Some? && !s.create.FailedAfter? && s.renameBack.Done? && s.startBack.Done? ==>
                !failure.value.restore
      ensures failure.Some? && 0 in s.oldWrites && s.MovesWork() ==> !failure.value.restoreDb
      ensures failure.None? <==> Succeeds(s)
    {
      var r, ok := Replace(s);
      if !ok {
        var f := RollBack(r, CannotReplace, false, s);
        return Some(f);
      }
      ok := SnapshotDb(s.copies);
      if !ok {
        var f := RollBack(r, CannotSnapshot, false, s);
        return Some(f);
      }
      ok := r.value.Start(s);
      var cause := if ok then None else Some(CannotStart);
      if ok {
        cause := WaitHealthy(s.polls);
      }
      if cause.Some? {
        var f := RollBack(r, cause.value, true, s);
        return Some(f);
      }
      ok := r.value.Commit(s);
      DropSnapshot(s.drops);
      Report(None, s.report);
      return None;
    }
  }

  /** Every poll before a healthy one found the container up, or told nothing. */
  ghost predicate ComesUp(polls: seq<Poll>) {
    exists k :: 0 <= k < |polls| && polls[k].Healthy? && forall j | 0 <= j < k :: !polls[j].Exited?
  }

  /** The first poll that tells found the container stopped. */
  ghost predicate GoesDown(polls: seq<Poll>) {
    exists k :: 0 <= k < |polls| && polls[k].Exited? && forall j | 0 <= j < k :: !polls[j].Exited? && !polls[j].Healthy?
  }

  /** The first step that fails. */
  ghost function CauseOf(s: Script): Cause
    requires s.Valid()
  {
    if !(s.inspect && s.rename.Done? && s.stop.Done?) then CannotReplace
    else if exists i | 0 <= i < FILES :: !s.copies[i].Fine? then CannotSnapshot
    else if !(s.create.Done? && s.start.Done?) then CannotStart
    else if GoesDown(s.polls) then NewExited
    else NoAnswer
  }

  /** What an update needs to go through. */
  ghost predicate Succeeds(s: Script)
    requires s.Valid()
  {
    && s.inspect && s.rename.Done? && s.stop.Done?
    && (forall i | 0 <= i < FILES :: s.copies[i].Fine?)
    && s.create.Done? && s.start.Done? && ComesUp(s.polls)
  }

  predicate RenameLost(s: Script) {
    s.inspect && s.rename.FailedAfter?
  }

  predicate StopLost(s: Script) {
    s.inspect && s.rename.Done? && s.stop.FailedAfter?
  }

  /** A stop that works but reports a failure: no step of the rollback fails, and the old panel stays down. */
  lemma StopCanBeLost(db: Files) returns (s: Script)
    requires IsDb(db) && 0 in db
    ensures s.Valid() && s.oldWrites == db && StopLost(s) && !Succeeds(s)
    ensures s.UndoWorks() && s.DropsWork() && !s.create.FailedAfter?
  {
    var fine := [Fine, Fine, Fine];
    s := Script(true, Done, FailedAfter, fine, Done, Done, [Healthy], Done, Done, fine, fine, Done, Done, true, db, db);
  }

  /** A rename that works but reports a failure: the old panel keeps its second name. */
  lemma RenameCanBeLost(db: Files) returns (s: Script)
    requires IsDb(db) && 0 in db
    ensures s.Valid() && s.oldWrites == db && RenameLost(s) && !Succeeds(s)
    ensures s.UndoWorks() && s.DropsWork() && !s.create.FailedAfter?
  {
    var fine := [Fine, Fine, Fine];
    s := Script(true, FailedAfter, Done, fine, Done, Done, [Healthy], Done, Done, fine, fine, Done, Done, true, db, db);
  }

  /** So either leaves the panel down or misnamed after a rollback without a failure. */
  method LostCall(h: Host, s: Script) returns (failure: Option<Failure>)
    requires h.OldIs(Own, true) && h.next.None? && IsDb(h.db) && IsDb(h.snapshot) && !h.overlap
    requires s.Valid() && 0 in s.oldWrites && s.UndoWorks() && !s.create.FailedAfter? && (StopLost(s) || RenameLost(s))
    modifies h
    ensures failure.Some? && failure.value.Recovered()
    ensures h.OldIs(if RenameLost(s) then Previous else Own, RenameLost(s))
  {
    failure := h.Apply(s);
  }

  /** The swap in progress: what there is to undo. */
  class Replacement {
    const host: Host
    var made: bool
    var renamed: bool
    var stopped: bool

    constructor (host: Host)
      ensures this.host == host && !made && !renamed && !stopped
    {
      this.host := host;
      made, renamed, stopped := false, false, false;
    }

    /** A copy that runs is one this knows of, and the old panel does not run then. */
    predicate Sound()
      reads this, host
    {
      && host.previous.Some? && (stopped ==> !host.previous.value.running)
      && (renamed ==> host.previous.value.name == Previous)
      && (host.next.Some? ==> host.next.value.name == Own && stopped)
      && (host.next.Some? && host.next.value.running ==> made)
    }

    /** Creates the copy and starts it; from then on it writes to the database. */
    method Start(s: Script) returns (ok: bool)
      requires s.Valid() && Sound() && renamed && stopped && host.next.None? && !made && !host.overlap
      modifies this, host`next, host`db, host`overlap
      ensures Sound() && renamed && stopped && !host.overlap && !host.BothRun()
      ensures host.db == s.newWrites || host.db == old(host.db)
      ensures ok ==> host.db == s.newWrites
      ensures ok <==> s.create.Done? && s.start.Done?
      ensures ok ==> host.next == Some(Panel(Own, true))
      ensures !s.create.FailedAfter? && host.next.Some? ==> made
    {
      if s.create.Effective() {
        host.next := Some(Panel(Own, false));
      }
      if !s.create.Done? {
        return false;
      }
      made := true;
      if s.start.Effective() {
        host.next := Some(Panel(Own, true));
        host.overlap := host.overlap || host.BothRun();
        host.db := s.newWrites;
      }
      return s.start.Done?;
    }

    /** Removes the old container. */
    method Commit(s: Script) returns (ok: bool)
      modifies host`previous
      ensures host.previous == if s.removeOld.Effective() then None else old(host.previous)
      ensures ok == s.removeOld.Done?
    {
      if s.removeOld.Effective() {
        host.previous := None;
      }
      return s.removeOld.Done?;
    }

    /** Removes the copy, if there is one this knows of. */
    method Discard(s: Script) returns (ok: bool)
      requires Sound() && renamed && !host.BothRun()
      modifies this`made, host`next
      ensures Sound() && !host.BothRun()
      ensures ok ==> !made && (host.next.Some? ==> !host.next.value.running)
      ensures ok && old(made) ==> host.next.None?
      ensures old(host.next).None? ==> host.next.None?
      ensures ok <==> !old(made) || s.removeNew.Done?
    {
      if !made {
        return true;
      }
      if s.removeNew.Effective() {
        made := made && s.removeNew.FailedAfter?;
        host.next := None;
      }
      return s.removeNew.Done?;
    }

    /** Renames the old container back, which a taken name prevents, and starts it if it was stopped. */
    method Restore(s: Script) returns (ok: bool)
      requires Sound() && renamed && !made && !host.overlap
      modifies this, host`previous, host`overlap, host`found
      ensures !host.overlap && !host.BothRun() && host.previous.Some?
      ensures ok ==> host.next.None?
      ensures ok ==> host.previous == Some(Panel(Own, old(stopped) || old(host.previous.value.running)))
      ensures ok && old(stopped) ==> host.found == host.report
      ensures host.next.None? && s.renameBack.Done? && s.startBack.Done? ==> ok
    {
      if renamed {
        var taken := host.next.Some? && host.next.value.name == Own;
        if !taken && s.renameBack.Effective() {
          host.previous := Some(host.previous.value.(name := Own));
        }
        if taken || !s.renameBack.Done? {
          return false;
        }
        renamed := false;
      }
      if stopped {
        if s.startBack.Effective() {
          host.previous := Some(host.previous.value.(running := true));
          host.overlap := host.overlap || host.BothRun();
          host.found := host.report;
        }
        if !s.startBack.Done? {
          return false;
        }
        stopped := false;
      }
      return true;
    }
  }
}
