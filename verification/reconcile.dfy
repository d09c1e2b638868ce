/** Making a node's containers and configs agree with the database, or all anew after a restore. */
module Reconciliation {
  import opened Counting
  import opened Deployment
  import opened Hosts
  import opened Names
  import opened Wrappers

  function NamesOf(prefix: string, insts: seq<Instance>): set<string> {
    set i | 0 <= i < |insts| :: ContainerName(prefix, insts[i])
  }

  function DirsOf(insts: seq<Instance>): set<string> {
    set i | 0 <= i < |insts| :: DirName(insts[i])
  }

  /** Ids are a primary key. */
  ghost predicate DistinctIds(insts: seq<Instance>) {
    forall i, j | 0 <= i < j < |insts| :: insts[i].id != insts[j].id
  }

  lemma OwnNames(prefix: string, insts: seq<Instance>, n: nat)
    requires DistinctIds(insts) && n < |insts|
    ensures ContainerName(prefix, insts[n]) !in NamesOf(prefix, insts[..n])
    ensures DirName(insts[n]) !in DirsOf(insts[..n])
  {
    forall i | 0 <= i < n
      ensures ContainerName(prefix, insts[i]) != ContainerName(prefix, insts[n])
      ensures DirName(insts[i]) != DirName(insts[n])
    {
      if Decimal(insts[i].id) == Decimal(insts[n].id) {
        DecimalInjective(insts[i].id, insts[n].id);
      }
      assert ContainerName(prefix, insts[i])[|prefix|..] == Decimal(insts[i].id);
      assert ContainerName(prefix, insts[n])[|prefix|..] == Decimal(insts[n].id);
    }
  }

  /** An instance's container: on the current image, and running if it ran before or was missing. */
  predicate Converged(prefix: string, image: string, was: Containers, now: Containers, inst: Instance) {
    var n := ContainerName(prefix, inst);
    n in now && now[n].image == image && (now[n].state == Running <==> (n !in was || was[n].state == Running))
  }

  predicate Current(prefix: string, image: string, now: Containers, inst: Instance) {
    var n := ContainerName(prefix, inst);
    n in now && now[n].managed && now[n].image == image
  }

  /** Its files are what the database asks for, and a running container has taken them up. */
  predicate Configured(prefix: string, now: Machine, db: Db, inst: Instance) {
    var n := ContainerName(prefix, inst);
    && DirName(inst) in now.dirs && now.dirs[DirName(inst)] == WantedDir(db, inst)
    && (n in now.containers && now.containers[n].state == Running ==> RunsAs(now.live, n, WantedDir(db, inst)))
  }

  function Managed(all: Containers): Containers {
    map n | n in all && all[n].managed :: all[n]
  }

  /** What was listed under a name is still what is there. */
  predicate Seen(listed: Containers, now: Containers, name: string) {
    if name in listed then name in now && now[name] == listed[name] && listed[name].managed
    else name !in now || !now[name].managed
  }

  lemma SeenStill(was: Containers, now: Containers, names: set<string>, name: string)
    requires SameBut(now, was, names) && name !in names
    ensures Seen(Managed(was), now, name)
  {
  }

  /** Only what is named here may have changed, and no directory went. */
  ghost predicate Only(now: Machine, was: Machine, names: set<string>, dirs: set<string>) {
    && SameBut(now.containers, was.containers, names) && SameBut(now.live, was.live, names)
    && SameBut(now.dirs, was.dirs, dirs) && was.dirs.Keys <= now.dirs.Keys
  }

  /** What a reconcile has done for an instance whose turn worked. */
  ghost predicate Done(m: Manager, was: Machine, now: Machine, db: Db, inst: Instance) {
    && Converged(m.prefix, m.image, was.containers, now.containers, inst)
    && Current(m.prefix, m.image, now.containers, inst) && Configured(m.prefix, now, db, inst)
  }

  /** What one instance's turn did; one that did not work had a call fail, or found its name taken. */
  ghost predicate Turn(m: Manager, mid: Machine, now: Machine, db: Db, inst: Instance, done: bool) {
    && now.failures >= mid.failures + (if done || Taken(m.prefix, mid.containers, inst) then 0 else 1)
    && Only(now, mid, {ContainerName(m.prefix, inst)}, {DirName(inst)})
    && (done ==> Done(m, mid, now, db, inst))
    && (Current(m.prefix, m.image, mid.containers, inst) ==> now.containers == mid.containers)
  }

  /** One instance of a reconcile. */
  method ReconcileOne(m: Manager, h: Host, db: Db, inst: Instance, listed: Containers) returns (ok: bool)
    requires h.Valid() && Seen(listed, h.containers, ContainerName(m.prefix, inst))
    modifies m`blocked, h
    ensures h.Valid() && h.nextId >= old(h.nextId)
    ensures Turn(m, old(h.Now()), h.Now(), db, inst, ok)
  {
    var name := ContainerName(m.prefix, inst);
    if name !in listed {
      ok := m.Deploy(h, db, inst, true);
    } else if listed[name].image != m.image {
      ok := m.Deploy(h, db, inst, listed[name].state == Running);
    } else {
      ok := m.Apply(h, db, inst);
    }
  }

  ghost predicate AllDone(m: Manager, was: Machine, now: Machine, db: Db, insts: seq<Instance>) {
    forall i | 0 <= i < |insts| :: Done(m, was, now, db, insts[i])
  }

  /** One instance that fails holds up no other. */
  ghost predicate DoneWhere(m: Manager, was: Machine, now: Machine, db: Db, insts: seq<Instance>, worked: seq<bool>) {
    |worked| == |insts| && forall i | 0 <= i < |insts| && worked[i] :: Done(m, was, now, db, insts[i])
  }

  /** Nothing to create, start or remove for any of these. */
  ghost predicate AllCurrent(m: Manager, was: Containers, insts: seq<Instance>) {
    forall i | 0 <= i < |insts| :: Current(m.prefix, m.image, was, insts[i])
  }

  lemma FrameStep(m: Manager, was: Machine, mid: Machine, now: Machine, insts: seq<Instance>, n: nat)
    requires n < |insts|
    requires Only(mid, was, NamesOf(m.prefix, insts[..n]), DirsOf(insts[..n]))
    requires Only(now, mid, {ContainerName(m.prefix, insts[n])}, {DirName(insts[n])})
    ensures Only(now, was, NamesOf(m.prefix, insts[..n + 1]), DirsOf(insts[..n + 1]))
  {
    NamesGrow(m.prefix, insts, n);
  }

  /** What is not named stays done. */
  lemma DoneStays(m: Manager, was: Machine, mid: Machine, now: Machine, db: Db, inst: Instance,
                  names: set<string>, dirs: set<string>)
    requires Done(m, was, mid, db, inst) && Only(now, mid, names, dirs)
    requires ContainerName(m.prefix, inst) !in names && DirName(inst) !in dirs
    ensures Done(m, was, now, db, inst)
  {
  }

  lemma DoneStep(m: Manager, was: Machine, mid: Machine, now: Machine, db: Db, insts: seq<Instance>, n: nat,
                 worked: seq<bool>, done: bool)
    requires DistinctIds(insts) && n < |insts|
    requires Only(mid, was, NamesOf(m.prefix, insts[..n]), DirsOf(insts[..n]))
    requires DoneWhere(m, was, mid, db, insts[..n], worked)
    requires Turn(m, mid, now, db, insts[n], done)
    ensures DoneWhere(m, was, now, db, insts[..n + 1], worked + [done])
  {
    var before, upto := insts[..n], insts[..n + 1];
    OwnNames(m.prefix, insts, n);
    forall i | 0 <= i < |upto| && (worked + [done])[i]
      ensures Done(m, was, now, db, upto[i])
    {
      if i < n {
        assert upto[i] == before[i] && Done(m, was, mid, db, before[i]);
        assert ContainerName(m.prefix, before[i]) in NamesOf(m.prefix, before);
        assert DirName(before[i]) in DirsOf(before);
        DoneStays(m, was, mid, now, db, before[i], {ContainerName(m.prefix, insts[n])}, {DirName(insts[n])});
      }
    }
  }

  lemma NamesGrow(prefix: string, insts: seq<Instance>, n: nat)
    requires n < |insts|
    ensures NamesOf(prefix, insts[..n + 1]) == NamesOf(prefix, insts[..n]) + {ContainerName(prefix, insts[n])}
    ensures DirsOf(insts[..n + 1]) == DirsOf(insts[..n]) + {DirName(insts[n])}
  {
    var before, upto := insts[..n], insts[..n + 1];
    forall i | 0 <= i <= n
      ensures ContainerName(prefix, upto[i]) in NamesOf(prefix, before) + {ContainerName(prefix, insts[n])}
      ensures DirName(upto[i]) in DirsOf(before) + {DirName(insts[n])}
    {
      if i < n {
        assert upto[i] == before[i];
      }
    }
    forall i | 0 <= i < n
      ensures ContainerName(prefix, before[i]) in NamesOf(prefix, upto) && DirName(before[i]) in DirsOf(upto)
    {
      assert upto[i] == before[i];
    }
    assert upto[n] == insts[n];
  }

  /** How many turns did not work. */
  function Missed(worked: seq<bool>): nat {
    if worked == [] then 0
    else Missed(worked[..|worked| - 1]) + if worked[|worked| - 1] then 0 else 1
  }

  /** How many instances cannot have a container, their name being taken. */
  function TakenCount(prefix: string, was: Containers, insts: seq<Instance>): nat {
    if insts == [] then 0
    else
      TakenCount(prefix, was, insts[..|insts| - 1]) + if Taken(prefix, was, insts[|insts| - 1]) then 1 else 0
  }

  /** Each turn that did not work has a failure of its own, or a name that is taken. */
  ghost predicate Blamed(prefix: string, was: Machine, now: Machine, insts: seq<Instance>, worked: seq<bool>) {
    Missed(worked) + was.failures <= now.failures + TakenCount(prefix, was.containers, insts)
  }

  lemma BlamedStep(prefix: string, was: Machine, mid: Machine, now: Machine, insts: seq<Instance>, n: nat,
                   worked: seq<bool>, done: bool)
    requires n < |insts| && Blamed(prefix, was, mid, insts[..n], worked)
    requires Taken(prefix, was.containers, insts[n]) == Taken(prefix, mid.containers, insts[n])
    requires now.failures >= mid.failures + if done || Taken(prefix, mid.containers, insts[n]) then 0 else 1
    ensures Blamed(prefix, was, now, insts[..n + 1], worked + [done])
  {
    assert insts[..n + 1][..n] == insts[..n] && (worked + [done])[..|worked|] == worked;
  }

  lemma {:induction false} MissedNone(worked: seq<bool>)
    ensures Missed(worked) == 0 <==> AllTrue(worked)
  {
    if worked != [] {
      var n := |worked| - 1;
      MissedNone(worked[..n]);
      assert worked == worked[..n] + [worked[n]];
    }
  }

  lemma {:induction false} SomeTaken(prefix: string, was: Containers, insts: seq<Instance>)
    ensures TakenCount(prefix, was, insts) > 0 ==> AnyTaken(prefix, was, insts)
  {
    if insts != [] {
      SomeTaken(prefix, was, insts[..|insts| - 1]);
    }
  }

  predicate AnyTaken(prefix: string, was: Containers, insts: seq<Instance>) {
    exists i :: 0 <= i < |insts| && Taken(prefix, was, insts[i])
  }

  /** How far a reconcile has come, whatever failed; `settled` if there was nothing to do to begin with. */
  ghost predicate Through(
    m: Manager, was: Machine, now: Machine, db: Db, insts: seq<Instance>, worked: seq<bool>, settled: bool)
  {
    && Only(now, was, NamesOf(m.prefix, insts), DirsOf(insts)) && now.failures >= was.failures
    && DoneWhere(m, was, now, db, insts, worked) && Blamed(m.prefix, was, now, insts, worked)
    && (settled ==> now.containers == was.containers)
  }

  lemma ThroughStep(m: Manager, was: Machine, mid: Machine, now: Machine, db: Db, insts: seq<Instance>, n: nat,
                    worked: seq<bool>, settled: bool, done: bool)
    requires DistinctIds(insts) && n < |insts|
    requires Through(m, was, mid, db, insts[..n], worked, settled)
    requires Turn(m, mid, now, db, insts[n], done)
    requires settled ==> Current(m.prefix, m.image, was.containers, insts[n])
    ensures Through(m, was, now, db, insts[..n + 1], worked + [done], settled)
  {
    FrameStep(m, was, mid, now, insts, n);
    DoneStep(m, was, mid, now, db, insts, n, worked, done);
    OwnNames(m.prefix, insts, n);
    BlamedStep(m.prefix, was, mid, now, insts, n, worked, done);
  }

  /** Each instance has its turn, whatever came of the ones before. */
  method ReconcileInstances(m: Manager, h: Host, db: Db, insts: seq<Instance>, listed: Containers)
    returns (worked: seq<bool>)
    requires h.Valid() && DistinctIds(insts) && listed == Managed(h.containers)
    modifies m`blocked, h
    ensures h.Valid()
    ensures Through(m, old(h.Now()), h.Now(), db, insts, worked, AllCurrent(m, old(h.containers), insts))
  {
    worked := [];
    ghost var was := h.Now();
    ghost var settled := AllCurrent(m, was.containers, insts);
    for i := 0 to |insts|
      invariant h.Valid() && Through(m, was, h.Now(), db, insts[..i], worked, settled)
    {
      ghost var mid := h.Now();
      OwnNames(m.prefix, insts, i);
      SeenStill(was.containers, mid.containers, NamesOf(m.prefix, insts[..i]), ContainerName(m.prefix, insts[i]));
      var done := ReconcileOne(m, h, db, insts[i], listed);
      ThroughStep(m, was, mid, h.Now(), db, insts, i, worked, settled, done);
      worked := worked + [done];
    }
    assert insts[..|insts|] == insts;
  }

  /** Ours, and for none of the instances. */
  predicate Orphan(prefix: string, name: string, c: Container, known: set<string>) {
    Owns(prefix, name, c) && name !in known
  }

  /** Only these are left out. */
  ghost predicate RemovedOnly(now: Containers, was: Containers, prefix: string, known: set<string>) {
    && (forall n | n in now :: n in was && now[n] == was[n])
    && (forall n | n in was && !Orphan(prefix, n, was[n], known) :: n in now)
  }

  /** None of the orphans that were there is left. */
  ghost predicate NoOrphan(prefix: string, was: Containers, now: Containers, names: set<string>) {
    forall n | n in was && Orphan(prefix, n, was[n], names) :: n !in now
  }

  /** What was listed and is not known is unchanged, or gone. */
  ghost predicate StillThere(listed: Containers, now: Containers, known: set<string>) {
    forall n | n in listed && n !in known :: n !in now || now[n] == listed[n]
  }

  lemma ListedIsThere(was: Containers, now: Containers, known: set<string>)
    requires SameBut(now, was, known)
    ensures StillThere(Managed(was), now, known)
  {
  }

  lemma OrphansWereListed(prefix: string, was: Containers, now: Containers, known: set<string>)
    requires NoOrphan(prefix, Managed(was), now, known)
    ensures NoOrphan(prefix, was, now, known)
  {
  }

  /** The orphans among these that are still there. */
  ghost function Left(prefix: string, was: Containers, now: Containers, known: set<string>, seen: set<string>)
    : set<string>
  {
    set n | n in seen && n in was && Orphan(prefix, n, was[n], known) && n in now
  }

  /** One that stays has a failed call of its own. */
  lemma LeftStep(prefix: string, was: Containers, mid: Containers, now: Containers, known: set<string>,
                 seen: set<string>, n: string, cost: nat)
    requires now.Keys <= mid.Keys && n !in seen
    requires n in was && Orphan(prefix, n, was[n], known) && n in now ==> cost > 0
    ensures |Left(prefix, was, now, known, seen + {n})| <= |Left(prefix, was, mid, known, seen)| + cost
  {
    var before, after := Left(prefix, was, mid, known, seen), Left(prefix, was, now, known, seen + {n});
    if cost > 0 {
      SubsetSize(after, before + {n});
    } else {
      SubsetSize(after, before);
    }
  }

  /** Goes through what was listed; the first failure ends it when `stop` is set, as in a rebuild. */
  method RemoveOwned(prefix: string, h: Host, listed: Containers, known: set<string>, stop: bool) returns (ok: bool)
    requires h.Valid() && StillThere(listed, h.containers, known)
    modifies h`containers, h`failures
    ensures h.Valid() && RemovedOnly(h.containers, old(h.containers), prefix, known)
    ensures h.failures >= old(h.failures) + if ok then 0 else 1
    ensures ok ==> NoOrphan(prefix, listed, h.containers, known)
    ensures !stop ==> |Left(prefix, listed, h.containers, known, listed.Keys)| + old(h.failures) <= h.failures
  {
    ok := true;
    ghost var was, before := h.containers, h.failures;
    var rest := listed.Keys;
    while rest != {}
      invariant h.failures >= before + if ok then 0 else 1
      invariant StillThere(listed, h.containers, known)
      invariant |Left(prefix, listed, h.containers, known, listed.Keys - rest)| + before <= h.failures
      invariant h.Valid() && rest <= listed.Keys && RemovedOnly(h.containers, was, prefix, known)
      invariant ok ==> forall n | n in listed && n !in rest && Orphan(prefix, n, listed[n], known) :: n !in h.containers
      decreases rest
    {
      var n :| n in rest;
      ghost var seen, mid, spent := listed.Keys - rest, h.containers, h.failures;
      rest := rest - {n};
      assert listed.Keys - rest == seen + {n};
      if Orphan(prefix, n, listed[n], known) {
        var removal := h.RemoveContainer(n);
        if removal == Refused {
          ok := false;
          if stop {
            return;
          }
        }
      }
      LeftStep(prefix, listed, mid, h.containers, known, seen, n, h.failures - spent);
    }
    assert listed.Keys - rest == listed.Keys;
  }

  /** Only stale directories go. */
  method RemoveStaleConfigs(h: Host, insts: seq<Instance>) returns (ok: bool)
    modifies h`dirs, h`failures
    ensures h.failures >= old(h.failures) + if ok then 0 else 1
    ensures SubMap(h.dirs, old(h.dirs), DirsOf(insts))
    ensures ok ==> h.dirs.Keys <= DirsOf(insts)
  {
    var known := DirsOf(insts);
    var names := h.ReadDir();
    if names.None? {
      return false;
    }
    ghost var was, before := h.dirs, h.failures;
    var rest := names.value;
    while rest != {}
      invariant h.failures >= before
      invariant SubMap(h.dirs, was, known) && forall n | n in h.dirs :: n in known || n in rest
      decreases rest
    {
      var name :| name in rest;
      rest := rest - {name};
      if name !in known {
        ok := h.RemoveDir(name);
        if !ok {
          return;
        }
      }
    }
    ok := true;
  }

  /** Fewer entries, but all of these, and none changed. */
  ghost predicate SubMap<V>(now: map<string, V>, was: map<string, V>, kept: set<string>) {
    && (forall k | k in now :: k in was && now[k] == was[k])
    && (forall k | k in was && k in kept :: k in now)
  }

  /** The containers are in line with the database: nothing to create, start or remove. */
  ghost predicate Settled(m: Manager, now: Containers, insts: seq<Instance>) {
    && AllCurrent(m, now, insts)
    && (forall n | n in now && Owns(m.prefix, n, now[n]) :: n in NamesOf(m.prefix, insts))
  }

  /** Only our own containers and those named for an instance ever change. */
  ghost predicate OthersKept(prefix: string, now: Containers, was: Containers, names: set<string>) {
    && (forall n | n in was && n !in names && !Owns(prefix, n, was[n]) :: n in now && now[n] == was[n])
    && (forall n | n in now && n !in names :: n in was && now[n] == was[n])
  }

  /** Only directories of no instance go, and only those of instances are written. */
  ghost predicate DirsKept(now: Dirs, was: Dirs, known: set<string>) {
    && (forall d | d in was && d in known :: d in now)
    && (forall d | d in now && d !in known :: d in was && now[d] == was[d])
  }

  /**
   Every instance whose turn worked has a container on the current image, running unless it
   was there and stopped, and the config the database asks for, taken up if it runs,
   whatever failed elsewhere. Without a failure that is every instance, no other container
   of ours is left, in whatever state it was, and the config directories are those of the
   instances. A second run leaves every container alone.
   */
  ghost predicate Ended(
    m: Manager, was: Machine, now: Machine, db: Db, insts: seq<Instance>, ok: bool, worked: seq<bool>)
  {
    && OthersKept(m.prefix, now.containers, was.containers, NamesOf(m.prefix, insts))
    && DirsKept(now.dirs, was.dirs, DirsOf(insts))
    && DoneWhere(m, was, now, db, insts, worked)
    && (ok ==> AllDone(m, was, now, db, insts) && Settled(m, now.containers, insts))
    && (ok ==> now.dirs.Keys == DirsOf(insts) && NoneOfOurs(m.prefix, now.containers, NamesOf(m.prefix, insts)))
    && (Settled(m, was.containers, insts) ==> now.containers == was.containers)
  }

  /**
   Nothing fails without a call that failed or a name that was taken. Each turn that did not
   work, and each container of ours that should have gone and is still there, has one of its
   own, unless the containers could not be listed and nothing was done.
   */
  ghost predicate Explained(
    prefix: string, was: Machine, now: Machine, insts: seq<Instance>, ok: bool, worked: seq<bool>)
  {
    && (AllBlamed(prefix, was, now, insts, worked) || now == was.(failures := was.failures + 1))
    && (!ok ==> now.failures > was.failures || AnyTaken(prefix, was.containers, insts))
  }

  ghost predicate AllBlamed(prefix: string, was: Machine, now: Machine, insts: seq<Instance>, worked: seq<bool>) {
    Missed(worked) + |Left(prefix, was.containers, now.containers, NamesOf(prefix, insts), was.containers.Keys)|
    <= now.failures - was.failures + TakenCount(prefix, was.containers, insts)
  }

  lemma Explains(prefix: string, was: Machine, mid: Machine, left: Machine, now: Machine, insts: seq<Instance>,
                 worked: seq<bool>, done: bool)
    requires Blamed(prefix, was, mid, insts, worked) && mid.failures >= was.failures
    requires var names := NamesOf(prefix, insts);
             |Left(prefix, Managed(was.containers), left.containers, names, Managed(was.containers).Keys)|
             + mid.failures <= left.failures
    requires now.containers == left.containers && now.failures >= left.failures >= mid.failures
    requires !done ==> now.failures > mid.failures
    ensures Explained(prefix, was, now, insts, AllTrue(worked) && done, worked)
  {
    MissedNone(worked);
    SomeTaken(prefix, was.containers, insts);
    assert Left(prefix, Managed(was.containers), left.containers, NamesOf(prefix, insts), Managed(was.containers).Keys)
        == Left(prefix, was.containers, now.containers, NamesOf(prefix, insts), was.containers.Keys);
  }

  /** A container that a panel made and whose name is the prefix and its label is named for an instance. */
  ghost predicate NoneOfOurs(prefix: string, now: Containers, names: set<string>) {
    forall n | n in now && now[n].managed && now[n].tag.Some? && n == prefix + now[n].tag.value :: n in names
  }

  predicate AllTrue(worked: seq<bool>) {
    forall i | 0 <= i < |worked| :: worked[i]
  }

  /** The instances in turn, then what is left of servers that are gone. */
  method Reconcile(m: Manager, h: Host, db: Db, insts: seq<Instance>) returns (ok: bool, worked: seq<bool>)
    requires h.Valid() && DistinctIds(insts)
    modifies m`blocked, h
    ensures h.Valid() && Ended(m, old(h.Now()), h.Now(), db, insts, ok, worked)
    ensures Explained(m.prefix, old(h.Now()), h.Now(), insts, ok, worked)
  {
    ghost var was := h.Now();
    var r := h.ListContainers();
    if r.None? {
      NothingDone(m, was, h.Now(), db, insts);
      return false, seq(|insts|, _ => false);
    }
    var listed := r.value;
    worked := ReconcileInstances(m, h, db, insts, listed);
    ghost var mid := h.Now();
    var known := NamesOf(m.prefix, insts);
    ListedIsThere(was.containers, mid.containers, known);
    var removed := RemoveOwned(m.prefix, h, listed, known, false);
    ghost var left := h.Now();
    var swept := RemoveStaleConfigs(h, insts);
    ok := AllTrue(worked) && removed && swept;
    Finishes(m, was, mid, left, h.Now(), db, insts, worked, removed, swept);
  }

  /** What was removed, and what was not, after the instances had their turns. */
  ghost predicate RemovedAfter(prefix: string, was: Containers, mid: Machine, left: Machine, names: set<string>,
                               removed: bool)
  {
    && left == mid.(containers := left.containers, failures := left.failures)
    && left.failures >= mid.failures + (if removed then 0 else 1)
    && RemovedOnly(left.containers, mid.containers, prefix, names)
    && (removed ==> NoOrphan(prefix, Managed(was), left.containers, names))
    && |Left(prefix, Managed(was), left.containers, names, Managed(was).Keys)| + mid.failures <= left.failures
  }

  /** Then the stale directories. */
  ghost predicate SweptAfter(left: Machine, now: Machine, dirs: set<string>, swept: bool) {
    && now == left.(dirs := now.dirs, failures := now.failures)
    && now.failures >= left.failures + (if swept then 0 else 1)
    && SubMap(now.dirs, left.dirs, dirs) && (swept ==> now.dirs.Keys <= dirs)
  }

  lemma Finishes(m: Manager, was: Machine, mid: Machine, left: Machine, now: Machine, db: Db, insts: seq<Instance>,
                 worked: seq<bool>, removed: bool, swept: bool)
    requires Through(m, was, mid, db, insts, worked, AllCurrent(m, was.containers, insts))
    requires RemovedAfter(m.prefix, was.containers, mid, left, NamesOf(m.prefix, insts), removed)
    requires SweptAfter(left, now, DirsOf(insts), swept)
    ensures Ended(m, was, now, db, insts, AllTrue(worked) && removed && swept, worked)
    ensures Explained(m.prefix, was, now, insts, AllTrue(worked) && removed && swept, worked)
  {
    if removed {
      OrphansWereListed(m.prefix, was.containers, now.containers, NamesOf(m.prefix, insts));
    }
    EndsSo(m, was, mid, now, db, insts, AllTrue(worked) && removed && swept, worked);
    Explains(m.prefix, was, mid, left, now, insts, worked, removed && swept);
  }

  lemma NothingDone(m: Manager, was: Machine, now: Machine, db: Db, insts: seq<Instance>)
    requires now == was.(failures := was.failures + 1)
    ensures Ended(m, was, now, db, insts, false, seq(|insts|, _ => false))
    ensures Explained(m.prefix, was, now, insts, false, seq(|insts|, _ => false))
  {
  }

  lemma EndsSo(m: Manager, was: Machine, mid: Machine, now: Machine, db: Db, insts: seq<Instance>,
               ok: bool, worked: seq<bool>)
    requires Only(mid, was, NamesOf(m.prefix, insts), DirsOf(insts)) && now.live == mid.live
    requires DoneWhere(m, was, mid, db, insts, worked)
    requires AllCurrent(m, was.containers, insts) ==> mid.containers == was.containers
    requires RemovedOnly(now.containers, mid.containers, m.prefix, NamesOf(m.prefix, insts))
    requires SubMap(now.dirs, mid.dirs, DirsOf(insts))
    requires ok ==> AllTrue(worked) && now.dirs.Keys <= DirsOf(insts)
    requires ok ==> NoOrphan(m.prefix, was.containers, now.containers, NamesOf(m.prefix, insts))
    ensures Ended(m, was, now, db, insts, ok, worked)
  {
    OthersSurvive(m.prefix, was.containers, mid.containers, now.containers, NamesOf(m.prefix, insts));
    DirsSurvive(was.dirs, mid.dirs, now.dirs, DirsOf(insts));
    DoneSurvives(m, was, mid, now, db, insts, worked);
    IdleSurvives(m, was.containers, mid.containers, now.containers, insts);
    if ok {
      AllSettled(m, was, now, db, insts);
      OursAreKnown(m.prefix, was.containers, mid.containers, now.containers, NamesOf(m.prefix, insts));
    }
  }

  lemma OthersSurvive(prefix: string, was: Containers, mid: Containers, now: Containers, names: set<string>)
    requires SameBut(mid, was, names) && RemovedOnly(now, mid, prefix, names)
    ensures OthersKept(prefix, now, was, names)
  {
  }

  lemma DirsSurvive(was: Dirs, mid: Dirs, now: Dirs, known: set<string>)
    requires SameBut(mid, was, known) && was.Keys <= mid.Keys && SubMap(now, mid, known)
    ensures DirsKept(now, was, known)
  {
  }

  lemma IdleSurvives(m: Manager, was: Containers, mid: Containers, now: Containers, insts: seq<Instance>)
    requires (AllCurrent(m, was, insts) ==> mid == was) && RemovedOnly(now, mid, m.prefix, NamesOf(m.prefix, insts))
    ensures Settled(m, was, insts) ==> now == was
  {
  }

  /** Once every orphan that was listed is gone, all that is left of ours is named for an instance. */
  lemma OursAreKnown(prefix: string, was: Containers, mid: Containers, now: Containers, names: set<string>)
    requires SameBut(mid, was, names) && RemovedOnly(now, mid, prefix, names)
    requires NoOrphan(prefix, was, now, names)
    ensures NoneOfOurs(prefix, now, names)
    ensures forall n | n in now && Owns(prefix, n, now[n]) :: n in names
  {
  }

  /** Removing what is stale undoes nothing. */
  lemma DoneSurvives(m: Manager, was: Machine, mid: Machine, now: Machine, db: Db, insts: seq<Instance>,
                     worked: seq<bool>)
    requires DoneWhere(m, was, mid, db, insts, worked) && now.live == mid.live
    requires RemovedOnly(now.containers, mid.containers, m.prefix, NamesOf(m.prefix, insts))
    requires SubMap(now.dirs, mid.dirs, DirsOf(insts))
    ensures DoneWhere(m, was, now, db, insts, worked)
  {
    forall i | 0 <= i < |insts| && worked[i]
      ensures Done(m, was, now, db, insts[i])
    {
      assert ContainerName(m.prefix, insts[i]) in NamesOf(m.prefix, insts) && DirName(insts[i]) in DirsOf(insts);
    }
  }

  lemma AllSettled(m: Manager, was: Machine, now: Machine, db: Db, insts: seq<Instance>)
    requires AllDone(m, was, now, db, insts)
    ensures AllCurrent(m, now.containers, insts) && DirsOf(insts) <= now.dirs.Keys
  {
    forall i | 0 <= i < |insts|
      ensures Current(m.prefix, m.image, now.containers, insts[i]) && DirName(insts[i]) in now.dirs
    {
      assert Done(m, was, now, db, insts[i]);
    }
  }

  /** Panels that share a daemon stay apart: nothing another one made is ours, or named for an instance of ours. */
  lemma OtherPanelsApart(prefix: string, other: string, insts: seq<Instance>, name: string, c: Container, id: nat)
    requires IsPrefix(prefix) && IsPrefix(other) && prefix != other
    requires Owns(other, name, c) && c.tag == Some(Decimal(id))
    ensures !Owns(prefix, name, c) && name !in NamesOf(prefix, insts)
  {
    if name == prefix + Decimal(id) {
      NamesSplit(prefix, id, other, id);
    }
    forall i | 0 <= i < |insts|
      ensures name != ContainerName(prefix, insts[i])
    {
      if name == ContainerName(prefix, insts[i]) {
        NamesSplit(prefix, insts[i].id, other, id);
      }
    }
  }

  // ---------------------------------------------------------------- rebuilding

  /** A container made anew and running, with the files the database asks for. */
  ghost predicate Renewed(m: Manager, now: Machine, db: Db, inst: Instance, from: nat) {
    var n := ContainerName(m.prefix, inst);
    && n in now.containers && Deployed(now.containers[n], inst, m.image, true, from)
    && Configured(m.prefix, now, db, inst)
  }

  ghost predicate AllRenewed(m: Manager, now: Machine, db: Db, insts: seq<Instance>, from: nat) {
    forall i | 0 <= i < |insts| :: Renewed(m, now, db, insts[i], from)
  }

  lemma RenewedStays(m: Manager, mid: Machine, now: Machine, db: Db, inst: Instance, from: nat,
                     names: set<string>, dirs: set<string>)
    requires Renewed(m, mid, db, inst, from) && Only(now, mid, names, dirs)
    requires ContainerName(m.prefix, inst) !in names && DirName(inst) !in dirs
    ensures Renewed(m, now, db, inst, from)
  {
  }

  /** One deploy that fails holds up no other. */
  ghost predicate RenewedWhere(m: Manager, now: Machine, db: Db, insts: seq<Instance>, from: nat, worked: seq<bool>) {
    |worked| == |insts| && forall i | 0 <= i < |insts| && worked[i] :: Renewed(m, now, db, insts[i], from)
  }

  lemma RenewedStep(m: Manager, mid: Machine, now: Machine, db: Db, insts: seq<Instance>, n: nat, from: nat,
                    worked: seq<bool>, done: bool)
    requires DistinctIds(insts) && n < |insts| && RenewedWhere(m, mid, db, insts[..n], from, worked)
    requires Only(now, mid, {ContainerName(m.prefix, insts[n])}, {DirName(insts[n])})
    requires done ==> Renewed(m, now, db, insts[n], from)
    ensures RenewedWhere(m, now, db, insts[..n + 1], from, worked + [done])
  {
    var before, upto := insts[..n], insts[..n + 1];
    OwnNames(m.prefix, insts, n);
    forall i | 0 <= i < |upto| && (worked + [done])[i]
      ensures Renewed(m, now, db, upto[i], from)
    {
      if i < n {
        assert upto[i] == before[i] && Renewed(m, mid, db, before[i], from);
        assert ContainerName(m.prefix, before[i]) in NamesOf(m.prefix, before);
        assert DirName(before[i]) in DirsOf(before);
        RenewedStays(m, mid, now, db, before[i], from, {ContainerName(m.prefix, insts[n])}, {DirName(insts[n])});
      }
    }
  }

  /** A container for each instance, whatever came of the ones before. */
  method DeployAll(m: Manager, h: Host, db: Db, insts: seq<Instance>) returns (worked: seq<bool>)
    requires h.Valid() && DistinctIds(insts)
    modifies m`blocked, h
    ensures h.Valid() && h.failures >= old(h.failures)
    ensures Only(h.Now(), old(h.Now()), NamesOf(m.prefix, insts), DirsOf(insts))
    ensures RenewedWhere(m, h.Now(), db, insts, old(h.nextId), worked)
    ensures Blamed(m.prefix, old(h.Now()), h.Now(), insts, worked)
  {
    worked := [];
    ghost var was, from := h.Now(), h.nextId;
    for i := 0 to |insts|
      invariant h.Valid() && h.nextId >= from && h.failures >= was.failures
      invariant Only(h.Now(), was, NamesOf(m.prefix, insts[..i]), DirsOf(insts[..i]))
      invariant RenewedWhere(m, h.Now(), db, insts[..i], from, worked)
      invariant Blamed(m.prefix, was, h.Now(), insts[..i], worked)
    {
      ghost var mid := h.Now();
      OwnNames(m.prefix, insts, i);
      var done := m.Deploy(h, db, insts[i], true);
      FrameStep(m, was, mid, h.Now(), insts, i);
      RenewedStep(m, mid, h.Now(), db, insts, i, from, worked, done);
      BlamedStep(m.prefix, was, mid, h.Now(), insts, i, worked, done);
      worked := worked + [done];
    }
    assert insts[..|insts|] == insts;
  }

  /**
   Removes all of our containers and makes new ones, as a restored database needs. Without
   a failure our own containers are exactly one new, running one for each instance.
   */
  method RebuildNode(m: Manager, h: Host, db: Db, insts: seq<Instance>) returns (ok: bool)
    requires h.Valid() && DistinctIds(insts)
    modifies m`blocked, h
    ensures h.Valid() && OthersKept(m.prefix, h.containers, old(h.containers), NamesOf(m.prefix, insts))
    ensures DirsKept(h.dirs, old(h.dirs), DirsOf(insts))
    ensures ok ==> AllRenewed(m, h.Now(), db, insts, old(h.nextId)) && h.dirs.Keys == DirsOf(insts)
    ensures !ok ==> h.failures > old(h.failures) || AnyTaken(m.prefix, old(h.containers), insts)
    ensures ok ==> NoneOfOurs(m.prefix, h.containers, NamesOf(m.prefix, insts))
    ensures ok ==> forall n | n in h.containers && Owns(m.prefix, n, h.containers[n]) :: n in NamesOf(m.prefix, insts)
  {
    var r := h.ListContainers();
    if r.None? {
      return false;
    }
    ok := RemoveOwned(m.prefix, h, r.value, {}, true);
    if !ok {
      return;
    }
    ok := RemoveStaleConfigs(h, insts);
    if !ok {
      return;
    }
    ghost var mid, dirsMid := h.containers, h.dirs;
    assert forall n | n in mid :: !Owns(m.prefix, n, mid[n]);
    var worked := DeployAll(m, h, db, insts);
    ok := AllTrue(worked);
    MissedNone(worked);
    SomeTaken(m.prefix, mid, insts);
    if ok {
      forall i | 0 <= i < |insts|
        ensures DirName(insts[i]) in h.dirs
      {
        assert Renewed(m, h.Now(), db, insts[i], old(h.nextId));
      }
    }
  }

  // ---------------------------------------------------------------- which of the two

  function OnNode(insts: seq<Instance>, node: nat): seq<Instance> {
    if insts == [] then []
    else
      var n := |insts| - 1;
      OnNode(insts[..n], node) + if insts[n].node == node then [insts[n]] else []
  }

  lemma {:induction false} OnNodeIs(insts: seq<Instance>, node: nat)
    requires DistinctIds(insts)
    ensures DistinctIds(OnNode(insts, node))
    ensures forall x :: x in OnNode(insts, node) <==> x in insts && x.node == node
  {
    if insts != [] {
      var n := |insts| - 1;
      OnNodeIs(insts[..n], node);
      assert insts == insts[..n] + [insts[n]];
      forall i | 0 <= i < |OnNode(insts[..n], node)|
        ensures OnNode(insts[..n], node)[i].id != insts[n].id
      {
        assert OnNode(insts[..n], node)[i] in insts[..n];
      }
    }
  }

  /** Restores, and nodes that come up with or without the panel getting through to them. */
  datatype Happening = Mark(nodes: set<nat>) | ComesUp(node: nat, reached: bool)

  /** The nodes marked for a rebuild afterwards. */
  function Marked(marks: set<nat>, x: Happening): set<nat> {
    match x
    case Mark(nodes) => {0} + nodes
    case ComesUp(node, reached) => if reached then marks - {node} else marks
  }

  function Pending(marks: set<nat>, happenings: seq<Happening>): set<nat>
    decreases |happenings|
  {
    if happenings == [] then marks else Pending(Marked(marks, happenings[0]), happenings[1..])
  }

  datatype Up = Offline | NoDatabase | Rebuilt(ok: bool) | Reconciled(ok: bool)

  /** Makes every node rebuild when it next comes up. */
  method MarkRebuild(m: Manager, nodes: Option<set<nat>>) returns (ok: bool)
    modifies m`blocked, m`rebuild
    ensures ok == nodes.Some?
    ensures ok ==> m.rebuild == Marked(old(m.rebuild), Mark(nodes.value)) && m.blocked == map[]
    ensures !ok ==> m.rebuild == old(m.rebuild) && m.blocked == old(m.blocked)
  {
    if nodes.None? {
      return false;
    }
    m.blocked := map[];
    m.rebuild := {0} + nodes.value;
    return true;
  }

  method TakeRebuild(m: Manager, node: nat) returns (pending: bool)
    modifies m`rebuild
    ensures pending == (node in old(m.rebuild)) && m.rebuild == old(m.rebuild) - {node}
  {
    pending := node in m.rebuild;
    m.rebuild := m.rebuild - {node};
  }

  /** A node out of reach, or a database that does not answer, leaves the mark where it is. */
  method NodeUp(m: Manager, node: nat, h: Option<Host>, db: Option<Db>) returns (r: Up)
    requires h.Some? ==> h.value.Valid()
    requires db.Some? ==> DistinctIds(db.value.instances)
    modifies m`blocked, m`rebuild, if h.Some? then {h.value} else {}
    ensures r.Offline? <==> h.None?
    ensures r.NoDatabase? <==> h.Some? && db.None?
    ensures r.Rebuilt? <==> h.Some? && db.Some? && node in old(m.rebuild)
    ensures m.rebuild == Marked(old(m.rebuild), ComesUp(node, h.Some? && db.Some?))
    ensures h.Some? ==> h.value.Valid()
    ensures r == Rebuilt(true) ==>
              AllRenewed(m, h.value.Now(), db.value, OnNode(db.value.instances, node), old(h.value.nextId))
    ensures r == Rebuilt(false) || r == Reconciled(false) ==>
              h.value.failures > old(h.value.failures)
              || AnyTaken(m.prefix, old(h.value.containers), OnNode(db.value.instances, node))
    ensures r == Reconciled(true) ==>
              AllDone(m, old(h.value.Now()), h.value.Now(), db.value, OnNode(db.value.instances, node))
  {
    if h.None? {
      return Offline;
    }
    if db.None? {
      return NoDatabase;
    }
    var insts := OnNode(db.value.instances, node);
    OnNodeIs(db.value.instances, node);
    var pending := TakeRebuild(m, node);
    if pending {
      var ok := RebuildNode(m, h.value, db.value, insts);
      return Rebuilt(ok);
    }
    var ok, _ := Reconcile(m, h.value, db.value, insts);
    return Reconciled(ok);
  }

  /** A mark stays until the node is first reached, however often it comes up before that. */
  lemma {:induction false} MarkLasts(marks: set<nat>, happenings: seq<Happening>, node: nat)
    requires forall x | x in happenings :: !x.Mark?
    ensures node in Pending(marks, happenings) <==> node in marks && ComesUp(node, true) !in happenings
    decreases |happenings|
  {
    if happenings != [] {
      var x := happenings[0];
      assert x in happenings && happenings == [x] + happenings[1..];
      MarkLasts(Marked(marks, x), happenings[1..], node);
    }
  }

  /** So after a restore exactly the first time a stored node, or the panel's own machine, is reached it rebuilds. */
  lemma FirstReachRebuilds(before: set<nat>, nodes: set<nat>, happenings: seq<Happening>, node: nat)
    requires forall x | x in happenings :: !x.Mark?
    ensures node in Pending(before, [Mark(nodes)] + happenings)
            <==> (node == 0 || node in nodes) && ComesUp(node, true) !in happenings
  {
    assert ([Mark(nodes)] + happenings)[1..] == happenings;
    MarkLasts({0} + nodes, happenings, node);
  }
}
