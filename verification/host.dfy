/** A machine that runs WireGuard containers; any call on it may fail, some after taking effect. */
module Hosts {
  import opened ServerConfigs
  import opened Wrappers

  datatype State = Created | Running | Restarting | Paused | Exited | Dead

  /** `tag` is the instance label, if there is one; `managed` whether a panel made the container. */
  datatype Container = Container(id: nat, tag: Option<string>, image: string, state: State, managed: bool)

  type Containers = map<string, Container>

  /** An instance's config directory. */
  datatype Dir = Dir(server: Option<(string, seq<Peer>)>, resolver: Option<seq<string>>, speeds: Option<seq<Peer>>)

  const NO_FILES := Dir(None, None, None)

  type Dirs = map<string, Dir>

  /** The files that each running container was last set up with, by its name. */
  type Live = map<string, Dir>

  /** A machine at one moment, and how many calls on it have failed. */
  datatype Machine = Machine(containers: Containers, dirs: Dirs, live: Live, failures: nat)

  datatype Removal = Removed | NotFound | Refused

  function DirOf(dirs: Dirs, name: string): Dir {
    if name in dirs then dirs[name] else NO_FILES
  }

  class Host {
    var containers: Containers
    var dirs: Dirs
    var live: Live
    var nextId: nat
    ghost var failures: nat

    ghost function Now(): Machine
      reads this
    {
      Machine(containers, dirs, live, failures)
    }

    /** Ids are never used twice. */
    ghost predicate Valid()
      reads this
    {
      forall n | n in containers :: containers[n].id < nextId
    }

    /** Whether a call fails, and whether it takes effect all the same. */
    method Luck() returns (fails: bool, effect: bool)
      modifies this`failures
      ensures !fails ==> effect
      ensures failures == old(failures) + if fails then 1 else 0
    {
      fails, effect := *, *;
      effect := effect || !fails;
      failures := failures + if fails then 1 else 0;
    }

    /** Only containers a panel made are listed. */
    method ListContainers() returns (r: Option<Containers>)
      modifies this`failures
      ensures failures == old(failures) + if r.None? then 1 else 0
      ensures r.Some? ==> r.value == map n | n in containers && containers[n].managed :: containers[n]
    {
      var fails, _ := Luck();
      r := if fails then None else Some(map n | n in containers && containers[n].managed :: containers[n]);
    }

    method InspectContainer(name: string) returns (r: Result<Option<Container>, ()>)
      modifies this`failures
      ensures failures == old(failures) + if r.Err? then 1 else 0
      ensures r.Ok? ==> r.value == if name in containers then Some(containers[name]) else None
    {
      var fails, _ := Luck();
      r := if fails then Err(()) else Ok(if name in containers then Some(containers[name]) else None);
    }

    /** A container no panel made is refused. */
    method RemoveContainer(name: string) returns (r: Removal)
      requires Valid()
      modifies this`containers, this`failures
      ensures Valid() && failures >= old(failures)
      ensures r == Refused && (name in old(containers) ==> old(containers)[name].managed) ==> failures > old(failures)
      ensures containers == old(containers) || containers == old(containers) - {name}
      ensures name in old(containers) && !old(containers)[name].managed ==>
                r == Refused && containers == old(containers)
      ensures r == Removed ==> name in old(containers) && containers == old(containers) - {name}
      ensures r == NotFound ==> name !in old(containers) && containers == old(containers)
    {
      var fails, effect := Luck();
      if name !in containers {
        return if fails then Refused else NotFound;
      }
      if !containers[name].managed {
        return Refused;
      }
      if effect {
        containers := containers - {name};
      }
      return if fails then Refused else Removed;
    }

    /** A name that is taken is refused. */
    method CreateContainer(name: string, tag: string, image: string) returns (ok: bool)
      requires Valid()
      modifies this`containers, this`nextId, this`failures
      ensures Valid() && nextId == old(nextId) + 1 && failures >= old(failures)
      ensures !ok && name !in old(containers) ==> failures > old(failures)
      ensures containers == old(containers)
              || (name !in old(containers)
                  && containers == old(containers)[name := Container(old(nextId), Some(tag), image, Created, true)])
      ensures ok ==> name in containers && containers[name] == Container(old(nextId), Some(tag), image, Created, true)
    {
      var fails, effect := Luck();
      var id := nextId;
      nextId := nextId + 1;
      if name in containers {
        return false;
      }
      if effect {
        containers := containers[name := Container(id, Some(tag), image, Created, true)];
      }
      return !fails;
    }

    /**
     Starts a container, which sets itself up from the directory it mounts, and follows its
     log until it is ready; one that does not get there may be in any state.
     */
    method StartContainer(name: string, dir: string) returns (ok: bool)
      requires Valid() && name in containers
      modifies this`containers, this`live, this`failures
      ensures Valid() && name in containers && failures >= old(failures)
      ensures !ok && old(containers)[name].managed ==> failures > old(failures)
      ensures live == old(live) || live == old(live)[name := DirOf(dirs, dir)]
      ensures ok ==> live == old(live)[name := DirOf(dirs, dir)]
      ensures containers == old(containers)[name := old(containers)[name].(state := containers[name].state)]
      ensures ok ==> containers[name].state == Running
    {
      var fails, effect := Luck();
      if !containers[name].managed {
        assert containers == containers[name := containers[name]];
        return false;
      }
      var state: State := *;
      state := if !fails then Running else if effect then state else containers[name].state;
      containers := containers[name := containers[name].(state := state)];
      if effect {
        live := live[name := DirOf(dirs, dir)];
      }
      return !fails;
    }

    /** Has a running container set itself up from its directory again. */
    method Sync(name: string, dir: string) returns (ok: bool)
      modifies this`live, this`failures
      ensures failures == old(failures) + if ok then 0 else 1
      ensures live == old(live) || live == old(live)[name := DirOf(dirs, dir)]
      ensures ok ==> live == old(live)[name := DirOf(dirs, dir)]
    {
      var fails, effect := Luck();
      if effect {
        live := live[name := DirOf(dirs, dir)];
      }
      return !fails;
    }

    /** Puts a directory's files in place: one file is replaced, or goes, in one step. */
    method WriteFiles(name: string, dir: Dir) returns (ok: bool)
      modifies this`dirs, this`failures
      ensures failures == old(failures) + if ok then 0 else 1
      ensures dirs == old(dirs) || dirs == old(dirs)[name := dir]
      ensures ok ==> dirs == old(dirs)[name := dir]
    {
      var fails, effect := Luck();
      if effect {
        dirs := dirs[name := dir];
      }
      return !fails;
    }

    method ReadDir() returns (r: Option<set<string>>)
      modifies this`failures
      ensures failures == old(failures) + if r.None? then 1 else 0
      ensures r.Some? ==> r.value == dirs.Keys
    {
      var fails, _ := Luck();
      r := if fails then None else Some(dirs.Keys);
    }

    method RemoveDir(name: string) returns (ok: bool)
      modifies this`dirs, this`failures
      ensures failures == old(failures) + if ok then 0 else 1
      ensures dirs == old(dirs) || dirs == old(dirs) - {name}
      ensures ok ==> dirs == old(dirs) - {name}
    {
      var fails, effect := Luck();
      if effect {
        dirs := dirs - {name};
      }
      return !fails;
    }
  }
}
