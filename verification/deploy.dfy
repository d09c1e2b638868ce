/** Running instances as containers: config, deploy and apply. */
module Deployment {
  import opened Hosts
  import opened Names
  import opened ServerConfigs
  import opened WgLimits
  import opened Wrappers

  datatype Instance = Instance(id: nat, node: nat, settings: string, dnsOnServer: bool, dns: seq<string>)

  /** What the database says, at the time it is read. */
  datatype Db = Db(instances: seq<Instance>, peers: nat -> seq<Peer>, usage: Usage, now: int)

  function DirName(inst: Instance): string {
    Decimal(inst.id)
  }

  function ContainerName(prefix: string, inst: Instance): string {
    prefix + Decimal(inst.id)
  }

  /** The label alone does not make a container ours: another panel sets it too, under names of its own. */
  predicate Owns(prefix: string, name: string, c: Container) {
    c.managed && c.tag.Some? && name == prefix + c.tag.value
  }

  function FreshMap(db: Db, inst: Instance): BlockedMap {
    BlockedOf(db.peers(inst.id), db.usage, db.now)
  }

  function ResolverOf(inst: Instance): Option<seq<string>> {
    if inst.dnsOnServer then Some(inst.dns) else None
  }

  function SpeedsOf(allowed: seq<Peer>): Option<seq<Peer>> {
    if Shaped(allowed) == [] then None else Some(Shaped(allowed))
  }

  /** The config directory the database asks for. */
  function WantedDir(db: Db, inst: Instance): Dir {
    var allowed := Allowed(db.peers(inst.id), FreshMap(db, inst));
    Dir(Some((inst.settings, Enabled(allowed))), ResolverOf(inst), SpeedsOf(allowed))
  }

  /** Which lists exactly the active peers. */
  lemma WantedIsActive(db: Db, inst: Instance)
    requires Distinct(db.peers(inst.id))
    ensures WantedDir(db, inst).server == Some((inst.settings, ActivePeers(db.peers(inst.id), db.usage, db.now)))
    ensures WantedDir(db, inst).resolver.Some? <==> inst.dnsOnServer
    ensures inst.dnsOnServer ==> WantedDir(db, inst).resolver.value == inst.dns
    ensures var shaped := WithSpeed(ActivePeers(db.peers(inst.id), db.usage, db.now));
            WantedDir(db, inst).speeds == if shaped == [] then None else Some(shaped)
  {
    ShapedIsActive(db.peers(inst.id), db.usage, db.now);
    ListedIsActive(db.peers(inst.id), db.usage, db.now);
  }

  /** The container was last set up with these files. */
  predicate RunsAs(live: Live, name: string, dir: Dir) {
    name in live && live[name] == dir
  }

  /** A container just deployed. */
  predicate Deployed(c: Container, inst: Instance, image: string, start: bool, from: nat) {
    c.id >= from && c.tag == Some(Decimal(inst.id)) && c.image == image && c.managed
    && c.state == if start then Running else Created
  }

  /** A container that no panel made holds the instance's name. */
  predicate Taken(prefix: string, all: Containers, inst: Instance) {
    var n := ContainerName(prefix, inst);
    n in all && !all[n].managed
  }

  /** The two maps agree on every other key. */
  ghost predicate SameBut<V>(a: map<string, V>, b: map<string, V>, keys: set<string>) {
    forall k | k !in keys :: (k in a <==> k in b) && (k in a ==> a[k] == b[k])
  }

  function Reason(blocked: BlockedMap, id: nat): Block {
    if id in blocked then blocked[id] else Free
  }

  /** The peers whose reason changed, with the new one, in order. */
  function ReasonChanges(peers: seq<Peer>, prev: BlockedMap, next: BlockedMap): seq<(nat, Block)> {
    if peers == [] then []
    else
      var n := |peers| - 1;
      var id := peers[n].id;
      ReasonChanges(peers[..n], prev, next)
      + if Reason(prev, id) != Reason(next, id) then [(id, Reason(next, id))] else []
  }

  lemma {:induction false} ReasonChangesAre(peers: seq<Peer>, prev: BlockedMap, next: BlockedMap, id: nat, b: Block)
    ensures (id, b) in ReasonChanges(peers, prev, next) <==>
            b == Reason(next, id) && b != Reason(prev, id) && exists p :: p in peers && p.id == id
  {
    if peers != [] {
      var n := |peers| - 1;
      ReasonChangesAre(peers[..n], prev, next, id, b);
      assert peers == peers[..n] + [peers[n]];
    }
  }

  lemma ReasonIsBlock(peers: seq<Peer>, usage: Usage, now: int, p: Peer)
    requires Distinct(peers) && p in peers
    ensures Reason(BlockedOf(peers, usage, now), p.id) == BlockOf(p, usage, now)
  {
    var i :| 0 <= i < |peers| && peers[i] == p;
    BlockedAt(peers, usage, now, i);
  }

  /**
   Between a config written at one time and an enforcement at another exactly the peers
   that are blocked for another reason, or not any more, are reported, with the new one.
   */
  lemma ReportedIsChanged(peers: seq<Peer>, was: Usage, before: int, usage: Usage, now: int, id: nat, b: Block)
    requires Distinct(peers)
    ensures (id, b) in ReasonChanges(peers, BlockedOf(peers, was, before), BlockedOf(peers, usage, now)) <==>
            exists p :: p in peers && p.id == id && BlockOf(p, usage, now) == b && BlockOf(p, was, before) != b
  {
    var prev, next := BlockedOf(peers, was, before), BlockedOf(peers, usage, now);
    ReasonChangesAre(peers, prev, next, id, b);
    forall p | p in peers
      ensures Reason(prev, p.id) == BlockOf(p, was, before) && Reason(next, p.id) == BlockOf(p, usage, now)
    {
      ReasonIsBlock(peers, was, before, p);
      ReasonIsBlock(peers, usage, now, p);
    }
  }

  /** The config on the machine is the one the peers give with the remembered map. */
  predicate InStep(blocked: map<nat, BlockedMap>, dirs: Dirs, db: Db, inst: Instance) {
    inst.id in blocked ==>
      DirName(inst) in dirs
      && dirs[DirName(inst)].server == Some((inst.settings, Listed(db.peers(inst.id), blocked[inst.id])))
  }

  /** What a deploy makes is ours, whatever state it is in later. */
  lemma DeployedIsOurs(
    prefix: string, inst: Instance, image: string, start: bool, from: nat, c: Container, later: State)
    requires Deployed(c, inst, image, start, from)
    ensures Owns(prefix, ContainerName(prefix, inst), c.(state := later))
  {
  }

  class Manager {
    const prefix: string
    const image: string
    /** By instance, the blocked peers that its config on the machine leaves out. */
    var blocked: map<nat, BlockedMap>
    /** Nodes to rebuild when they next come up. */
    var rebuild: set<nat>
    var events: seq<(nat, Block)>

    constructor (prefix: string, image: string)
      requires IsPrefix(prefix)
      ensures this.prefix == prefix && this.image == image
      ensures blocked == map[] && rebuild == {} && events == []
    {
      this.prefix, this.image := prefix, image;
      blocked, rebuild, events := map[], {}, [];
    }

    /** Writes an instance's files one by one; the map is remembered once all are in place. */
    method WriteConfig(h: Host, db: Db, inst: Instance) returns (ok: bool)
      modifies this`blocked, h`dirs, h`failures
      ensures h.failures >= old(h.failures) + if ok then 0 else 1
      ensures SameBut(h.dirs, old(h.dirs), {DirName(inst)}) && old(h.dirs).Keys <= h.dirs.Keys
      ensures ok ==> DirName(inst) in h.dirs && h.dirs[DirName(inst)] == WantedDir(db, inst)
      ensures blocked == if ok then old(blocked)[inst.id := FreshMap(db, inst)] else old(blocked)
    {
      var dir := DirName(inst);
      var next := BlockedPeers(db.peers(inst.id), db.usage, db.now);
      var allowed := Allowed(db.peers(inst.id), next);
      ok := h.WriteFiles(dir, DirOf(h.dirs, dir).(server := Some((inst.settings, Enabled(allowed)))));
      if !ok {
        return;
      }
      ok := h.WriteFiles(dir, h.dirs[dir].(resolver := ResolverOf(inst)));
      if !ok {
        return;
      }
      ok := h.WriteFiles(dir, h.dirs[dir].(speeds := SpeedsOf(allowed)));
      if !ok {
        return;
      }
      blocked := blocked[inst.id := next];
    }

    /** Replaces an instance's container; nothing else on the machine changes, whatever fails. */
    method Deploy(h: Host, db: Db, inst: Instance, start: bool) returns (ok: bool)
      requires h.Valid()
      modifies this`blocked, h
      ensures h.Valid() && h.nextId >= old(h.nextId)
      ensures h.failures >= old(h.failures) + if ok || Taken(prefix, old(h.containers), inst) then 0 else 1
      ensures SameBut(h.dirs, old(h.dirs), {DirName(inst)}) && old(h.dirs).Keys <= h.dirs.Keys
      ensures SameBut(h.containers, old(h.containers), {ContainerName(prefix, inst)})
      ensures SameBut(h.live, old(h.live), {ContainerName(prefix, inst)})
      ensures ok && start ==> RunsAs(h.live, ContainerName(prefix, inst), WantedDir(db, inst))
      ensures ok ==> DirName(inst) in h.dirs && h.dirs[DirName(inst)] == WantedDir(db, inst)
      ensures ok ==> var n := ContainerName(prefix, inst);
                n in h.containers && Deployed(h.containers[n], inst, image, start, old(h.nextId))
                && (n in old(h.containers) ==> old(h.containers)[n].managed)
      ensures blocked == old(blocked) || blocked == old(blocked)[inst.id := FreshMap(db, inst)]
    {
      ok := WriteConfig(h, db, inst);
      if !ok {
        return;
      }
      var fails, _ := h.Luck();
      if fails {
        return false;
      }
      var name := ContainerName(prefix, inst);
      var removal := h.RemoveContainer(name);
      if removal == Refused {
        return false;
      }
      ok := h.CreateContainer(name, Decimal(inst.id), image);
      if !ok || !start {
        return;
      }
      ok := h.StartContainer(name, DirName(inst));
    }

    /** Writes the config, and has a running container take it up. */
    method Apply(h: Host, db: Db, inst: Instance) returns (ok: bool)
      modifies this`blocked, h`dirs, h`live, h`failures
      ensures h.failures >= old(h.failures) + if ok then 0 else 1
      ensures SameBut(h.live, old(h.live), {ContainerName(prefix, inst)})
      ensures var n := ContainerName(prefix, inst);
              ok && n in h.containers && h.containers[n].state == Running ==> RunsAs(h.live, n, WantedDir(db, inst))
      ensures SameBut(h.dirs, old(h.dirs), {DirName(inst)}) && old(h.dirs).Keys <= h.dirs.Keys
      ensures ok ==> DirName(inst) in h.dirs && h.dirs[DirName(inst)] == WantedDir(db, inst)
      ensures ok ==> blocked == old(blocked)[inst.id := FreshMap(db, inst)]
      ensures blocked == old(blocked) || blocked == old(blocked)[inst.id := FreshMap(db, inst)]
    {
      ok := WriteConfig(h, db, inst);
      if !ok {
        return;
      }
      var r := h.InspectContainer(ContainerName(prefix, inst));
      if r.Err? {
        return false;
      }
      if r.value.Some? && r.value.value.state == Running {
        ok := h.Sync(ContainerName(prefix, inst), DirName(inst));
      }
    }

    /**
     A config in step with the remembered map lists exactly the active peers afterwards,
     written again or not, and the peers whose reason changed are reported if the one
     before is known.
     */
    method EnforceLimits(h: Host, db: Db, inst: Instance) returns (ok: bool)
      requires Distinct(db.peers(inst.id))
      modifies this`blocked, this`events, h`dirs, h`live, h`failures
      ensures h.failures >= old(h.failures) + if ok then 0 else 1
      ensures var n := ContainerName(prefix, inst);
              ok && n in h.containers && h.containers[n].state == Running
              && !(inst.id in old(blocked) && old(blocked)[inst.id] == FreshMap(db, inst)) ==>
                RunsAs(h.live, n, WantedDir(db, inst))
      ensures SameBut(h.dirs, old(h.dirs), {DirName(inst)}) && old(h.dirs).Keys <= h.dirs.Keys
      ensures ok && InStep(old(blocked), old(h.dirs), db, inst) ==>
                DirName(inst) in h.dirs
                && h.dirs[DirName(inst)].server ==
                   Some((inst.settings, ActivePeers(db.peers(inst.id), db.usage, db.now)))
      ensures ok && InStep(old(blocked), old(h.dirs), db, inst) ==> InStep(blocked, h.dirs, db, inst)
      ensures blocked == old(blocked) || blocked == old(blocked)[inst.id := FreshMap(db, inst)]
      ensures inst.id in old(blocked) && old(blocked)[inst.id] == FreshMap(db, inst) ==>
                ok && h.dirs == old(h.dirs) && h.live == old(h.live) && blocked == old(blocked) && events == old(events)
      ensures ok ==> inst.id in blocked && blocked[inst.id] == FreshMap(db, inst)
      ensures events == old(events) + if !ok || inst.id !in old(blocked) then []
                                      else ReasonChanges(db.peers(inst.id), old(blocked)[inst.id], FreshMap(db, inst))
    {
      var peers := db.peers(inst.id);
      var next := BlockedPeers(peers, db.usage, db.now);
      var known := inst.id in blocked;
      var prev: BlockedMap := if known then blocked[inst.id] else map[];
      WantedIsActive(db, inst);
      ListedIsActive(peers, db.usage, db.now);
      if known && prev == next {
        NoChanges(peers, prev);
        return true;
      }
      ok := Apply(h, db, inst);
      if !ok || !known {
        return;
      }
      RecordChanges(peers, prev, next);
    }

    method RecordChanges(peers: seq<Peer>, prev: BlockedMap, next: BlockedMap)
      modifies this`events
      ensures events == old(events) + ReasonChanges(peers, prev, next)
    {
      ghost var before := events;
      for i := 0 to |peers|
        invariant events == before + ReasonChanges(peers[..i], prev, next)
      {
        assert peers[..i + 1][..i] == peers[..i];
        if Reason(prev, peers[i].id) != Reason(next, peers[i].id) {
          events := events + [(peers[i].id, Reason(next, peers[i].id))];
        }
      }
      assert peers[..|peers|] == peers;
    }
  }

  /** Writing one instance's config leaves the others in step, whatever came of it. */
  lemma OthersStayInStep(was: map<nat, BlockedMap>, now: map<nat, BlockedMap>, dirsWas: Dirs, dirs: Dirs, db: Db,
                         inst: Instance, other: Instance)
    requires SameBut(dirs, dirsWas, {DirName(inst)}) && other.id != inst.id
    requires now == was || now == was[inst.id := FreshMap(db, inst)]
    requires InStep(was, dirsWas, db, other)
    ensures InStep(now, dirs, db, other)
  {
    if DirName(other) == DirName(inst) {
      DecimalInjective(other.id, inst.id);
    }
  }

  lemma {:induction false} NoChanges(peers: seq<Peer>, blocked: BlockedMap)
    ensures ReasonChanges(peers, blocked, blocked) == []
  {
    if peers != [] {
      NoChanges(peers[..|peers| - 1], blocked);
    }
  }
}
