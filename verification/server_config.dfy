/** What a server's config lists, and when it is safe not to write it again. */
module ServerConfigs {
  import opened WgLimits
  import opened Wrappers

  /** A device as its server's config sees it. */
  datatype Peer = Peer(id: nat, limits: Limits, entry: string, speedLimit: nat)

  /** What counts toward each peer's limit; a peer without a row has used nothing. */
  type Usage = nat -> Traffic

  /** Peers kept off the tunnel, with the reason. */
  type BlockedMap = map<nat, Block>

  function BlockOf(p: Peer, usage: Usage, now: int): Block {
    Blocked(p.limits, usage(p.id), now)
  }

  function PeerStatus(p: Peer, usage: Usage, now: int): Status {
    StatusOf(p.limits, usage(p.id), now)
  }

  /** Ids are a primary key. */
  ghost predicate Distinct(peers: seq<Peer>) {
    forall i, j | 0 <= i < j < |peers| :: peers[i].id != peers[j].id
  }

  /** The reason of every peer that has one. */
  function BlockedOf(peers: seq<Peer>, usage: Usage, now: int): BlockedMap {
    if peers == [] then map[]
    else
      var n := |peers| - 1;
      var rest, b := BlockedOf(peers[..n], usage, now), BlockOf(peers[n], usage, now);
      if b == Free then rest else rest[peers[n].id := b]
  }

  method BlockedPeers(peers: seq<Peer>, usage: Usage, now: int) returns (blocked: BlockedMap)
    ensures blocked == BlockedOf(peers, usage, now)
  {
    blocked := map[];
    for i := 0 to |peers|
      invariant blocked == BlockedOf(peers[..i], usage, now)
    {
      assert peers[..i + 1][..i] == peers[..i];
      var b := BlockOf(peers[i], usage, now);
      if b != Free {
        blocked := blocked[peers[i].id := b];
      }
    }
    assert peers[..|peers|] == peers;
  }

  lemma {:induction false} OnlyKnownIds(peers: seq<Peer>, usage: Usage, now: int, id: nat)
    requires forall i | 0 <= i < |peers| :: peers[i].id != id
    ensures id !in BlockedOf(peers, usage, now)
  {
    if peers != [] {
      OnlyKnownIds(peers[..|peers| - 1], usage, now, id);
    }
  }

  /** What the map says of a peer is its reason. */
  predicate Agrees(p: Peer, blocked: BlockedMap, usage: Usage, now: int) {
    if p.id in blocked then blocked[p.id] == BlockOf(p, usage, now) && blocked[p.id] != Free
    else BlockOf(p, usage, now) == Free
  }

  lemma {:induction false} BlockedAt(peers: seq<Peer>, usage: Usage, now: int, i: nat)
    requires Distinct(peers) && i < |peers|
    ensures Agrees(peers[i], BlockedOf(peers, usage, now), usage, now)
  {
    var n := |peers| - 1;
    if i == n {
      OnlyKnownIds(peers[..n], usage, now, peers[n].id);
    } else {
      BlockedAt(peers[..n], usage, now, i);
    }
  }

  // ---------------------------------------------------------------- the files

  /** The peers that are not blocked, in order. */
  function Allowed(peers: seq<Peer>, blocked: BlockedMap): seq<Peer> {
    if peers == [] then []
    else (if peers[0].id in blocked then [] else [peers[0]]) + Allowed(peers[1..], blocked)
  }

  /** The server config skips what is disabled. */
  function Enabled(peers: seq<Peer>): seq<Peer> {
    if peers == [] then []
    else (if peers[0].limits.enabled then [peers[0]] else []) + Enabled(peers[1..])
  }

  /** Only peers with a speed limit have a line in the limits file. */
  function Shaped(peers: seq<Peer>): seq<Peer> {
    if peers == [] then []
    else (if peers[0].limits.enabled && peers[0].speedLimit > 0 then [peers[0]] else []) + Shaped(peers[1..])
  }

  function ActivePeers(peers: seq<Peer>, usage: Usage, now: int): seq<Peer> {
    if peers == [] then []
    else
      (if PeerStatus(peers[0], usage, now) == Status.Active then [peers[0]] else [])
      + ActivePeers(peers[1..], usage, now)
  }

  /** What a config written with this map lists. */
  function Listed(peers: seq<Peer>, blocked: BlockedMap): seq<Peer> {
    Enabled(Allowed(peers, blocked))
  }

  lemma StatusIsBlock(p: Peer, usage: Usage, now: int)
    ensures PeerStatus(p, usage, now) == Status.Active <==> p.limits.enabled && BlockOf(p, usage, now) == Free
  {
  }

  /** The two filters together leave exactly the active peers, in order. */
  lemma ListedIsActive(peers: seq<Peer>, usage: Usage, now: int)
    requires Distinct(peers)
    ensures Listed(peers, BlockedOf(peers, usage, now)) == ActivePeers(peers, usage, now)
  {
    var blocked := BlockedOf(peers, usage, now);
    forall i | 0 <= i < |peers|
      ensures Agrees(peers[i], blocked, usage, now)
    {
      BlockedAt(peers, usage, now, i);
    }
    FiltersAgree(peers, blocked, usage, now);
  }

  lemma {:induction false} FiltersAgree(peers: seq<Peer>, blocked: BlockedMap, usage: Usage, now: int)
    requires forall i | 0 <= i < |peers| :: Agrees(peers[i], blocked, usage, now)
    ensures Listed(peers, blocked) == ActivePeers(peers, usage, now)
  {
    if peers != [] {
      StatusIsBlock(peers[0], usage, now);
      assert Agrees(peers[0], blocked, usage, now);
      FiltersAgree(peers[1..], blocked, usage, now);
      var rest := Allowed(peers[1..], blocked);
      if peers[0].id !in blocked {
        assert Allowed(peers, blocked) == [peers[0]] + rest;
        assert ([peers[0]] + rest)[1..] == rest;
      } else {
        assert Allowed(peers, blocked) == rest;
      }
    }
  }

  /** The peers of a list that have a speed limit. */
  function WithSpeed(peers: seq<Peer>): seq<Peer> {
    if peers == [] then [] else (if peers[0].speedLimit > 0 then [peers[0]] else []) + WithSpeed(peers[1..])
  }

  /** The limits file has a line for exactly the active peers with a speed limit, in order. */
  lemma ShapedIsActive(peers: seq<Peer>, usage: Usage, now: int)
    requires Distinct(peers)
    ensures Shaped(Allowed(peers, BlockedOf(peers, usage, now))) == WithSpeed(ActivePeers(peers, usage, now))
  {
    ListedIsActive(peers, usage, now);
    ShapedIsEnabled(Allowed(peers, BlockedOf(peers, usage, now)));
  }

  lemma {:induction false} ShapedIsEnabled(peers: seq<Peer>)
    ensures Shaped(peers) == WithSpeed(Enabled(peers))
  {
    if peers != [] {
      ShapedIsEnabled(peers[1..]);
      if peers[0].limits.enabled {
        assert ([peers[0]] + Enabled(peers[1..]))[1..] == Enabled(peers[1..]);
      } else {
        assert Enabled(peers) == Enabled(peers[1..]);
        assert Shaped(peers) == Shaped(peers[1..]);
      }
    }
  }

  // ---------------------------------------------------------------- limits over time

  /** One server: its peers and their usage, the map its config was last written with, and that config. */
  datatype Sys = Sys(peers: seq<Peer>, usage: Usage, now: int, cache: Option<BlockedMap>, config: Option<seq<Peer>>)

  datatype Action =
    | Edit(peers: seq<Peer>)  // peers change, and the config is written for it
    | Pass(usage: Usage, now: int)  // traffic, resets and time
    | Write  // a deploy, a start or a reconcile
    | Forget  // the map is dropped, as by a restore
    | Enforce

  function Fresh(s: Sys): BlockedMap {
    BlockedOf(s.peers, s.usage, s.now)
  }

  function Written(s: Sys): Sys {
    s.(cache := Some(Fresh(s)), config := Some(Listed(s.peers, Fresh(s))))
  }

  function Next(s: Sys, a: Action): Sys {
    match a
    case Edit(peers) => Written(s.(peers := peers))
    case Pass(usage, now) => s.(usage := usage, now := now)
    case Write => Written(s)
    case Forget => s.(cache := None)
    case Enforce => if s.cache.Some? && s.cache.value == Fresh(s) then s else Written(s)
  }

  function After(s: Sys, actions: seq<Action>): Sys
    decreases |actions|
  {
    if actions == [] then s else After(Next(s, actions[0]), actions[1..])
  }

  /** The config is the one the current peers give with the remembered map. */
  ghost predicate Inv(s: Sys) {
    Distinct(s.peers) && (s.cache.Some? ==> s.config == Some(Listed(s.peers, s.cache.value)))
  }

  ghost predicate KeysKept(actions: seq<Action>) {
    forall a | a in actions && a.Edit? :: Distinct(a.peers)
  }

  lemma {:induction false} RunKeeps(s: Sys, actions: seq<Action>)
    requires Inv(s) && KeysKept(actions)
    ensures Inv(After(s, actions))
    decreases |actions|
  {
    if actions != [] {
      assert actions[0] in actions;
      RunKeeps(Next(s, actions[0]), actions[1..]);
    }
  }

  /** On every run, after an enforcement the config lists exactly the active peers: a write left out was not needed. */
  lemma EnforceIsExact(s: Sys, actions: seq<Action>)
    requires Inv(s) && KeysKept(actions)
    ensures var t := Next(After(s, actions), Enforce); t.config == Some(ActivePeers(t.peers, t.usage, t.now))
  {
    RunKeeps(s, actions);
    var t := After(s, actions);
    ListedIsActive(t.peers, t.usage, t.now);
  }

  // ---------------------------------------------------------------- a write cut short

  /** The config file is written, a later file fails, and the map stays as it was. */
  function HalfWritten(s: Sys): Sys {
    s.(config := Some(Listed(s.peers, Fresh(s))))
  }

  /**
   An enforcement leaves the active peers listed exactly when it writes, or the config is
   the one the current peers give with the remembered map. A write cut short is made good
   as soon as the map is another one than the last whole write left.
   */
  lemma EnforceIsRight(s: Sys)
    requires Distinct(s.peers)
    ensures Next(s, Enforce).config == Some(ActivePeers(s.peers, s.usage, s.now))
            <==> s.cache.None? || s.cache.value != Fresh(s) || s.config == Some(Listed(s.peers, s.cache.value))
  {
    ListedIsActive(s.peers, s.usage, s.now);
  }

  lemma OnePeer(p: Peer, blocked: BlockedMap, usage: Usage, now: int)
    ensures BlockedOf([p], usage, now) ==
            if BlockOf(p, usage, now) == Free then map[] else map[p.id := BlockOf(p, usage, now)]
    ensures Listed([p], blocked) == if p.id !in blocked && p.limits.enabled then [p] else []
    ensures ActivePeers([p], usage, now) == if PeerStatus(p, usage, now) == Status.Active then [p] else []
  {
    assert [p][..0] == [] && [p][1..] == [];
    assert BlockedOf([p][..0], usage, now) == map[];
    assert Allowed([p][1..], blocked) == [];
    assert Enabled([p][1..]) == [];
  }

  /** A device that is over its limit late in a month, and below it before and once the next month has begun. */
  predicate MonthTurns(p: Peer, before: Usage, over: Usage, after: Usage, now: int, late: int, next: int) {
    && p.limits.enabled && now <= late <= next
    && BlockOf(p, before, now) == Free && BlockOf(p, over, late) != Free && BlockOf(p, after, next) == Free
  }

  /**
   Until then it can stick: the device goes over its limit, the config that leaves it out
   is written but the write fails after that, the month turns, and it stays out though it
   is active again.
   */
  lemma HalfWriteSticks(p: Peer, over: Usage, after: Usage, late: int, next: int, s: Sys, half: Sys, back: Sys)
    requires MonthTurns(p, s.usage, over, after, s.now, late, next) && s.peers == [p] && s == Written(s)
    requires half == HalfWritten(Next(s, Pass(over, late))) && back == Next(half, Pass(after, next))
    ensures Inv(s) && Next(back, Enforce) == back
    ensures back.config.Some? && back.config.value == [] && ActivePeers(back.peers, back.usage, back.now) == [p]
  {
    StatusIsBlock(p, after, next);
    OnePeer(p, Fresh(s), s.usage, s.now);
    OnePeer(p, BlockedOf([p], over, late), over, late);
    OnePeer(p, Fresh(back), after, next);
  }

  /** There are such devices: one with a limit of ten bytes a month that used ten. */
  lemma MonthTurnExists(p: Peer, none: Usage, ten: Usage, now: int, late: int, next: int)
    requires p.limits == Limits(true, 10, None) && now <= late <= next
    requires none(p.id).Total() == 0 && ten(p.id).Total() == 10
    ensures MonthTurns(p, none, ten, none, now, late, next)
  {
  }

  /** So an enforcement can leave an active device out. */
  lemma HalfWriteExample(p: Peer, none: Usage, ten: Usage, late: int, next: int, s: Sys) returns (back: Sys)
    requires p.limits == Limits(true, 10, None) && none(p.id).Total() == 0 && ten(p.id).Total() == 10
    requires s.peers == [p] && s.usage == none && s == Written(s) && s.now <= late <= next
    ensures back == Next(HalfWritten(Next(s, Pass(ten, late))), Pass(none, next)) && back.config.Some?
    ensures Next(back, Enforce).config.value == [] && ActivePeers(back.peers, back.usage, back.now) == [p]
  {
    MonthTurnExists(p, none, ten, s.now, late, next);
    var half := HalfWritten(Next(s, Pass(ten, late)));
    back := Next(half, Pass(none, next));
    HalfWriteSticks(p, ten, none, late, next, s, half, back);
  }
}
