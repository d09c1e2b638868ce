/** What readings of WireGuard's counters add up to, though these start over when a peer is off its interface. */
module Counters {
  import opened TrafficLog
  import opened WgLimits
  import opened Wrappers

  /** Once one of the two counters went down, both started over and all they show is new. */
  function Growth(last: Traffic, now: Traffic): Traffic {
    if now.rx < last.rx || now.tx < last.tx then now else now.Minus(last)
  }

  /** What one reading adds: with no earlier reading, or no peer on the interface, nothing. */
  function Used(last: Option<Traffic>, reading: Option<Traffic>): Traffic {
    if last.Some? && reading.Some? then Growth(last.value, reading.value) else ZERO
  }

  function NextCounter(last: Option<Traffic>, reading: Option<Traffic>): Option<Traffic> {
    if reading.Some? then reading
    else if last.Some? then Some(ZERO)
    else None
  }

  lemma UsedNonNegative(last: Option<Traffic>, reading: Option<Traffic>)
    requires reading.Some? ==> reading.value.NonNegative()
    ensures Used(last, reading).NonNegative()
  {
  }

  // ---------------------------------------------------------------- the wire

  type Server = nat

  /** What can happen to one peer between and at the panel's readings. */
  datatype Wire =
    | Carry(at: Server, bytes: Traffic)  // traffic through its interface on a server
    | Restart(at: Server)                // that server's container restarts: counters at zero
    | Leave(at: Server)                  // off that server's interface, by a config written there
    | Join                               // on the interface of its own server
    | Move(to: Server)                   // another server in the table; no interface changes yet
    | Read(day: nat)                     // the panel reads its own server's interface and records it

  /**
   The peer on one server: the kernel's count, and how much of it no reading is to count
   any more, because one did or because it came before the first.
   */
  datatype Iface = Iface(on: bool, kernel: Traffic, base: Traffic)

  const OFF := Iface(false, ZERO, ZERO)

  /**
   `counted` is what the readings added, `carried` every byte since there is an earlier
   reading to measure from, `lost` what no reading will ever see, and `again` what was
   counted though it was not to be.
   */
  datatype Link = Link(server: Server, ifaces: map<Server, Iface>, last: Option<Traffic>,
                       counted: Traffic, lost: Traffic, carried: Traffic, again: Traffic)

  function Start(server: Server): Link {
    Link(server, map[], None, ZERO, ZERO, ZERO, ZERO)
  }

  function IfaceAt(l: Link, s: Server): Iface {
    if s in l.ifaces then l.ifaces[s] else OFF
  }

  function Unread(i: Iface): Traffic {
    i.kernel.Minus(i.base)
  }

  /** How far one amount is above another, in each direction. */
  function Excess(a: Traffic, b: Traffic): (e: Traffic)
    ensures e.rx == Max(0, a.rx - b.rx) && e.tx == Max(0, a.tx - b.tx)
  {
    Clamp(a.Minus(b))
  }

  function Reset(l: Link, s: Server, on: bool): Link {
    l.(ifaces := l.ifaces[s := Iface(on, ZERO, ZERO)], lost := l.lost.Plus(Unread(IfaceAt(l, s))))
  }

  function Carried(l: Link, s: Server, bytes: Traffic): Link {
    var i := IfaceAt(l, s);
    var kernel := i.kernel.Plus(bytes);
    if l.last.None? then l.(ifaces := l.ifaces[s := i.(kernel := kernel, base := kernel)])
    else l.(ifaces := l.ifaces[s := i.(kernel := kernel)], carried := l.carried.Plus(bytes))
  }

  function ReadingAt(l: Link): Option<Traffic> {
    var i := IfaceAt(l, l.server);
    if i.on then Some(i.kernel) else None
  }

  function Recorded(l: Link): Link {
    var i, used := IfaceAt(l, l.server), Used(l.last, ReadingAt(l));
    if !i.on || l.last.None? then l.(last := NextCounter(l.last, ReadingAt(l)))
    else
      l.(last := NextCounter(l.last, ReadingAt(l)),
         ifaces := l.ifaces[l.server := i.(base := i.kernel)],
         counted := l.counted.Plus(used),
         lost := l.lost.Plus(Excess(Unread(i), used)),
         again := l.again.Plus(Excess(used, Unread(i))))
  }

  function Step(l: Link, w: Wire): Link {
    match w
    case Carry(s, bytes) => if IfaceAt(l, s).on then Carried(l, s, bytes) else l
    case Restart(s) => if IfaceAt(l, s).on then Reset(l, s, true) else l
    case Leave(s) => Reset(l, s, false)
    case Join => if IfaceAt(l, l.server).on then l else Reset(l, l.server, true)
    case Move(to) => l.(server := to, last := Some(ZERO))
    case Read(_) => Recorded(l)
  }

  function Run(server: Server, wires: seq<Wire>): Link {
    if wires == [] then Start(server) else Step(Run(server, wires[..|wires| - 1]), wires[|wires| - 1])
  }

  ghost predicate RealTraffic(wires: seq<Wire>) {
    forall w | w in wires && w.Carry? :: w.bytes.NonNegative()
  }

  // ---------------------------------------------------------------- the unread bytes of all servers

  function UnreadBy(ifaces: map<Server, Iface>): Days {
    map s | s in ifaces :: Unread(ifaces[s])
  }

  ghost function TotalUnread(l: Link): Traffic {
    Sum(UnreadBy(l.ifaces), l.ifaces.Keys)
  }

  /** Changing one interface changes the total by as much. */
  lemma UnreadUpdate(l: Link, l': Link, s: Server, i: Iface)
    requires l'.ifaces == l.ifaces[s := i]
    ensures TotalUnread(l').rx == TotalUnread(l).rx - Unread(IfaceAt(l, s)).rx + Unread(i).rx
    ensures TotalUnread(l').tx == TotalUnread(l).tx - Unread(IfaceAt(l, s)).tx + Unread(i).tx
  {
    var before, after := UnreadBy(l.ifaces), UnreadBy(l'.ifaces);
    SumRemove(after, l'.ifaces.Keys, s);
    assert l'.ifaces.Keys - {s} == l.ifaces.Keys - {s};
    SumSame(before, after, l.ifaces.Keys - {s});
    if s in l.ifaces {
      SumRemove(before, l.ifaces.Keys, s);
    } else {
      assert l.ifaces.Keys - {s} == l.ifaces.Keys;
    }
  }

  // ---------------------------------------------------------------- what every run keeps

  predicate IfaceOk(i: Iface) {
    i.base.NonNegative() && i.kernel.Covers(i.base) && (!i.on ==> i.kernel == ZERO)
  }

  ghost predicate IfacesOk(l: Link) {
    forall s | s in l.ifaces :: IfaceOk(l.ifaces[s])
  }

  /** The stored reading is what was seen of the interface, unless that restarted or the peer was moved. */
  predicate CounterOk(last: Traffic, base: Traffic) {
    last.NonNegative() && (base == last || base == ZERO || last == ZERO)
  }

  ghost predicate Balanced(l: Link) {
    && l.counted.rx + l.lost.rx + TotalUnread(l).rx == l.carried.rx + l.again.rx
    && l.counted.tx + l.lost.tx + TotalUnread(l).tx == l.carried.tx + l.again.tx
  }

  /** Before there is a reading to measure from, nothing is there to be counted. */
  ghost predicate NothingUnread(l: Link) {
    forall s | s in l.ifaces :: l.ifaces[s].base == l.ifaces[s].kernel
  }

  ghost predicate Inv(l: Link) {
    && IfacesOk(l) && Balanced(l)
    && l.lost.NonNegative() && l.again.NonNegative()
    && (l.last.Some? ==> CounterOk(l.last.value, IfaceAt(l, l.server).base))
    && (l.last.None? ==> NothingUnread(l) && l.counted == ZERO && l.carried == ZERO && l.again == ZERO)
  }

  lemma ResetKeeps(l: Link, s: Server, on: bool)
    requires Inv(l)
    ensures Inv(Reset(l, s, on))
  {
    UnreadUpdate(l, Reset(l, s, on), s, Iface(on, ZERO, ZERO));
  }

  lemma CarriedKeeps(l: Link, s: Server, bytes: Traffic)
    requires Inv(l) && bytes.NonNegative() && IfaceAt(l, s).on
    ensures Inv(Carried(l, s, bytes))
  {
    var t := Carried(l, s, bytes);
    UnreadUpdate(l, t, s, t.ifaces[s]);
  }

  lemma MoveKeeps(l: Link, to: Server)
    requires Inv(l)
    ensures Inv(Step(l, Move(to)))
  {
  }

  /** Right after a move to an interface that holds bytes accounted for before it, which would be counted again. */
  predicate Stale(l: Link) {
    l.last.Some? && IfaceAt(l, l.server).on && l.last.value == ZERO && IfaceAt(l, l.server).base != ZERO
  }

  /**
   A reading adds no more than what is unread exactly when it does not come after a move
   to an interface that still holds bytes accounted for before it.
   */
  lemma ReadingIsClean(l: Link)
    requires Inv(l) && l.last.Some? && IfaceAt(l, l.server).on
    ensures Unread(IfaceAt(l, l.server)).Covers(Used(l.last, ReadingAt(l))) <==> !Stale(l)
    ensures Recorded(l).again == l.again <==> !Stale(l)
  {
    var i := IfaceAt(l, l.server);
    assert IfaceOk(i);
    GrowthIs(l.last.value, i);
    assert Recorded(l).again.rx == l.again.rx + Max(0, Growth(l.last.value, i.kernel).rx - Unread(i).rx);
    assert Recorded(l).again.tx == l.again.tx + Max(0, Growth(l.last.value, i.kernel).tx - Unread(i).tx);
  }

  /**
   And it misses nothing exactly when nothing was dropped since the last one, or it can
   tell that something was, by either counter, or it counts too much.
   */
  lemma ReadingIsWhole(l: Link)
    requires Inv(l) && l.last.Some? && IfaceAt(l, l.server).on
    ensures var i := IfaceAt(l, l.server);
            Recorded(l).lost == l.lost <==> Stale(l) || i.base == l.last.value || !i.kernel.Covers(l.last.value)
  {
    var i := IfaceAt(l, l.server);
    assert IfaceOk(i);
    var used := Used(l.last, ReadingAt(l));
    assert Recorded(l).lost.rx == l.lost.rx + Max(0, Unread(i).rx - used.rx);
    assert Recorded(l).lost.tx == l.lost.tx + Max(0, Unread(i).tx - used.tx);
  }

  /** A reading that finds the peer absent makes the next one that finds it, back from zero, miss nothing. */
  lemma AbsenceIsNoticed(l: Link, t: Link)
    requires Inv(l) && l.last.Some? && !IfaceAt(l, l.server).on
    requires Inv(t) && t.last == Recorded(l).last && IfaceAt(t, t.server).on && IfaceAt(t, t.server).base == ZERO
    ensures Recorded(t).lost == t.lost && Recorded(t).again == t.again
  {
    ReadingIsWhole(t);
    ReadingIsClean(t);
  }

  lemma GrowthIs(last: Traffic, i: Iface)
    requires IfaceOk(i) && CounterOk(last, i.base)
    ensures Growth(last, i.kernel).NonNegative()
    ensures Unread(i).Covers(Growth(last, i.kernel)) <==> !(last == ZERO && i.base != ZERO)
    ensures i.base == last ==> Growth(last, i.kernel) == Unread(i)
  {
  }

  /** What a reading counts, in either case. */
  lemma RecordedCounts(l: Link)
    ensures Recorded(l).last == NextCounter(l.last, ReadingAt(l))
    ensures Recorded(l).counted == l.counted.Plus(Used(l.last, ReadingAt(l)))
  {
  }

  lemma RecordedKeeps(l: Link)
    requires Inv(l)
    ensures Inv(Recorded(l))
  {
    var i := IfaceAt(l, l.server);
    if l.last.Some? && i.on {
      var t := Recorded(l);
      UnreadUpdate(l, t, l.server, t.ifaces[l.server]);
    }
  }

  lemma Keeps(l: Link, w: Wire)
    requires Inv(l) && (w.Carry? ==> w.bytes.NonNegative())
    ensures Inv(Step(l, w))
  {
    match w
    case Carry(s, bytes) => if IfaceAt(l, s).on { CarriedKeeps(l, s, bytes); }
    case Restart(s) => ResetKeeps(l, s, true);
    case Leave(s) => ResetKeeps(l, s, false);
    case Join => ResetKeeps(l, l.server, true);
    case Move(to) => MoveKeeps(l, to);
    case Read(_) => RecordedKeeps(l);
  }

  lemma {:induction false} RunKeeps(server: Server, wires: seq<Wire>)
    requires RealTraffic(wires)
    ensures Inv(Run(server, wires))
  {
    if wires != [] {
      var before, w := wires[..|wires| - 1], wires[|wires| - 1];
      assert forall x | x in before :: x in wires;
      assert w in wires;
      RunKeeps(server, before);
      Keeps(Run(server, before), w);
    }
  }

  // ---------------------------------------------------------------- nothing is counted twice, and when something is

  /** No reading after a move finds bytes accounted for before it. */
  ghost predicate Clean(server: Server, wires: seq<Wire>) {
    wires != [] ==>
      var before, w := wires[..|wires| - 1], wires[|wires| - 1];
      Clean(server, before) && (w.Read? ==> !Stale(Run(server, before)))
  }

  lemma {:induction false} AgainIsStale(server: Server, wires: seq<Wire>)
    requires RealTraffic(wires)
    ensures Run(server, wires).again == ZERO <==> Clean(server, wires)
  {
    if wires != [] {
      var before, w := wires[..|wires| - 1], wires[|wires| - 1];
      assert forall x | x in before :: x in wires;
      AgainIsStale(server, before);
      RunKeeps(server, before);
      var l := Run(server, before);
      if w.Read? {
        if l.last.Some? && IfaceAt(l, l.server).on {
          ReadingIsClean(l);
        }
        AgainGrows(l);
      }
    }
  }

  lemma AgainGrows(l: Link)
    requires Inv(l)
    ensures Recorded(l).again.Covers(l.again)
  {
  }

  /**
   Over any run of readings, restarts, absences and moves, what was counted, lost and not
   yet read adds up to what was carried and what was counted again. Nothing is counted
   again exactly when no reading after a move finds an interface that still holds bytes
   accounted for before it; then no more is counted than was carried.
   */
  lemma Conservation(server: Server, wires: seq<Wire>)
    requires RealTraffic(wires)
    ensures var l := Run(server, wires);
            && Balanced(l)
            && l.lost.NonNegative() && TotalUnread(l).NonNegative() && l.again.NonNegative()
            && (l.again == ZERO <==> Clean(server, wires))
            && (Clean(server, wires) ==> l.carried.Covers(l.counted))
  {
    RunKeeps(server, wires);
    AgainIsStale(server, wires);
    var l := Run(server, wires);
    SumNonNegative(UnreadBy(l.ifaces), l.ifaces.Keys);
  }

  function HeldNext(l: Link, w: Wire, held: set<Server>): set<Server> {
    match w
    case Move(_) => held + {l.server}
    case Leave(s) => held - {s}
    case Restart(s) => held - {s}
    case _ => held
  }

  /** The servers the peer was moved away from that have not let it go since. */
  function Held(server: Server, wires: seq<Wire>): set<Server> {
    if wires == [] then {}
    else
      var before := wires[..|wires| - 1];
      HeldNext(Run(server, before), wires[|wires| - 1], Held(server, before))
  }

  /** Between a move away from a server and the next reading that finds the peer there, that interface drops it. */
  ghost predicate LetGo(server: Server, wires: seq<Wire>) {
    wires != [] ==>
      var before, w := wires[..|wires| - 1], wires[|wires| - 1];
      var l := Run(server, before);
      LetGo(server, before) && (w.Read? && IfaceAt(l, l.server).on ==> l.server !in Held(server, before))
  }

  /** Only an interface that has not let the peer go holds bytes the stored reading does not know of. */
  ghost predicate HeldOnly(l: Link, held: set<Server>) {
    && (forall s | s in l.ifaces && l.ifaces[s].base != ZERO && s !in held ::
          s == l.server && (l.last.Some? ==> l.ifaces[s].base == l.last.value))
    && (l.last.None? ==> forall s | s in l.ifaces && l.ifaces[s].on :: s == l.server)
  }

  lemma HeldOnlyReset(l: Link, s: Server, on: bool, held: set<Server>)
    requires HeldOnly(l, held) && (on ==> s == l.server || l.last.Some?)
    ensures HeldOnly(Reset(l, s, on), held - {s}) && HeldOnly(Reset(l, s, on), held)
  {
  }

  lemma HeldOnlyStep(l: Link, w: Wire, held: set<Server>)
    requires HeldOnly(l, held) && (w.Read? && IfaceAt(l, l.server).on ==> l.server !in held) && IfacesOk(l)
    requires l.last.None? ==> NothingUnread(l)
    ensures HeldOnly(Step(l, w), HeldNext(l, w, held))
  {
    match w
    case Restart(s) => if IfaceAt(l, s).on { HeldOnlyReset(l, s, true, held); }
    case Leave(s) => HeldOnlyReset(l, s, false, held);
    case Join => HeldOnlyReset(l, l.server, true, held);
    case _ =>
  }

  lemma {:induction false} LetGoHolds(server: Server, wires: seq<Wire>)
    requires RealTraffic(wires) && LetGo(server, wires)
    ensures HeldOnly(Run(server, wires), Held(server, wires)) && Clean(server, wires)
  {
    if wires != [] {
      var before, w := wires[..|wires| - 1], wires[|wires| - 1];
      assert forall x | x in before :: x in wires;
      LetGoHolds(server, before);
      RunKeeps(server, before);
      HeldOnlyStep(Run(server, before), w, Held(server, before));
    }
  }

  /** So a run in which interfaces let go in time counts no byte twice. */
  lemma LetGoConserves(server: Server, wires: seq<Wire>)
    requires RealTraffic(wires) && LetGo(server, wires)
    ensures Run(server, wires).again == ZERO && Run(server, wires).carried.Covers(Run(server, wires).counted)
  {
    LetGoHolds(server, wires);
    Conservation(server, wires);
  }

  lemma Last(server: Server, wires: seq<Wire>, w: Wire)
    ensures Run(server, wires + [w]) == Step(Run(server, wires), w)
  {
    assert (wires + [w])[..|wires|] == wires;
  }

  /** The peer is on its server's interface, and a reading has just seen all it carried. */
  predicate AllRead(l: Link) {
    var i := IfaceAt(l, l.server);
    i.on && l.last.Some? && i.base == i.kernel && l.last.value == i.kernel
  }

  /** Moved while its server is out of reach and moved back before that let it go, it counts all of this again. */
  lemma MovedBackCountsTwice(l: Link, away: Server, day: nat)
    requires AllRead(l)
    ensures var back := Step(Step(Step(l, Move(away)), Move(l.server)), Read(day));
            && back.counted == l.counted.Plus(IfaceAt(l, l.server).kernel) && back.carried == l.carried
            && (IfaceAt(l, l.server).kernel.NonNegative() ==>
                  back.again.rx == l.again.rx + IfaceAt(l, l.server).kernel.rx
                  && back.again.tx == l.again.tx + IfaceAt(l, l.server).kernel.tx)
  {
    var i := IfaceAt(l, l.server);
    var back := Step(Step(l, Move(away)), Move(l.server));
    assert IfaceAt(back, back.server) == i && back.last == Some(ZERO);
    GrowthFromZero(i.kernel);
  }

  lemma GrowthFromZero(now: Traffic)
    ensures Growth(ZERO, now).rx == now.rx && Growth(ZERO, now).tx == now.tx
  {
  }

  /** How things stand for a peer on its server's interface. */
  predicate Stands(l: Link, home: Server, last: Option<Traffic>, i: Iface, counted: Traffic, carried: Traffic) {
    l.server == home && l.last == last && i.on && IfaceAt(l, home) == i && l.counted == counted && l.carried == carried
  }

  lemma FirstReading(l: Link, home: Server, i: Iface, counted: Traffic, carried: Traffic)
    requires Stands(l, home, None, i, counted, carried)
    ensures Stands(Step(l, Read(0)), home, Some(i.kernel), i, counted, carried)
  {
  }

  lemma CarryStep(l: Link, home: Server, last: Traffic, i: Iface, counted: Traffic, carried: Traffic, bytes: Traffic)
    requires Stands(l, home, Some(last), i, counted, carried)
    ensures Stands(Step(l, Carry(home, bytes)), home, Some(last), i.(kernel := i.kernel.Plus(bytes)),
                   counted, carried.Plus(bytes))
  {
  }

  lemma NextReading(l: Link, home: Server, last: Traffic, i: Iface, counted: Traffic, carried: Traffic)
    requires Stands(l, home, Some(last), i, counted, carried)
    ensures Stands(Step(l, Read(0)), home, Some(i.kernel), i.(base := i.kernel),
                   counted.Plus(Growth(last, i.kernel)), carried)
  {
  }

  /** A peer that is on no interface yet and has never been read. */
  predicate New(l: Link, home: Server) {
    l.server == home && l.last.None? && l.counted == ZERO && l.carried == ZERO && home !in l.ifaces
  }

  /** Every run starts that way. */
  lemma StartIsNew(home: Server)
    ensures New(Run(home, []), home)
  {
  }

  lemma JoinStep(l: Link, home: Server)
    requires New(l, home)
    ensures Stands(Step(l, Join), home, None, Iface(true, l.counted, l.counted), l.counted, l.carried)
  {
  }

  lemma FirstBytesRead(l: Link, home: Server, bytes: Traffic)
    requires New(l, home) && bytes.NonNegative()
    ensures var t := Step(Step(Step(Step(l, Join), Read(0)), Carry(home, bytes)), Read(0));
            Stands(t, home, Some(bytes), Iface(true, bytes, bytes), bytes, bytes)
  {
    var nothing := l.counted;
    var i := Iface(true, nothing, nothing);
    var a := Step(l, Join);
    var b := Step(a, Read(0));
    var c := Step(b, Carry(home, bytes));
    JoinStep(l, home);
    FirstReading(a, home, i, nothing, nothing);
    CarryStep(b, home, nothing, i, nothing, nothing, bytes);
    FromNothing(nothing, bytes);
    NextReading(c, home, nothing, i.(kernel := bytes), nothing, bytes);
  }

  lemma FromNothing(start: Traffic, bytes: Traffic)
    requires start.rx == 0 && start.tx == 0 && bytes.NonNegative()
    ensures start.Plus(bytes) == bytes && start.Plus(Growth(start, bytes)) == bytes
  {
  }

  /** Joined, read, used, read; then moved and moved back before the interface let go, and read. */
  function ThereAndBack(l: Link, home: Server, away: Server, bytes: Traffic): Link {
    var used := Step(Step(Step(Step(l, Join), Read(0)), Carry(home, bytes)), Read(0));
    Step(Step(Step(used, Move(away)), Move(home)), Read(0))
  }

  lemma UsedTwice(l: Link, home: Server, away: Server, bytes: Traffic)
    requires New(l, home) && bytes.NonNegative()
    ensures ThereAndBack(l, home, away, bytes).carried == bytes
    ensures ThereAndBack(l, home, away, bytes).counted == bytes.Plus(bytes)
  {
    FirstBytesRead(l, home, bytes);
    MovedBackCountsTwice(Step(Step(Step(Step(l, Join), Read(0)), Carry(home, bytes)), Read(0)), away, 0);
  }

  /** The whole input, from the start of a run and for any bytes: carried once and counted twice. */
  lemma BytesCountedTwice(home: Server, away: Server, bytes: Traffic)
    requires bytes.NonNegative()
    ensures ThereAndBack(Run(home, []), home, away, bytes).carried == bytes
    ensures ThereAndBack(Run(home, []), home, away, bytes).counted == bytes.Plus(bytes)
  {
    StartIsNew(home);
    UsedTwice(Run(home, []), home, away, bytes);
  }

  /** A stretch in which the peer stayed on its server's interface and nothing restarted there. */
  ghost predicate Steady(server: Server, wires: seq<Wire>) {
    forall w | w in wires :: w.Carry? || w.Read? || ((w.Leave? || w.Restart?) && w.at != server)
  }

  /** From one reading to another with nothing dropped in between, the growth counted is last minus first. */
  lemma {:induction false} SteadyIsExact(server: Server, before: seq<Wire>, day: nat, wires: seq<Wire>)
    requires RealTraffic(before + [Read(day)] + wires)
    requires var first := Run(server, before + [Read(day)]);
             IfaceAt(first, first.server).on && Steady(first.server, wires)
    ensures var first, l := Run(server, before + [Read(day)]), Run(server, before + [Read(day)] + wires);
            && l.server == first.server && IfaceAt(l, l.server).on && l.last.Some?
            && IfaceAt(l, l.server).base == l.last.value
            && l.counted.rx == first.counted.rx + l.last.value.rx - IfaceAt(first, first.server).kernel.rx
            && l.counted.tx == first.counted.tx + l.last.value.tx - IfaceAt(first, first.server).kernel.tx
  {
    var start := before + [Read(day)];
    if wires == [] {
      Last(server, before, Read(day));
      assert start + wires == start;
      assert forall w | w in before :: w in start + wires;
      RunKeeps(server, before);
    } else {
      var shorter, w := wires[..|wires| - 1], wires[|wires| - 1];
      assert start + wires == (start + shorter) + [w];
      assert forall x | x in start + shorter :: x in start + wires;
      assert w in wires;
      SteadyIsExact(server, before, day, shorter);
      RunKeeps(server, start + shorter);
      Last(server, start + shorter, w);
      SteadyStep(Run(server, start + shorter), w);
    }
  }

  /** What a steady step adds to the count it adds to the stored reading. */
  lemma SteadyStep(l: Link, w: Wire)
    requires Inv(l) && IfaceAt(l, l.server).on && l.last.Some? && IfaceAt(l, l.server).base == l.last.value
    requires w.Carry? || w.Read? || ((w.Leave? || w.Restart?) && w.at != l.server)
    ensures var t := Step(l, w);
            && t.server == l.server && IfaceAt(t, t.server).on && t.last.Some?
            && IfaceAt(t, t.server).base == t.last.value
            && t.counted.rx - l.counted.rx == t.last.value.rx - l.last.value.rx
            && t.counted.tx - l.counted.tx == t.last.value.tx - l.last.value.tx
  {
    if w.Read? {
      GrowthIs(l.last.value, IfaceAt(l, l.server));
    }
  }
}
