/**
 OpenVPN's per-peer traffic. The server's counters start again with every
 connection, so what a connection used is banked when it ends and the live
 connection's counters are added on top.
 */
module Accounting {
  import opened Basics
  import opened Addresses
  import opened Encodings

  datatype Traffic = Traffic(up: int, down: int)

  const ZERO := Traffic(0, 0)

  function Plus(a: Traffic, b: Traffic): Traffic { Traffic(a.up + b.up, a.down + b.down) }

  /** The 64-bit counters that hold the traffic. */
  function Held(t: Traffic): Traffic { Traffic(Int64(t.up), Int64(t.down)) }

  predicate AtMost(a: Traffic, b: Traffic) { a.up <= b.up && a.down <= b.down }

  const MOST := Traffic(MAX_INT64, MAX_INT64)

  lemma WrapOnce(a: int, b: int)
    ensures Int64(Int64(a) + b) == Int64(a + b)
  {
  }

  lemma HeldPlus(a: Traffic, b: Traffic)
    ensures Held(Plus(Held(a), b)) == Held(Plus(a, b))
  {
    WrapOnce(a.up, b.up);
    WrapOnce(a.down, b.down);
  }

  // ---- OpenVPN ----

  /** How a peer's certificate is named; names tell peers apart. */
  type Naming = Uuid -> string

  ghost predicate Injective(name: Naming) { forall a: Uuid, b: Uuid :: name(a) == name(b) ==> a == b }

  /** The node's books and the server's live connections, by common name. */
  datatype Vpn = Vpn(
    byCN: map<string, Uuid>,
    closed: map<Uuid, Traffic>,
    peers: set<Uuid>,
    live: map<string, Traffic>)

  const NO_PEERS := Vpn(map[], map[], {}, map[])

  datatype Event =
    | Add(id: Uuid)
    | Remove(id: Uuid, killed: bool)
    | Connect(cn: string)
    | Move(cn: string, up: nat, down: nat)
    | Disconnect(cn: string)

  function AddPeer(name: Naming, s: Vpn, id: Uuid): Vpn {
    s.(byCN := s.byCN[name(id) := id],
       closed := if id in s.closed then s.closed else s.closed[id := ZERO],
       peers := s.peers + {id})
  }

  function Forget(name: Naming, s: Vpn, id: Uuid): Vpn {
    s.(byCN := s.byCN - {name(id)}, closed := s.closed - {id}, peers := s.peers - {id})
  }

  /** Banks what a connection that ended had counted. */
  function Bank(s: Vpn, cn: string, used: Traffic): Vpn {
    if cn !in s.byCN then s
    else
      var id := s.byCN[cn];
      var before := if id in s.closed then s.closed[id] else ZERO;
      s.(closed := s.closed[id := Held(Plus(before, used))])
  }

  /** The counters of a live connection as the node reads them. */
  function Counter(t: Traffic): Traffic {
    Traffic(if t.up > MAX_INT64 then MAX_INT64 else t.up, if t.down > MAX_INT64 then MAX_INT64 else t.down)
  }

  /**
   A connection begins only for a registered name, and there is one at a time
   for a name. Killing a connection, like its end, settles it at once.
   */
  function Next(name: Naming, s: Vpn, e: Event): Vpn {
    match e
    case Add(id) => AddPeer(name, s, id)
    case Remove(id, killed) =>
      var f := Forget(name, s, id);
      if killed then f.(live := f.live - {name(id)}) else f
    case Connect(cn) => if cn in s.byCN && cn !in s.live then s.(live := s.live[cn := ZERO]) else s
    case Move(cn, up, down) =>
      if cn in s.live then s.(live := s.live[cn := Plus(s.live[cn], Traffic(up, down))]) else s
    case Disconnect(cn) =>
      if cn !in s.live then s
      else
        var b := Bank(s, cn, Counter(s.live[cn]));
        b.(live := b.live - {cn})
  }

  function StateAt(name: Naming, events: seq<Event>, n: nat): Vpn
    requires n <= |events|
  {
    if n == 0 then NO_PEERS else Next(name, StateAt(name, events, n - 1), events[n - 1])
  }

  function Live(name: Naming, s: Vpn, id: Uuid): Traffic {
    if name(id) in s.live then s.live[name(id)] else ZERO
  }

  /** What the node reports for a peer. */
  function Reported(name: Naming, s: Vpn, id: Uuid): Traffic {
    var banked := if id in s.closed then s.closed[id] else ZERO;
    if name(id) in s.byCN && name(id) in s.live
    then Held(Plus(banked, Counter(s.live[name(id)]))) else banked
  }

  /**
   What a peer moved since it was registered, and what a connection of its
   name that was open at that moment had counted before.
   */
  datatype Meter = Meter(since: Traffic, carried: Traffic)

  function Total(m: Meter): Traffic { Plus(m.since, m.carried) }

  function MeterNext(name: Naming, before: Vpn, e: Event, id: Uuid, m: Meter): Meter {
    match e
    case Add(other) => if other == id && id !in before.peers then Meter(ZERO, Live(name, before, id)) else m
    case Move(cn, up, down) =>
      if cn == name(id) && cn in before.live then m.(since := Plus(m.since, Traffic(up, down))) else m
    case _ => m
  }

  function MeterAt(name: Naming, events: seq<Event>, n: nat, id: Uuid): Meter
    requires n <= |events|
  {
    if n == 0 then Meter(ZERO, ZERO)
    else MeterNext(name, StateAt(name, events, n - 1), events[n - 1], id, MeterAt(name, events, n - 1, id))
  }

  /** The books agree with each other: names, banked traffic and peers are of the same ids. */
  predicate Consistent(name: Naming, s: Vpn) {
    && (forall cn :: cn in s.byCN ==> name(s.byCN[cn]) == cn && s.byCN[cn] in s.peers)
    && (forall id :: id in s.peers ==> name(id) in s.byCN && s.byCN[name(id)] == id)
    && s.closed.Keys == s.peers
  }

  lemma NextConsistent(name: Naming, s: Vpn, e: Event)
    requires Injective(name) && Consistent(name, s)
    ensures Consistent(name, Next(name, s, e))
  {
  }

  lemma {:induction false} AlwaysConsistent(name: Naming, events: seq<Event>, n: nat)
    requires n <= |events| && Injective(name)
    ensures Consistent(name, StateAt(name, events, n))
  {
    if n > 0 {
      AlwaysConsistent(name, events, n - 1);
      NextConsistent(name, StateAt(name, events, n - 1), events[n - 1]);
    }
  }

  /** No live connection has counted more than 64 bits hold. */
  predicate InRange(s: Vpn) { forall cn :: cn in s.live ==> AtMost(s.live[cn], MOST) }

  predicate InRangeTo(name: Naming, events: seq<Event>, n: nat)
    requires n <= |events|
  {
    InRange(StateAt(name, events, n)) && (n > 0 ==> InRangeTo(name, events, n - 1))
  }

  lemma {:induction false} RangeEarlier(name: Naming, events: seq<Event>, n: nat, m: nat)
    requires n <= m <= |events| && InRangeTo(name, events, m)
    ensures InRangeTo(name, events, n)
    decreases m
  {
    if n < m {
      RangeEarlier(name, events, n, m - 1);
    }
  }

  /** A peer's books: what is banked and what is live make up the total. */
  predicate Balanced(name: Naming, s: Vpn, id: Uuid, total: Traffic) {
    id in s.closed && Held(s.closed[id]) == s.closed[id] && Held(Plus(s.closed[id], Live(name, s, id))) == Held(total)
  }

  lemma AddBalanced(name: Naming, s: Vpn, id: Uuid, other: Uuid, total: Traffic)
    requires Injective(name) && Consistent(name, s)
    requires id in s.peers ==> Balanced(name, s, id, total)
    requires id in AddPeer(name, s, other).peers
    ensures Balanced(name, AddPeer(name, s, other), id, if id in s.peers then total else Live(name, s, id))
  {
  }

  lemma MoveBalanced(name: Naming, s: Vpn, id: Uuid, more: Traffic, total: Traffic)
    requires Balanced(name, s, id, total) && name(id) in s.live
    ensures Balanced(name, s.(live := s.live[name(id) := Plus(s.live[name(id)], more)]), id, Plus(total, more))
  {
    var x := Plus(s.closed[id], Live(name, s, id));
    HeldPlus(x, more);
    HeldPlus(total, more);
    assert Plus(x, more) == Plus(s.closed[id], Plus(Live(name, s, id), more));
  }

  lemma BankBalanced(name: Naming, s: Vpn, id: Uuid, total: Traffic)
    requires Consistent(name, s) && InRange(s) && id in s.peers && name(id) in s.live
    requires Balanced(name, s, id, total)
    ensures Balanced(name, Next(name, s, Disconnect(name(id))), id, total)
  {
  }

  /** Whether an event touches a peer's books: its registration, its traffic or the end of its connection. */
  predicate Touches(name: Naming, s: Vpn, e: Event, id: Uuid) {
    match e
    case Add(other) => other == id && id !in s.peers
    case Remove(other, _) => other == id
    case Connect(cn) => false
    case Move(cn, _, _) => cn == name(id) && cn in s.live
    case Disconnect(cn) => cn == name(id) && cn in s.live
  }

  predicate SameBooks(name: Naming, s: Vpn, t: Vpn, id: Uuid) {
    && (id in s.peers <==> id in t.peers)
    && (id in s.closed ==> id in t.closed && t.closed[id] == s.closed[id])
    && Live(name, t, id) == Live(name, s, id)
  }

  lemma Untouched(name: Naming, s: Vpn, e: Event, id: Uuid)
    requires Injective(name) && Consistent(name, s) && !Touches(name, s, e, id)
    ensures SameBooks(name, s, Next(name, s, e), id)
  {
    match e
    case Remove(other, _) => assert name(other) != name(id);
    case _ =>
  }

  lemma NextBalanced(name: Naming, s: Vpn, e: Event, id: Uuid, m: Meter)
    requires Injective(name) && Consistent(name, s) && InRange(s)
    requires id in s.peers ==> Balanced(name, s, id, Total(m))
    requires id in Next(name, s, e).peers
    ensures Balanced(name, Next(name, s, e), id, Total(MeterNext(name, s, e, id, m)))
  {
    if !Touches(name, s, e, id) {
      Untouched(name, s, e, id);
    } else if e.Add? {
      AddBalanced(name, s, id, e.id, Total(m));
    } else if e.Move? {
      MoveBalanced(name, s, id, Traffic(e.up, e.down), Total(m));
      assert Total(MeterNext(name, s, e, id, m)) == Plus(Total(m), Traffic(e.up, e.down));
    } else {
      BankBalanced(name, s, id, Total(m));
    }
  }

  /**
   Over every run, a registered peer's banked and live traffic together are
   what it moved since it was registered, plus what a connection still open
   from before had counted then.
   */
  lemma {:induction false} AlwaysBalanced(name: Naming, events: seq<Event>, n: nat, id: Uuid)
    requires n <= |events| && Injective(name) && InRangeTo(name, events, n)
    ensures id in StateAt(name, events, n).peers ==>
      Balanced(name, StateAt(name, events, n), id, Total(MeterAt(name, events, n, id)))
  {
    if n > 0 && id in StateAt(name, events, n).peers {
      var s, m := StateAt(name, events, n - 1), MeterAt(name, events, n - 1, id);
      AlwaysBalanced(name, events, n - 1, id);
      AlwaysConsistent(name, events, n - 1);
      NextBalanced(name, s, events[n - 1], id, m);
    }
  }

  /** What the node reports is that total, in 64 bits. */
  lemma ReportsTotal(name: Naming, events: seq<Event>, n: nat, id: Uuid)
    requires n <= |events| && Injective(name) && InRangeTo(name, events, n)
    requires id in StateAt(name, events, n).peers
    ensures Reported(name, StateAt(name, events, n), id) == Held(Total(MeterAt(name, events, n, id)))
  {
    AlwaysBalanced(name, events, n, id);
    AlwaysConsistent(name, events, n);
    BalancedReports(name, StateAt(name, events, n), id, Total(MeterAt(name, events, n, id)));
  }

  lemma BalancedReports(name: Naming, s: Vpn, id: Uuid, total: Traffic)
    requires Consistent(name, s) && InRange(s) && id in s.peers && Balanced(name, s, id, total)
    ensures Reported(name, s, id) == Held(total)
  {
  }

  ghost predicate Kept(events: seq<Event>, n: nat, m: nat, id: Uuid)
    requires n <= m <= |events|
  {
    forall i :: n <= i < m ==> !(events[i].Remove? && events[i].id == id)
  }

  /** While a peer stays registered its total only grows. */
  lemma {:induction false} TotalGrows(name: Naming, events: seq<Event>, n: nat, m: nat, id: Uuid)
    requires n <= m <= |events| && Kept(events, n, m, id) && id in StateAt(name, events, n).peers
    ensures id in StateAt(name, events, m).peers
    ensures AtMost(Total(MeterAt(name, events, n, id)), Total(MeterAt(name, events, m, id)))
    decreases m
  {
    if n < m {
      TotalGrows(name, events, n, m - 1, id);
    }
  }

  lemma {:induction false} NeverNegative(name: Naming, events: seq<Event>, n: nat, id: Uuid)
    requires n <= |events|
    ensures forall cn :: cn in StateAt(name, events, n).live ==> AtMost(ZERO, StateAt(name, events, n).live[cn])
    ensures AtMost(ZERO, MeterAt(name, events, n, id).since) && AtMost(ZERO, MeterAt(name, events, n, id).carried)
  {
    if n > 0 {
      NeverNegative(name, events, n - 1, id);
    }
  }

  /** What is reported never decreases over disconnects and reconnects, up to what 64 bits hold. */
  lemma ReportNeverDecreases(name: Naming, events: seq<Event>, n: nat, m: nat, id: Uuid)
    requires n <= m <= |events| && Injective(name) && InRangeTo(name, events, m)
    requires Kept(events, n, m, id) && id in StateAt(name, events, n).peers
    requires AtMost(Total(MeterAt(name, events, m, id)), MOST)
    ensures AtMost(Reported(name, StateAt(name, events, n), id), Reported(name, StateAt(name, events, m), id))
  {
    NeverNegative(name, events, n, id);
    TotalGrows(name, events, n, m, id);
    RangeEarlier(name, events, n, m);
    ReportsTotal(name, events, n, id);
    ReportsTotal(name, events, m, id);
  }

  /** The event that registered the peer as it is registered after n events. */
  function Registration(name: Naming, events: seq<Event>, n: nat, id: Uuid): Option<nat>
    requires n <= |events|
  {
    if n == 0 then None
    else if events[n - 1] == Add(id) && id !in StateAt(name, events, n - 1).peers then Some(n - 1)
    else Registration(name, events, n - 1, id)
  }

  /** A registered peer was registered, stayed so, and carries what its name's connection had counted then. */
  lemma {:induction false} CarriedFromThen(name: Naming, events: seq<Event>, n: nat, id: Uuid)
    requires n <= |events| && id in StateAt(name, events, n).peers
    ensures var j := Registration(name, events, n, id);
            && j.Some? && j.value < n && events[j.value] == Add(id)
            && id !in StateAt(name, events, j.value).peers && Kept(events, j.value, n, id)
            && MeterAt(name, events, n, id).carried == Live(name, StateAt(name, events, j.value), id)
  {
    var e := events[n - 1];
    if !(e == Add(id) && id !in StateAt(name, events, n - 1).peers) {
      CarriedFromThen(name, events, n - 1, id);
    }
  }

  lemma SameHeld(a: Traffic, b: Traffic)
    requires AtMost(ZERO, a) && AtMost(ZERO, b) && AtMost(Plus(a, b), MOST)
    ensures Held(Plus(a, b)) == a <==> b == ZERO
  {
  }

  /**
   A report counts exactly what a peer moved since it was registered if and
   only if no connection of its name had counted anything at that moment.
   */
  lemma ReportIsSinceIff(name: Naming, events: seq<Event>, n: nat, id: Uuid)
    requires n <= |events| && Injective(name) && InRangeTo(name, events, n)
    requires id in StateAt(name, events, n).peers && AtMost(Total(MeterAt(name, events, n, id)), MOST)
    ensures var j := Registration(name, events, n, id);
            && j.Some? && j.value < n
            && (Reported(name, StateAt(name, events, n), id) == MeterAt(name, events, n, id).since <==>
                  Live(name, StateAt(name, events, j.value), id) == ZERO)
  {
    ReportsTotal(name, events, n, id);
    NeverNegative(name, events, n, id);
    CarriedFromThen(name, events, n, id);
    SameHeld(MeterAt(name, events, n, id).since, MeterAt(name, events, n, id).carried);
  }

  ghost predicate OwnKilled(events: seq<Event>, n: nat, id: Uuid)
    requires n <= |events|
  {
    forall i :: 0 <= i < n && events[i].Remove? && events[i].id == id ==> events[i].killed
  }

  /** When removing this peer always ended its connection, nothing is carried over. */
  lemma {:induction false} NothingCarried(name: Naming, events: seq<Event>, n: nat, id: Uuid)
    requires n <= |events| && Injective(name) && OwnKilled(events, n, id)
    ensures name(id) in StateAt(name, events, n).live ==> name(id) in StateAt(name, events, n).byCN
    ensures MeterAt(name, events, n, id).carried == ZERO
  {
    if n > 0 {
      NothingCarried(name, events, n - 1, id);
      AlwaysConsistent(name, events, n - 1);
      var s, e := StateAt(name, events, n - 1), events[n - 1];
      NamedNext(name, s, e, id);
      CarriedNext(name, s, e, id, MeterAt(name, events, n - 1, id));
    }
  }

  lemma CarriedNext(name: Naming, s: Vpn, e: Event, id: Uuid, m: Meter)
    requires Consistent(name, s) && (name(id) in s.live ==> name(id) in s.byCN) && m.carried == ZERO
    requires Injective(name)
    ensures MeterNext(name, s, e, id, m).carried == ZERO
  {
  }

  lemma NamedNext(name: Naming, s: Vpn, e: Event, id: Uuid)
    requires Injective(name) && (name(id) in s.live ==> name(id) in s.byCN)
    requires e.Remove? && e.id == id ==> e.killed
    ensures name(id) in Next(name, s, e).live ==> name(id) in Next(name, s, e).byCN
  {
    match e
    case Remove(other, _) => assert other != id ==> name(other) != name(id);
    case _ =>
  }

  /** A connection that outlives its peer's removal is charged to the peer when it is added again. */
  lemma LeftOpenIsCarried(name: Naming, id: Uuid, up: nat, down: nat)
    ensures var events := [Add(id), Connect(name(id)), Move(name(id), up, down), Remove(id, false), Add(id)];
            MeterAt(name, events, 5, id) == Meter(ZERO, Traffic(up, down))
  {
    var events := [Add(id), Connect(name(id)), Move(name(id), up, down), Remove(id, false), Add(id)];
    var s := StateAt(name, events, 2);
    assert StateAt(name, events, 1) == AddPeer(name, NO_PEERS, id);
    assert s.live == map[name(id) := ZERO];
    assert StateAt(name, events, 3).live == map[name(id) := Traffic(up, down)];
    assert StateAt(name, events, 4).live == StateAt(name, events, 3).live && id !in StateAt(name, events, 4).peers;
  }

  lemma UuidsAreNames()
    ensures Injective(FormatUuid)
  {
    forall a: Uuid, b: Uuid | FormatUuid(a) == FormatUuid(b) ensures a == b {
      FormatInjective(a, b);
    }
  }

  /** A row of the server's status table. */
  datatype Status = Status(cn: string, used: Traffic)

  /** The rows by name, a later one winning. */
  function ByName(rows: seq<Status>, n: nat): map<string, Traffic>
    requires n <= |rows|
  {
    if n == 0 then map[] else ByName(rows, n - 1)[rows[n - 1].cn := rows[n - 1].used]
  }

  /** OpenVPN's books, changed in place. */
  class OpenVpn {
    const name: Naming
    var byCN: map<string, Uuid>
    var closed: map<Uuid, Traffic>
    var peers: set<Uuid>

    constructor ()
      ensures name == FormatUuid && View(map[]) == NO_PEERS
      ensures Injective(name) && Consistent(name, View(map[]))
    {
      name := FormatUuid;
      byCN, closed, peers := map[], map[], {};
      new;
      UuidsAreNames();
    }

    function View(live: map<string, Traffic>): Vpn
      reads this
    {
      Vpn(byCN, closed, peers, live)
    }

    /** Registers a peer unless its data is not a UUID or no certificate can be issued. */
    method Register(data: seq<Byte>, issued: bool, ghost live: map<string, Traffic>) returns (ok: bool)
      modifies this
      ensures ok <==> |data| == UUID_LEN && issued
      ensures View(live) == if ok then AddPeer(name, old(View(live)), data) else old(View(live))
    {
      ok := |data| == UUID_LEN && issued;
      if ok {
        byCN := byCN[name(data) := data];
        if data !in closed {
          closed := closed[data := ZERO];
        }
        peers := peers + {data};
      }
    }

    method Unregister(data: seq<Byte>, ghost live: map<string, Traffic>) returns (ok: bool)
      modifies this
      ensures ok <==> |data| == UUID_LEN
      ensures View(live) == if ok then Forget(name, old(View(live)), data) else old(View(live))
    {
      ok := |data| == UUID_LEN;
      if ok {
        byCN := byCN - {name(data)};
        closed := closed - {data};
        peers := peers - {data};
      }
    }

    /** Banks what a connection that ended moved: the server received its upload and sent its download. */
    method Disconnected(cn: string, received: int, sent: int, ghost live: map<string, Traffic>)
      modifies this
      ensures View(live) == Bank(old(View(live)), cn, Traffic(received, sent))
    {
      if cn !in byCN {
        return;
      }
      var id := byCN[cn];
      if id !in closed {
        closed := closed[id := ZERO];
      }
      var before := closed[id];
      closed := closed[id := Traffic(Int64(before.up + received), Int64(before.down + sent))];
    }

    /** What a peer used: the banked traffic, then the live rows of every name that stands for it. */
    method Used(id: Uuid, live: map<string, Traffic>) returns (t: Traffic)
      requires Consistent(name, View(live)) && id in peers
      requires forall cn :: cn in live ==> AtMost(live[cn], MOST)
      ensures t == Reported(name, View(live), id)
    {
      t := if id in closed then closed[id] else ZERO;
      ghost var banked := t;
      var names := byCN.Keys;
      while names != {}
        invariant names <= byCN.Keys
        invariant t == if name(id) in live && name(id) !in names then Held(Plus(banked, live[name(id)])) else banked
        decreases |names|
      {
        var cn :| cn in names;
        if byCN[cn] == id && cn in live {
          t := Held(Plus(t, live[cn]));
        }
        names := names - {cn};
      }
      assert name(id) in live ==> Counter(live[name(id)]) == live[name(id)];
    }

    /** Reports every registered peer from the status rows. */
    method Peers(rows: seq<Status>) returns (items: map<Uuid, Traffic>)
      requires Consistent(name, View(ByName(rows, |rows|)))
      requires forall r :: r in rows ==> AtMost(r.used, MOST)
      ensures items.Keys == peers
      ensures forall id :: id in peers ==> items[id] == Reported(name, View(ByName(rows, |rows|)), id)
    {
      var live: map<string, Traffic> := map[];
      for i := 0 to |rows|
        invariant live == ByName(rows, i) && forall cn :: cn in live ==> AtMost(live[cn], MOST)
      {
        live := live[rows[i].cn := rows[i].used];
      }
      items := map[];
      var keys := peers;
      while keys != {}
        invariant keys <= peers && items.Keys == peers - keys
        invariant forall id :: id in items ==> items[id] == Reported(name, View(live), id)
        decreases |keys|
      {
        var id :| id in keys;
        var t := Used(id, live);
        items := items[id := t];
        keys := keys - {id};
      }
    }
  }
}
