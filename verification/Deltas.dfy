/**
 Hysteria's accounting. The server hands out what each peer moved since the
 previous read and starts again from zero, so the node adds the readings up;
 a reading that fails is lost.
 */
module DeltaAccounting {
  import opened Basics
  import opened Addresses
  import opened Encodings
  import opened Accounting

  datatype Hysteria = Hysteria(byAuth: map<string, Uuid>, traffic: map<Uuid, Traffic>, peers: set<Uuid>)

  const EMPTY := Hysteria(map[], map[], {})

  /** What changes the books, each under the lock. */
  datatype Change =
    | Added(id: Uuid)
    | Removed(id: Uuid)
    | Read(delta: map<Uuid, Traffic>)

  function Advance(name: Naming, s: Hysteria, c: Change): Hysteria {
    match c
    case Added(id) =>
      Hysteria(s.byAuth[name(id) := id], if id in s.traffic then s.traffic else s.traffic[id := ZERO], s.peers + {id})
    case Removed(id) => Hysteria(s.byAuth - {name(id)}, s.traffic - {id}, s.peers - {id})
    case Read(delta) => s.(traffic := map id | id in s.traffic :: Raised(s.traffic[id], delta, id))
  }

  function Raised(t: Traffic, delta: map<Uuid, Traffic>, id: Uuid): Traffic {
    if id in delta then Held(Plus(t, delta[id])) else t
  }

  /** A password admits exactly the registered peer it names. */
  predicate Matched(name: Naming, s: Hysteria) {
    && (forall auth :: auth in s.byAuth ==> s.byAuth[auth] in s.peers && name(s.byAuth[auth]) == auth)
    && (forall id :: id in s.peers ==> name(id) in s.byAuth && s.byAuth[name(id)] == id)
    && s.traffic.Keys == s.peers
  }

  // ---- runs: a reading is taken before the lock and added under it ----

  datatype Event =
    | Register(id: Uuid)
    | Unregister(id: Uuid)
    | Fetch(delta: map<Uuid, Traffic>)
    | Lose
    | AddUp

  /** A reading taken by the event at a position and not yet added. */
  datatype Fetched = Fetched(at: nat, delta: map<Uuid, Traffic>)

  datatype Running = Running(books: Hysteria, pending: Option<Fetched>)

  function Next(name: Naming, s: Running, e: Event, at: nat): Running {
    match e
    case Register(id) => s.(books := Advance(name, s.books, Added(id)))
    case Unregister(id) => s.(books := Advance(name, s.books, Removed(id)))
    case Fetch(delta) => s.(pending := Some(Fetched(at, delta)))
    case Lose => s.(pending := None)
    case AddUp =>
      if s.pending.None? then s else Running(Advance(name, s.books, Read(s.pending.value.delta)), None)
  }

  function After(name: Naming, events: seq<Event>, n: nat): Running
    requires n <= |events|
  {
    if n == 0 then Running(EMPTY, None) else Next(name, After(name, events, n - 1), events[n - 1], n - 1)
  }

  predicate Begins(before: Running, e: Event, id: Uuid) { e == Register(id) && id !in before.books.peers }

  predicate Adds(s: Running, e: Event, id: Uuid) { e.AddUp? && s.pending.Some? && id in s.pending.value.delta }

  /**
   A peer's readings since it was registered: where that was, the reading that
   was waiting to be added then, the sum of all that was added since, and its
   parts from readings taken after and before.
   */
  datatype Tally = Tally(since: nat, waiting: Option<Fetched>, sum: Traffic, own: Traffic, earlier: Traffic)

  function NextTally(before: Running, e: Event, at: nat, id: Uuid, t: Tally): Tally {
    if Begins(before, e, id) then Tally(at + 1, before.pending, ZERO, ZERO, ZERO)
    else if Adds(before, e, id) then
      var more := before.pending.value.delta[id];
      var t' := t.(sum := Plus(t.sum, more));
      if before.pending.value.at >= t.since then t'.(own := Plus(t.own, more))
      else t'.(earlier := Plus(t.earlier, more))
    else t
  }

  function TallyOf(name: Naming, events: seq<Event>, n: nat, id: Uuid): Tally
    requires n <= |events|
  {
    if n == 0 then Tally(0, None, ZERO, ZERO, ZERO)
    else NextTally(After(name, events, n - 1), events[n - 1], n - 1, id, TallyOf(name, events, n - 1, id))
  }

  /** A reading that is lost, or already added, is not added. */
  lemma LostAddsNothing(name: Naming, s: Running, at: nat)
    ensures Next(name, Next(name, s, Lose, at), AddUp, at + 1).books == s.books
    ensures var added := Next(name, s, AddUp, at); Next(name, added, AddUp, at + 1) == added
  {
  }

  lemma {:induction false} AlwaysMatched(name: Naming, events: seq<Event>, n: nat)
    requires n <= |events| && Injective(name)
    ensures Matched(name, After(name, events, n).books)
  {
    if n > 0 {
      AlwaysMatched(name, events, n - 1);
    }
  }

  predicate Counts(s: Hysteria, id: Uuid, sum: Traffic) { id in s.traffic && s.traffic[id] == Held(sum) }

  lemma NextCounts(name: Naming, s: Running, e: Event, at: nat, id: Uuid, t: Tally)
    requires s.books.traffic.Keys == s.books.peers && id in Next(name, s, e, at).books.peers
    requires id in s.books.peers ==> Counts(s.books, id, t.sum)
    ensures Counts(Next(name, s, e, at).books, id, NextTally(s, e, at, id, t).sum)
  {
    if Adds(s, e, id) {
      HeldPlus(t.sum, s.pending.value.delta[id]);
    }
  }

  /**
   Over every run, a registered peer's counters are the sum of the readings
   added since it was registered, in 64 bits.
   */
  lemma {:induction false} CountersAreSums(name: Naming, events: seq<Event>, n: nat, id: Uuid)
    requires n <= |events| && Injective(name)
    ensures id in After(name, events, n).books.peers ==>
      Counts(After(name, events, n).books, id, TallyOf(name, events, n, id).sum)
  {
    if n > 0 && id in After(name, events, n).books.peers {
      var before := After(name, events, n - 1);
      assert before.books.traffic.Keys == before.books.peers by {
        AlwaysMatched(name, events, n - 1);
      }
      CountersAreSums(name, events, n - 1, id);
      NextCounts(name, before, events[n - 1], n - 1, id, TallyOf(name, events, n - 1, id));
    }
  }

  /** The bytes a reading has for the peer, if there is a reading and it has any. */
  function BytesOf(f: Option<Fetched>, id: Uuid): Traffic {
    if f.Some? && id in f.value.delta then f.value.delta[id] else ZERO
  }

  /** What came from before is nothing, or all the waiting reading had; a reading from before still waits. */
  predicate FromWaiting(s: Running, t: Tally, id: Uuid) {
    && t.sum.up == t.own.up + t.earlier.up && t.sum.down == t.own.down + t.earlier.down
    && (t.earlier == ZERO || t.earlier == BytesOf(t.waiting, id))
    && (s.pending.Some? && s.pending.value.at < t.since ==> t.earlier == ZERO && s.pending == t.waiting)
  }

  lemma {:induction false} EarlierWaited(name: Naming, events: seq<Event>, n: nat, id: Uuid)
    requires n <= |events|
    ensures TallyOf(name, events, n, id).since <= n
    ensures FromWaiting(After(name, events, n), TallyOf(name, events, n, id), id)
  {
    if n > 0 {
      EarlierWaited(name, events, n - 1, id);
    }
  }

  lemma WrapsToSame(a: int, b: int)
    ensures Int64(a + b) == Int64(a) <==> Int64(b) == 0
  {
    var k, l, m := (a - Int64(a)) / TWO64, (a + b - Int64(a + b)) / TWO64, (b - Int64(b)) / TWO64;
    assert Int64(a + b) - Int64(a) - Int64(b) == TWO64 * (k + m - l);
  }

  lemma HeldSameIff(sum: Traffic, own: Traffic, earlier: Traffic)
    requires sum.up == own.up + earlier.up && sum.down == own.down + earlier.down
    ensures Held(sum) == Held(own) <==> Held(earlier) == ZERO
  {
    WrapsToSame(own.up, earlier.up);
    WrapsToSame(own.down, earlier.down);
  }

  /**
   The counters are the sum of the readings taken since the registration
   exactly when what was added from before is nothing in 64 bits; it is
   nothing when no reading with bytes of the peer was waiting then.
   */
  lemma OwnReadingsIff(name: Naming, events: seq<Event>, n: nat, id: Uuid)
    requires n <= |events| && Injective(name) && id in After(name, events, n).books.peers
    ensures var t := TallyOf(name, events, n, id);
            && (Counts(After(name, events, n).books, id, t.own) <==> Held(t.earlier) == ZERO)
            && (t.earlier == ZERO || t.earlier == BytesOf(t.waiting, id))
  {
    var t := TallyOf(name, events, n, id);
    CountersAreSums(name, events, n, id);
    EarlierWaited(name, events, n, id);
    HeldSameIff(t.sum, t.own, t.earlier);
  }

  /** A peer removed and registered again between a reading and its sum is charged what moved before. */
  lemma EarlierCounted(name: Naming, id: Uuid, moved: Traffic)
    ensures var events := [Register(id), Fetch(map[id := moved]), Unregister(id), Register(id), AddUp];
            && Counts(After(name, events, 5).books, id, moved)
            && TallyOf(name, events, 5, id).own == ZERO && TallyOf(name, events, 5, id).earlier == moved
  {
    var events := [Register(id), Fetch(map[id := moved]), Unregister(id), Register(id), AddUp];
    ThreeEvents(name, events, id, moved);
    assert After(name, events, 4) == Next(name, After(name, events, 3), events[3], 3);
    assert TallyOf(name, events, 4, id)
      == NextTally(After(name, events, 3), events[3], 3, id, TallyOf(name, events, 3, id));
  }

  lemma ThreeEvents(name: Naming, events: seq<Event>, id: Uuid, moved: Traffic)
    requires |events| >= 3 && events[..3] == [Register(id), Fetch(map[id := moved]), Unregister(id)]
    ensures var s := After(name, events, 3);
            s.pending == Some(Fetched(1, map[id := moved])) && id !in s.books.peers && id !in s.books.traffic
  {
    assert events[0] == events[..3][0] && events[1] == events[..3][1] && events[2] == events[..3][2];
    assert After(name, events, 1) == Next(name, Running(EMPTY, None), events[0], 0);
    assert After(name, events, 2) == Next(name, After(name, events, 1), events[1], 1);
  }

  /** Hysteria's books, changed in place. */
  class Books {
    const name: Naming
    var byAuth: map<string, Uuid>
    var traffic: map<Uuid, Traffic>
    var peers: set<Uuid>

    constructor ()
      ensures name == FormatUuid && Injective(name) && View() == EMPTY
    {
      name := FormatUuid;
      byAuth, traffic, peers := map[], map[], {};
      new;
      UuidsAreNames();
    }

    function View(): Hysteria
      reads this
    {
      Hysteria(byAuth, traffic, peers)
    }

    /** The peer a password admits, if it admits one. */
    method Authenticate(auth: string) returns (id: Option<Uuid>)
      requires Matched(name, View())
      ensures id.Some? <==> exists p :: p in peers && name(p) == auth
      ensures id.Some? ==> id.value in peers && name(id.value) == auth
    {
      if auth in byAuth {
        id := Some(byAuth[auth]);
      } else {
        id := None;
      }
    }

    method Register(data: seq<Byte>) returns (ok: bool)
      modifies this
      ensures ok <==> |data| == UUID_LEN
      ensures View() == if ok then Advance(name, old(View()), Added(data)) else old(View())
    {
      ok := |data| == UUID_LEN;
      if ok {
        byAuth := byAuth[name(data) := data];
        if data !in traffic {
          traffic := traffic[data := ZERO];
        }
        peers := peers + {data};
      }
    }

    method Unregister(data: seq<Byte>) returns (ok: bool)
      modifies this
      ensures ok <==> |data| == UUID_LEN
      ensures View() == if ok then Advance(name, old(View()), Removed(data)) else old(View())
    {
      ok := |data| == UUID_LEN;
      if ok {
        byAuth := byAuth - {name(data)};
        traffic := traffic - {data};
        peers := peers - {data};
      }
    }

    /** Adds a reading to the counters of the peers still known. */
    method AddReading(delta: map<Uuid, Traffic>)
      modifies this`traffic
      ensures View() == Advance(name, old(View()), Read(delta))
    {
      var keys := delta.Keys;
      while keys != {}
        invariant keys <= delta.Keys && traffic.Keys == old(traffic).Keys
        invariant forall id :: id in traffic ==>
          traffic[id] == if id in keys then old(traffic)[id] else Raised(old(traffic)[id], delta, id)
        decreases |keys|
      {
        var id :| id in keys;
        if id in traffic {
          traffic := traffic[id := Held(Plus(traffic[id], delta[id]))];
        }
        keys := keys - {id};
      }
    }

    method Totals() returns (items: map<Uuid, Traffic>)
      requires Matched(name, View())
      ensures items == traffic
    {
      items := map[];
      var left := peers;
      while left != {}
        invariant left <= peers && items.Keys == peers - left
        invariant forall id :: id in items ==> id in traffic && items[id] == traffic[id]
        decreases |left|
      {
        var id :| id in left;
        items := items[id := if id in traffic then traffic[id] else ZERO];
        left := left - {id};
      }
    }

    /** Reads what moved, adds it and reports every peer's total; a reading that failed changes nothing. */
    method Peers(delta: Option<map<Uuid, Traffic>>) returns (items: Option<map<Uuid, Traffic>>)
      requires Matched(name, View())
      modifies this`traffic
      ensures View() == if delta.Some? then Advance(name, old(View()), Read(delta.value)) else old(View())
      ensures items == if delta.Some? then Some(traffic) else None
    {
      if delta.None? {
        return None;
      }
      AddReading(delta.value);
      var totals := Totals();
      items := Some(totals);
    }
  }
}
