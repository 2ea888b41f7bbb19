/**
 Readings stored after their key was admitted again. The usage pass reads the
 counters before it takes the lock; a handshake that commits in between gives
 the key to a new session, whose row then gets the earlier session's bytes.
 */
module Crossings {
  import opened Basics
  import opened Sessions
  import opened Admission
  import opened Jobs
  import opened Lifecycle
  import opened Readings
  import opened ChainTotals

  function SinceAfter(s: State, maxPeers: nat, since: set<Key>, events: seq<Event>): set<Key>
    decreases |events|
  {
    if events == [] then since
    else SinceAfter(Next(s, maxPeers, events[0]), maxPeers, AdmittedSince(s, maxPeers, since, events[0]), events[1..])
  }

  /** While a reading waits, the keys admitted since are those with a last admission. */
  lemma {:induction false} SinceIsLastAdmitted(s: State, maxPeers: nat, since: set<Key>, events: seq<Event>, k: Key)
    requires s.usage.Some? && Quiet(events)
    ensures k in SinceAfter(s, maxPeers, since, events) <==>
      k in since || LastAdmitted(s, maxPeers, events, k).Some?
    decreases |events|
  {
    if events != [] {
      var s' := Next(s, maxPeers, events[0]);
      assert events[0] in events;
      assert Quiet(events[1..]) && s'.usage.Some?;
      SinceIsLastAdmitted(s', maxPeers, AdmittedSince(s, maxPeers, since, events[0]), events[1..], k);
    }
  }

  /** A pass stores no crossed reading exactly when no key it read was admitted between its read and its store. */
  lemma UncrossedIff(
    s: State, maxPeers: nat, since: set<Key>, readings: seq<Reading>, between: seq<Event>, f: UsageFaults)
    requires s.usage.None? && Quiet(between)
    ensures var read := Next(s, maxPeers, ReadCounters(readings));
            var none := AdmittedSince(s, maxPeers, since, ReadCounters(readings));
            Uncrossed(Run(read, maxPeers, between), SinceAfter(read, maxPeers, none, between), StoreUsage(f))
            <==> forall r :: r in readings ==> LastAdmitted(read, maxPeers, between, r.key).None?
  {
    var read := Next(s, maxPeers, ReadCounters(readings));
    CountersKept(read, maxPeers, between);
    forall r | r in readings
      ensures r.key in SinceAfter(read, maxPeers, {}, between) <==>
        LastAdmitted(read, maxPeers, between, r.key).Some?
    {
      SinceIsLastAdmitted(read, maxPeers, {}, between, r.key);
    }
  }

  /**
   After a pass, a live peer's row whose own lookup and write work holds no
   more than its base and its counter exactly when the reading moved nothing
   or is no more than the counter.
   */
  lemma MeteredIff(s: State, maxPeers: nat, since: set<Key>, f: UsageFaults, i: nat, r: Reading)
    requires Inv(s, maxPeers) && Counted(s, since) && s.usage.Some? && OneEach(s.usage.value)
    requires i < |s.local.rows| && r in s.usage.value && s.local.rows[i].key == r.key
    requires Sane(s.local.rows[i]) && 0 <= r.upload && 0 <= r.download && Fits(s.local.rows[i], r)
    requires r.key !in f.lookups && r.key !in f.writes && r.key in Next(s, maxPeers, StoreUsage(f)).local.peers
    ensures var after := Next(s, maxPeers, StoreUsage(f));
            && i < |after.local.rows| && r.key in after.counters && r.key in s.counters
            && (Metered(after.local.rows[i], after.counters[r.key]) <==>
                  || !Moved(s.local.rows[i], r)
                  || (r.upload <= s.counters[r.key].upload && r.download <= s.counters[r.key].download))
  {
    UsagePassMeans(s.local, s.usage.value, f, i, r);
    UsageFrame(s.local, s.usage.value, f);
  }

  const NO_FAULTS := UsageFaults({}, {}, map[])

  /** The next true reading takes a row above its counter back, below a chain that was told. */
  lemma AboveFalls(s: State, maxPeers: nat, i: nat)
    requires Inv(s, maxPeers) && s.usage.None? && i < |s.local.rows| && Sane(s.local.rows[i])
    requires var row := s.local.rows[i];
             && row.key in s.counters && row.baseUpload + s.counters[row.key].upload < row.upload
             && row.baseDownload + s.counters[row.key].download <= MAX_INT64
             && row.id in s.chain && s.chain[row.id] == Totals(row.download, row.upload)
    ensures var k := s.local.rows[i].key;
            var readings := [Reading(k, s.counters[k].upload, s.counters[k].download)];
            var after := Next(Next(s, maxPeers, ReadCounters(readings)), maxPeers, StoreUsage(NO_FAULTS));
            && LiveReadings(s.counters, readings)
            && i < |after.local.rows| && after.local.rows[i].id == s.local.rows[i].id
            && !Covers(after.chain, after.local.rows[i])
  {
    var r := Reading(s.local.rows[i].key, s.counters[s.local.rows[i].key].upload,
                     s.counters[s.local.rows[i].key].download);
    assert HasKey(s.local.rows, r.key);
    assert Lookup(s.local.rows, r.key) == Some(i);
    assert UsagePass(s.local, [r], NO_FAULTS).local == UsageStep(s.local, r, NO_FAULTS).local by {
      assert [r][1..] == [];
    }
  }

  // ---- a run in which it happens ----

  /** Orderly events lead from one state to another, with room for one peer. */
  ghost predicate Goes(s: State, events: seq<Event>, after: State) {
    OrderlyRun(s, 1, events) && Run(s, 1, events) == after
  }

  lemma GoesOne(s: State, e: Event)
    requires Orderly(s, e)
    ensures Goes(s, [e], Next(s, 1, e))
  {
    assert [e][1..] == [];
  }

  lemma {:induction false} GoesOn(s: State, a: seq<Event>, m: State, b: seq<Event>, t: State)
    requires Goes(s, a, m) && Goes(m, b, t)
    ensures Goes(s, a + b, t)
    decreases |a|
  {
    if a == [] {
      assert a + b == b;
    } else {
      assert (a + b)[0] == a[0] && (a + b)[1..] == a[1..] + b;
      GoesOn(Next(s, 1, a[0]), a[1..], m, b, t);
    }
  }

  const K: Key := "k"

  /** A session of the account on this node, with what the chain holds for it. */
  function OnChain(upload: int): ChainSession { ChainSession(Active, "a", "n", 0, 0, upload, 0, None) }

  function RowOf(id: SessionId, upload: int): Row { Row(id, 0, K, "a", 0, 0, 0, upload, 0, 0) }

  /** The node with one peer and its row. */
  function Serving(id: SessionId, stored: int, moved: nat, usage: Option<seq<Reading>>, s: State): State {
    State(Local({K}, [RowOf(id, stored)]), map[K := Counter(moved, 0)], [], usage, None, s.chain, s.log)
  }

  function Idle(usage: Option<seq<Reading>>, s: State): State {
    State(Local({}, []), map[], [], usage, None, s.chain, s.log)
  }

  function Admitting(id: SessionId): seq<Event> {
    [Query("n", Request("a", id, K), Found(OnChain(0)), Unreachable, Unreachable)]
    + [CommitHandshake(0, 0, CommitFaults(false, false, false, false, map[], false, false, Removed))]
  }

  lemma Admits(s: State, usage: Option<seq<Reading>>, id: SessionId)
    requires id in s.chain && s.chain[id] == Totals(0, 0)
    ensures Goes(Idle(usage, s), Admitting(id), Serving(id, 0, 0, usage, s))
  {
    var idle, e := Idle(usage, s), Admitting(id);
    var asked := Next(idle, 1, e[0]);
    GoesOne(idle, e[0]);
    assert asked == idle.(handshakes := [Handshake(Request("a", id, K), Snapshot(OnChain(0), 0, 0, None))]);
    GoesOne(asked, e[1]);
    assert Find([], 0, "a") == [];
    assert Next(asked, 1, e[1]) == Serving(id, 0, 0, usage, s);
    GoesOn(idle, [e[0]], asked, [e[1]], Serving(id, 0, 0, usage, s));
  }

  function R(upload: nat): Reading { Reading(K, upload, 0) }

  function Counting(upload: nat): seq<Event> { [Move(K, upload, 0)] + [ReadCounters([R(upload)])] }

  lemma Reads(s: State, id: SessionId, stored: int, upload: nat)
    ensures Goes(Serving(id, stored, 0, None, s), Counting(upload), Serving(id, stored, upload, Some([R(upload)]), s))
  {
    var from, e := Serving(id, stored, 0, None, s), Counting(upload);
    var moved := Serving(id, stored, upload, None, s);
    GoesOne(from, e[0]);
    assert Next(from, 1, e[0]) == moved;
    GoesOne(moved, e[1]);
    GoesOn(from, [e[0]], moved, [e[1]], Next(moved, 1, e[1]));
  }

  function Retiring(): seq<Event> {
    [ReadTable] + [CheckOne(Answers(Nothing, Unreachable, Removed, false))] + [EndUpdate]
  }

  lemma Retires(s: State, id: SessionId, moved: nat, usage: Option<seq<Reading>>)
    ensures Goes(Serving(id, 0, moved, usage, s), Retiring(), Idle(usage, s))
  {
    var from, e := Serving(id, 0, moved, usage, s), Retiring();
    var read := from.(update := Some(Pass([RowOf(id, 0)], [])));
    var checked := Idle(usage, s).(update := Some(Pass([], [])));
    GoesOne(from, e[0]);
    GoesOne(read, e[1]);
    assert Without([RowOf(id, 0)], id) == [];
    assert Next(read, 1, e[1]) == checked;
    GoesOne(checked, e[2]);
    GoesOn(from, [e[0]], read, [e[1]], checked);
    GoesOn(from, [e[0]] + [e[1]], checked, [e[2]], Idle(usage, s));
  }

  lemma Stores(s: State, id: SessionId, stored: int, moved: nat, upload: nat)
    requires upload != stored && upload <= MAX_INT64
    ensures Goes(Serving(id, stored, moved, Some([R(upload)]), s), [StoreUsage(NO_FAULTS)],
                 Serving(id, upload, moved, None, s))
  {
    var from := Serving(id, stored, moved, Some([R(upload)]), s);
    GoesOne(from, StoreUsage(NO_FAULTS));
    assert Lookup(from.local.rows, K) == Some(0);
    assert UsagePass(from.local, [R(upload)], NO_FAULTS).local == UsageStep(from.local, R(upload), NO_FAULTS).local by {
      assert [R(upload)][1..] == [];
    }
  }

  function Reporting(id: SessionId, upload: int, told: int): seq<Event> {
    [ReadTable] + [CheckOne(Answers(Found(OnChain(told)), Unreachable, Removed, false))]
    + [Send([RowOf(id, upload)], true)] + [EndUpdate]
  }

  /** The state with a report sent and applied. */
  function Told(s: State, id: SessionId, upload: int, told: int): State {
    s.(log := s.log + [Report(id, Totals(0, upload), Totals(0, told))], chain := s.chain[id := Totals(0, upload)])
  }

  /** A session with bytes to report is kept. */
  lemma Keeps(s: State, row: Row, told: int)
    requires s.update == Some(Pass([row], [])) && row.upload != told && s.counters.Keys == s.local.peers
    ensures Next(s, 1, CheckOne(Answers(Found(OnChain(told)), Unreachable, Removed, false)))
      == s.(update := Some(Pass([], [row])))
  {
    assert [row] + [] == [row];
    assert CountersFor(s.local.peers, s.counters) == s.counters;
  }

  lemma Transmits(s: State, row: Row, told: int)
    requires s.update == Some(Pass([], [row])) && row.download == 0
    requires row.id in s.chain && s.chain[row.id] == Totals(0, told)
    ensures Next(s, 1, Send([row], true)) == Told(s, row.id, row.upload, told)
  {
    assert Reports([row], s.chain) == [Report(row.id, Totals(0, row.upload), Totals(0, told))];
    assert Apply([row], s.chain) == s.chain[row.id := Totals(0, row.upload)];
  }

  lemma Sends(s: State, id: SessionId, upload: int, told: int, moved: nat)
    requires id in s.chain && s.chain[id] == Totals(0, told) && upload != told
    ensures Goes(Serving(id, upload, moved, None, s), Reporting(id, upload, told),
                 Serving(id, upload, moved, None, Told(s, id, upload, told)))
  {
    var from, e, row := Serving(id, upload, moved, None, s), Reporting(id, upload, told), RowOf(id, upload);
    var read := from.(update := Some(Pass([row], [])));
    var checked := from.(update := Some(Pass([], [row])));
    var sent := Serving(id, upload, moved, None, Told(s, id, upload, told)).(update := checked.update);
    GoesOne(from, e[0]);
    GoesOne(read, e[1]);
    Keeps(read, row, told);
    GoesOne(checked, e[2]);
    Transmits(checked, row, told);
    GoesOne(sent, e[3]);
    GoesOn(from, [e[0]], read, [e[1]], checked);
    GoesOn(from, [e[0]] + [e[1]], checked, [e[2]], sent);
    GoesOn(from, [e[0]] + [e[1]] + [e[2]], sent, [e[3]], sent.(update := None));
  }

  const FIRST: seq<Event> := Admitting(1) + Counting(100) + Retiring() + Admitting(2) + [StoreUsage(NO_FAULTS)]

  const SECOND: seq<Event> := Reporting(2, 100, 0) + Counting(5) + [StoreUsage(NO_FAULTS)] + Reporting(2, 5, 100)

  /** The first session's reading ends up in the second session's row. */
  lemma FirstGoes(s: State)
    requires 1 in s.chain && 2 in s.chain && s.chain[1] == s.chain[2] == Totals(0, 0)
    ensures Goes(Idle(None, s), FIRST, Serving(2, 100, 0, None, s))
  {
    var start, waiting := Idle(None, s), Some([R(100)]);
    Admits(s, None, 1);
    Reads(s, 1, 0, 100);
    Retires(s, 1, 100, waiting);
    Admits(s, waiting, 2);
    Stores(s, 2, 0, 0, 100);
    GoesOn(start, Admitting(1), Serving(1, 0, 0, None, s), Counting(100), Serving(1, 0, 100, waiting, s));
    GoesOn(start, Admitting(1) + Counting(100), Serving(1, 0, 100, waiting, s), Retiring(), Idle(waiting, s));
    GoesOn(start, Admitting(1) + Counting(100) + Retiring(), Idle(waiting, s), Admitting(2),
           Serving(2, 0, 0, waiting, s));
    GoesOn(start, Admitting(1) + Counting(100) + Retiring() + Admitting(2), Serving(2, 0, 0, waiting, s),
           [StoreUsage(NO_FAULTS)], Serving(2, 100, 0, None, s));
  }

  /** It is reported, and the next reading takes the row back below what was reported. */
  lemma SecondGoes(s: State)
    requires 2 in s.chain && s.chain[2] == Totals(0, 0)
    ensures Goes(Serving(2, 100, 0, None, s), SECOND,
                 Serving(2, 5, 5, None, Told(Told(s, 2, 100, 0), 2, 5, 100)))
  {
    var from, told := Serving(2, 100, 0, None, s), Told(s, 2, 100, 0);
    Sends(s, 2, 100, 0, 0);
    Reads(told, 2, 100, 5);
    Stores(told, 2, 100, 5, 5);
    Sends(told, 2, 5, 100, 5);
    GoesOn(from, Reporting(2, 100, 0), Serving(2, 100, 0, None, told), Counting(5),
           Serving(2, 100, 5, Some([R(5)]), told));
    GoesOn(from, Reporting(2, 100, 0) + Counting(5), Serving(2, 100, 5, Some([R(5)]), told),
           [StoreUsage(NO_FAULTS)], Serving(2, 5, 5, None, told));
    GoesOn(from, Reporting(2, 100, 0) + Counting(5) + [StoreUsage(NO_FAULTS)], Serving(2, 5, 5, None, told),
           Reporting(2, 5, 100), Serving(2, 5, 5, None, Told(told, 2, 5, 100)));
  }

  /**
   From a node just started, every event in order and no live peer's counter
   ever falling, a key admitted again between a reading and its store leads to
   a report below the chain.
   */
  lemma CrossedReportsBelow(s: State)
    requires Booted(s) && s.local.rows == []
    requires 1 in s.chain && 2 in s.chain && s.chain[1] == s.chain[2] == Totals(0, 0)
    ensures OrderlyRun(s, 1, FIRST + SECOND)
    ensures exists p :: p in Run(s, 1, FIRST + SECOND).log && Below(p)
  {
    assert s == Idle(None, s);
    FirstGoes(s);
    SecondGoes(s);
    var after := Serving(2, 5, 5, None, Told(Told(s, 2, 100, 0), 2, 5, 100));
    GoesOn(s, FIRST, Serving(2, 100, 0, None, s), SECOND, after);
    var p := Report(2, Totals(0, 5), Totals(0, 100));
    assert p in after.log && Below(p);
  }
}
