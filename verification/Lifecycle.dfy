/**
 The session lifecycle as a step system. Handshakes query the chain without a
 lock and commit under the admission lock later; the usage pass reads the
 service's counters before it takes the lock; the update pass reads the table
 once, then checks, retires and reports session by session. Any of these
 interleave, live peers move bytes meanwhile, any operation may fail, and the
 node may restart at any point.
 */
module Lifecycle {
  import opened Basics
  import opened Sessions
  import opened Admission
  import opened Jobs

  datatype Totals = Totals(download: int, upload: int)

  /** One total sent to the chain and what the chain held at that moment. */
  datatype Report = Report(id: SessionId, sent: Totals, held: Totals)

  datatype Handshake = Handshake(req: Request, snapshot: Snapshot)

  /** An update pass in progress: rows still to check, rows to report. */
  datatype Pass = Pass(todo: seq<Row>, kept: seq<Row>)

  /** What a live peer has moved since it was added. */
  datatype Counter = Counter(upload: nat, download: nat)

  datatype State = State(
    local: Local,
    counters: map<Key, Counter>,
    handshakes: seq<Handshake>,
    usage: Option<seq<Reading>>,
    update: Option<Pass>,
    chain: map<SessionId, Totals>,
    log: seq<Report>)

  datatype Event =
    | Query(self: string, req: Request,
            session: Answer<ChainSession>, subscription: Answer<Status>, allocation: Answer<Allocation>)
    | CommitHandshake(which: nat, now: int, commitFaults: CommitFaults)
    | Move(key: Key, upload: nat, download: nat)
    | ReadCounters(readings: seq<Reading>)
    | StoreUsage(usageFaults: UsageFaults)
    | ReadTable
    | CheckOne(answers: Answers)
    | Send(batch: seq<Row>, applied: bool)
    | EndUpdate
    | Restart(unread: bool, sessions: map<SessionId, Answer<ChainSession>>, applied: bool, uncleared: bool)
    | Open(id: SessionId, totals: Totals)
    | Close(id: SessionId)

  function Reports(batch: seq<Row>, chain: map<SessionId, Totals>): (log: seq<Report>)
    ensures forall p :: p in log ==>
      && p.id in chain && p.held == chain[p.id]
      && exists r :: r in batch && r.id == p.id && p.sent == Totals(r.download, r.upload)
  {
    if batch == [] then [] else
      var r := batch[0];
      (if r.id in chain then [Report(r.id, Totals(r.download, r.upload), chain[r.id])] else [])
      + Reports(batch[1..], chain)
  }

  /** The chain after a transaction: all its reports, or none. */
  function Apply(batch: seq<Row>, chain: map<SessionId, Totals>): (after: map<SessionId, Totals>)
    ensures after.Keys == chain.Keys
    ensures forall id :: id in chain ==>
      after[id] == chain[id] || exists r :: r in batch && r.id == id && after[id] == Totals(r.download, r.upload)
  {
    if batch == [] then chain
    else
      var rest := Apply(batch[1..], chain);
      if batch[0].id in chain then rest[batch[0].id := Totals(batch[0].download, batch[0].upload)] else rest
  }

  function Transmit(s: State, batch: seq<Row>, applied: bool): State {
    s.(log := s.log + Reports(batch, s.chain), chain := if applied then Apply(batch, s.chain) else s.chain)
  }

  /** Counters start at zero when a peer is added and go with it. */
  function CountersFor(peers: set<Key>, counters: map<Key, Counter>): map<Key, Counter> {
    map k | k in peers :: if k in counters then counters[k] else Counter(0, 0)
  }

  function WithLocal(s: State, local: Local): State {
    s.(local := local, counters := CountersFor(local.peers, s.counters))
  }

  /** One step; an event that is not enabled changes nothing. */
  function Next(s: State, maxPeers: nat, e: Event): State {
    match e
    case Query(self, req, session, subscription, allocation) =>
      var a := QueryAdmission(self, req, session, subscription, allocation);
      if a.Ok? then s.(handshakes := s.handshakes + [Handshake(req, a.value)]) else s
    case CommitHandshake(which, now, f) =>
      if which < |s.handshakes| then
        var h := s.handshakes[which];
        WithLocal(s, Commit(s.local, maxPeers, h.req, h.snapshot, now, f).local)
        .(handshakes := s.handshakes[..which] + s.handshakes[which + 1..])
      else s
    case Move(key, upload, download) =>
      if key in s.counters then
        var c := s.counters[key];
        s.(counters := s.counters[key := Counter(c.upload + upload, c.download + download)])
      else s
    case ReadCounters(readings) =>
      if s.usage.None? then s.(usage := Some(readings)) else s
    case StoreUsage(f) =>
      if s.usage.Some? then WithLocal(s, UsagePass(s.local, s.usage.value, f).local).(usage := None) else s
    case ReadTable =>
      if s.update.None? then s.(update := Some(Pass(s.local.rows, []))) else s
    case CheckOne(a) =>
      if s.update.Some? && s.update.value.todo != [] then
        var p := s.update.value;
        var item := p.todo[|p.todo| - 1];
        var d := CheckSession(item, a.session, a.subscription);
        WithLocal(s, UpdateStep(s.local, item, a).local).(update := Some(Checked(p, d.skip)))
      else s
    case Send(batch, applied) =>
      if s.update.Some? && s.update.value.todo == [] && (forall r :: r in batch ==> r in s.update.value.kept)
      then Transmit(s, batch, applied) else s
    case EndUpdate => s.(update := None)
    case Restart(unread, sessions, applied, uncleared) =>
      var down := WithLocal(s, Local({}, s.local.rows)).(handshakes := [], usage := None, update := None);
      if unread then down
      else
        var sent := Transmit(down, FinalReport(s.local.rows, sessions), applied);
        if uncleared then sent else sent.(local := Local({}, []))
    case Open(id, totals) => if id in s.chain then s else s.(chain := s.chain[id := totals])
    case Close(id) => s.(chain := s.chain - {id})
  }

  lemma {:induction false} ApplyMeans(batch: seq<Row>, chain: map<SessionId, Totals>, r: Row)
    requires UniqueIds(batch) && r in batch && r.id in chain
    ensures Apply(batch, chain)[r.id] == Totals(r.download, r.upload)
  {
    if batch[0] != r {
      assert forall i :: 0 <= i < |batch| - 1 ==> batch[1..][i] == batch[i + 1];
      ApplyMeans(batch[1..], chain, r);
    }
  }

  /**
   A transaction that is applied leaves the chain with exactly the totals it
   carried for sessions the chain has, and with all others as they were; one
   that is not leaves the chain. Nothing of the node changes but its log.
   */
  lemma TransmitMeans(s: State, batch: seq<Row>, applied: bool, id: SessionId)
    requires UniqueIds(batch)
    ensures var after := Transmit(s, batch, applied);
            && after == s.(log := after.log, chain := after.chain)
            && after.chain.Keys == s.chain.Keys
            && (forall r :: r in batch && applied && r.id in s.chain ==>
                  after.chain[r.id] == Totals(r.download, r.upload))
            && (id in s.chain && (!applied || forall r :: r in batch ==> r.id != id) ==> after.chain[id] == s.chain[id])
  {
    forall r | r in batch && r.id in s.chain ensures Apply(batch, s.chain)[r.id] == Totals(r.download, r.upload) {
      ApplyMeans(batch, s.chain, r);
    }
  }

  /**
   A restart ends every peer, handshake and pass. It keeps the rows exactly
   when the table could not be read or not be cleared, and sends the last
   report exactly when it could be read.
   */
  lemma RestartMeans(
    s: State, maxPeers: nat,
    unread: bool, sessions: map<SessionId, Answer<ChainSession>>, applied: bool, uncleared: bool)
    ensures var after := Next(s, maxPeers, Restart(unread, sessions, applied, uncleared));
            && after.local.peers == {} && after.counters == map[]
            && after.handshakes == [] && after.usage.None? && after.update.None?
            && after.local.rows == (if unread || uncleared then s.local.rows else [])
            && (if unread then after.log == s.log && after.chain == s.chain
                else var sent := Transmit(s, FinalReport(s.local.rows, sessions), applied);
                     after.log == sent.log && after.chain == sent.chain)
  {
  }

  /** What the chain does by itself changes the chain alone, and a pass in progress is not begun anew. */
  lemma ChainMoves(s: State, maxPeers: nat, id: SessionId, totals: Totals)
    ensures var after := Next(s, maxPeers, Open(id, totals));
            && after == s.(chain := after.chain)
            && after.chain == if id in s.chain then s.chain else s.chain[id := totals]
    ensures var after := Next(s, maxPeers, Close(id));
            && after == s.(chain := after.chain) && id !in after.chain
            && forall other :: other in s.chain && other != id ==>
                 other in after.chain && after.chain[other] == s.chain[other]
    ensures s.update.Some? ==> Next(s, maxPeers, ReadTable) == s
  {
  }

  function Run(s: State, maxPeers: nat, events: seq<Event>): State
    decreases |events|
  {
    if events == [] then s else Run(Next(s, maxPeers, events[0]), maxPeers, events[1..])
  }

  /** Right after start-up reconciliation: no peers, at most rows it could not clear. */
  ghost predicate Booted(s: State) {
    && s.local.peers == {} && s.counters == map[] && s.handshakes == [] && s.usage.None? && s.update.None?
    && UniqueIds(s.local.rows) && UniqueKeys(s.local.rows)
    && s.log == []
  }

  // ---- safety over every interleaving ----

  function Items(p: Pass): seq<Row> { p.todo + p.kept }

  /** The item still has its row; only the totals may have moved since it was read. */
  ghost predicate Stored(rows: seq<Row>, item: Row) {
    exists i :: 0 <= i < |rows| && SameRow(item, rows[i])
  }

  /** Every item of the pass is still stored, under the same id and key. */
  ghost predicate PassCurrent(s: State) {
    s.update.Some? ==>
      && UniqueIds(Items(s.update.value))
      && forall item :: item in Items(s.update.value) ==> Stored(s.local.rows, item)
  }

  ghost predicate Inv(s: State, maxPeers: nat) {
    Safe(s.local, maxPeers) && PassCurrent(s)
  }

  lemma StoredWithout(rows: seq<Row>, id: SessionId, item: Row)
    requires Stored(rows, item) && item.id != id
    ensures Stored(Without(rows, id), item)
  {
  }

  /** The pass after its last item is checked. */
  function Checked(p: Pass, skip: bool): Pass
    requires p.todo != []
  {
    var n := |p.todo| - 1;
    Pass(p.todo[..n], if skip then p.kept else [p.todo[n]] + p.kept)
  }

  /** A skipped item leaves the pass, and with it its id. */
  lemma CheckedItems(p: Pass, skip: bool)
    requires p.todo != [] && UniqueIds(Items(p))
    ensures var item, items := p.todo[|p.todo| - 1], Items(Checked(p, skip));
            && item in Items(p)
            && UniqueIds(items)
            && (forall other :: other in items ==> other in Items(p))
            && (skip ==> forall other :: other in items ==> other.id != item.id)
  {
    var n, items := |p.todo| - 1, Items(Checked(p, skip));
    assert Items(p)[n] == p.todo[n];
    if skip {
      assert forall k :: 0 <= k < |items| ==> items[k] == Items(p)[if k < n then k else k + 1];
    } else {
      assert items == Items(p);
    }
  }

  lemma UpdateStepRows(local: Local, item: Row, a: Answers)
    ensures var after := UpdateStep(local, item, a).local;
            after.rows == local.rows
            || (after.rows == Without(local.rows, item.id) && CheckSession(item, a.session, a.subscription).skip)
  {
  }

  /** Checking one session: the pass shrinks, and a deleted row is in it no more. */
  lemma CheckOneItems(s: State, maxPeers: nat, a: Answers)
    requires s.update.Some? && s.update.value.todo != [] && UniqueIds(Items(s.update.value))
    ensures
      var p, after := s.update.value, Next(s, maxPeers, CheckOne(a));
      var item := p.todo[|p.todo| - 1];
      && item in Items(p)
      && after == WithLocal(s, UpdateStep(s.local, item, a).local).(update := after.update) && after.update.Some?
      && UniqueIds(Items(after.update.value))
      && (forall other :: other in Items(after.update.value) ==> other in Items(p))
      && (after.local.rows != s.local.rows ==>
            && after.local.rows == Without(s.local.rows, item.id)
            && forall other :: other in Items(after.update.value) ==> other.id != item.id)
  {
    var p := s.update.value;
    var item := p.todo[|p.todo| - 1];
    CheckedItems(p, CheckSession(item, a.session, a.subscription).skip);
    UpdateStepRows(s.local, item, a);
  }

  lemma CheckOneInv(s: State, maxPeers: nat, a: Answers)
    requires Inv(s, maxPeers) && s.update.Some? && s.update.value.todo != []
    ensures Inv(Next(s, maxPeers, CheckOne(a)), maxPeers)
    ensures Orphans(Next(s, maxPeers, CheckOne(a)).local) <= Orphans(s.local)
  {
    var after := Next(s, maxPeers, CheckOne(a));
    var item := s.update.value.todo[|s.update.value.todo| - 1];
    var d := CheckSession(item, a.session, a.subscription);
    CheckOneItems(s, maxPeers, a);
    assert Stored(s.local.rows, item);
    var i :| 0 <= i < |s.local.rows| && SameRow(item, s.local.rows[i]);
    forall r | r in s.local.rows && r.id == item.id ensures r.key == item.key {
      var j :| 0 <= j < |s.local.rows| && s.local.rows[j] == r;
      assert i == j;
    }
    RetireSafe(s.local, item, d.removePeer, d.removeSession, a.how, a.undeleted, maxPeers);
    if after.local.rows != s.local.rows {
      forall other | other in Items(after.update.value) ensures Stored(after.local.rows, other) {
        StoredWithout(s.local.rows, item.id, other);
      }
    }
  }

  lemma NextInv(s: State, maxPeers: nat, e: Event)
    requires Inv(s, maxPeers)
    ensures Inv(Next(s, maxPeers, e), maxPeers)
  {
    var after := Next(s, maxPeers, e);
    match e
    case CommitHandshake(which, now, f) =>
      if which < |s.handshakes| {
        var h := s.handshakes[which];
        CommitSafe(s.local, maxPeers, h.req, h.snapshot, now, f);
        CommitShape(s.local, maxPeers, h.req, h.snapshot, now, f);
        KeepsPass(s, after);
      }
    case StoreUsage(f) =>
      if s.usage.Some? {
        UsageSafe(s.local, s.usage.value, f, maxPeers);
        UsageFrame(s.local, s.usage.value, f);
        KeepsPass(s, after);
      }
    case ReadTable =>
      if s.update.None? {
        var items := Items(after.update.value);
        assert items == s.local.rows;
        forall item | item in items ensures Stored(s.local.rows, item) {
          var i :| 0 <= i < |items| && items[i] == item;
          assert SameRow(item, s.local.rows[i]);
        }
      }
    case CheckOne(a) =>
      if s.update.Some? && s.update.value.todo != [] {
        CheckOneInv(s, maxPeers, a);
      }
    case _ =>
  }

  lemma KeepsPass(s: State, after: State)
    requires PassCurrent(s) && after.update == s.update
    requires SameRows(s.local.rows, after.local.rows) || s.local.rows <= after.local.rows
    ensures PassCurrent(after)
  {
  }

  /**
   In every state reachable from start-up, over any interleaving and any
   failures: no more than maxPeers live peers, session ids and keys unique,
   and no two live peers with rows share an account and a subscription.
   */
  lemma {:induction false} AlwaysSafe(s: State, maxPeers: nat, events: seq<Event>)
    requires Inv(s, maxPeers)
    ensures Inv(Run(s, maxPeers, events), maxPeers)
    decreases |events|
  {
    if events != [] {
      NextInv(s, maxPeers, events[0]);
      AlwaysSafe(Next(s, maxPeers, events[0]), maxPeers, events[1..]);
    }
  }

  // ---- live peers without a row ----

  /** The commit of k's handshake could neither write its row nor take its peer out again. */
  predicate LostUndo(s: State, e: Event, k: Key) {
    && e.CommitHandshake? && e.which < |s.handshakes| && s.handshakes[e.which].req.key == k
    && e.commitFaults.create && e.commitFaults.undo == FailedKept
  }

  lemma NextOrphans(s: State, maxPeers: nat, e: Event, k: Key)
    requires Inv(s, maxPeers)
    requires k in Orphans(Next(s, maxPeers, e).local)
    ensures k in Orphans(s.local) || LostUndo(s, e, k)
  {
    match e
    case CommitHandshake(which, now, f) =>
      if which < |s.handshakes| {
        CommitOrphans(s.local, maxPeers, s.handshakes[which].req, s.handshakes[which].snapshot, now, f);
      }
    case StoreUsage(f) =>
      if s.usage.Some? {
        UsageSafe(s.local, s.usage.value, f, maxPeers);
      }
    case CheckOne(a) =>
      if s.update.Some? && s.update.value.todo != [] {
        CheckOneInv(s, maxPeers, a);
      }
    case _ =>
  }

  /** Event n of a run is such a commit for k. */
  predicate LostAt(s: State, maxPeers: nat, events: seq<Event>, k: Key, n: nat) {
    n < |events| && LostUndo(Run(s, maxPeers, events[..n]), events[n], k)
  }

  lemma LostLater(s: State, maxPeers: nat, events: seq<Event>, k: Key, n: nat)
    requires events != [] && LostAt(Next(s, maxPeers, events[0]), maxPeers, events[1..], k, n)
    ensures LostAt(s, maxPeers, events, k, n + 1)
  {
    var first := events[..n + 1];
    assert first[0] == events[0] && first[1..] == events[1..][..n];
    assert Run(s, maxPeers, first) == Run(Next(s, maxPeers, events[0]), maxPeers, first[1..]);
  }

  /** Over whole runs, a live peer has its row unless its own removal failed. */
  lemma {:induction false} OrphansHaveCause(s: State, maxPeers: nat, events: seq<Event>, k: Key)
    requires Inv(s, maxPeers)
    requires k in Orphans(Run(s, maxPeers, events).local)
    ensures k in Orphans(s.local) || exists n: nat :: LostAt(s, maxPeers, events, k, n)
    decreases |events|
  {
    if events != [] {
      var s' := Next(s, maxPeers, events[0]);
      NextInv(s, maxPeers, events[0]);
      OrphansHaveCause(s', maxPeers, events[1..], k);
      if k in Orphans(s'.local) {
        NextOrphans(s, maxPeers, events[0], k);
        assert k !in Orphans(s.local) ==> LostAt(s, maxPeers, events, k, 0);
      } else {
        var n: nat :| LostAt(s', maxPeers, events[1..], k, n);
        LostLater(s, maxPeers, events, k, n);
      }
    }
  }

  /** Over whole runs, a handshake adds a key the service holds only after an undo of that key failed. */
  lemma {:induction false} HeldKeyHasCause(
    s: State, maxPeers: nat, events: seq<Event>, req: Request, f: CommitFaults)
    requires Inv(s, maxPeers) && Orphans(s.local) == {}
    ensures var local := Run(s, maxPeers, events).local;
            CheckCapacity(local, maxPeers, req, f).Ok? && req.key in local.peers
            ==> exists n: nat :: LostAt(s, maxPeers, events, req.key, n)
  {
    var local := Run(s, maxPeers, events).local;
    if CheckCapacity(local, maxPeers, req, f).Ok? && req.key in local.peers {
      HeldKeyIsOrphan(local, maxPeers, req, f);
      OrphansHaveCause(s, maxPeers, events, req.key);
    }
  }

  /** No usage is stored and the node does not restart. */
  predicate Quiet(events: seq<Event>) { forall e :: e in events ==> !e.StoreUsage? && !e.Restart? }

  /** The readings name every live peer. */
  ghost predicate ReadAllPeers(s: State) {
    s.usage.Some? && forall p :: p in s.local.peers ==> exists r :: r in s.usage.value && r.key == p
  }

  lemma {:induction false} CountersKept(s: State, maxPeers: nat, events: seq<Event>)
    requires s.usage.Some? && Quiet(events)
    ensures Run(s, maxPeers, events).usage == s.usage
    decreases |events|
  {
    if events != [] {
      assert events[0] in events;
      CountersKept(Next(s, maxPeers, events[0]), maxPeers, events[1..]);
    }
  }

  /** The peer's own lookup and removal work. */
  predicate Removable(f: UsageFaults, k: Key) { k !in f.lookups && !Refuses(f.removals, k) }

  lemma SweptUnlessNew(read: State, maxPeers: nat, between: seq<Event>, f: UsageFaults, k: Key)
    requires Inv(read, maxPeers) && ReadAllPeers(read) && Removable(f, k)
    ensures var reached := Run(read, maxPeers, between).local;
            k in Orphans(UsagePass(reached, read.usage.value, f).local) ==>
              k !in read.local.peers && k in Orphans(reached)
  {
    var reached := Run(read, maxPeers, between).local;
    if k in Orphans(UsagePass(reached, read.usage.value, f).local) {
      AlwaysSafe(read, maxPeers, between);
      UsageSafe(reached, read.usage.value, f, maxPeers);
      UsageRemovesOrphans(reached, read.usage.value, f, k);
    }
  }

  /**
   A usage pass that has read every live peer leaves no rowless peer it had
   read whose own lookup and removal work, whatever fails for the others and
   whatever came in between: one that remains appeared after the read, by an
   undo that failed.
   */
  lemma UsagePassSweeps(read: State, maxPeers: nat, between: seq<Event>, f: UsageFaults, k: Key)
    requires Inv(read, maxPeers) && ReadAllPeers(read) && Quiet(between) && Removable(f, k)
    ensures k in Orphans(Next(Run(read, maxPeers, between), maxPeers, StoreUsage(f)).local) ==>
      k !in read.local.peers && exists n: nat :: LostAt(read, maxPeers, between, k, n)
  {
    var reached := Run(read, maxPeers, between);
    CountersKept(read, maxPeers, between);
    SweptUnlessNew(read, maxPeers, between, f, k);
    if k in Orphans(reached.local) {
      OrphansHaveCause(read, maxPeers, between, k);
    }
  }
}
