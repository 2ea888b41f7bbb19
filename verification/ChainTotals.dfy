/** Across whole runs of the lifecycle, what the node reports never falls below what the chain holds. */
module ChainTotals {
  import opened Basics
  import opened Sessions
  import opened Admission
  import opened Jobs
  import opened Lifecycle
  import opened Readings

  /** The chain holds no more for the session than this row would report. */
  predicate Covers(chain: map<SessionId, Totals>, r: Row) {
    r.id in chain ==> chain[r.id].download <= r.download && chain[r.id].upload <= r.upload
  }

  /** The chain holds no less than it did when the row was admitted. */
  predicate Started(chain: map<SessionId, Totals>, r: Row) {
    r.id in chain ==> r.baseDownload <= chain[r.id].download && r.baseUpload <= chain[r.id].upload
  }

  predicate Sane(r: Row) {
    0 <= r.baseDownload <= r.download <= MAX_INT64 && 0 <= r.baseUpload <= r.upload <= MAX_INT64
  }

  /** The stored row has moved on from this copy, if at all, upwards. */
  ghost predicate Ahead(rows: seq<Row>, item: Row) {
    exists i :: 0 <= i < |rows| && SameRow(item, rows[i])
      && item.download <= rows[i].download && item.upload <= rows[i].upload
  }

  ghost predicate Ordered(s: State) {
    && ChainInRange(s.chain)
    && RowsOrdered(s.local.rows, s.chain)
    && (s.update.Some? ==>
          forall item :: item in Items(s.update.value) ==>
            Sane(item) && Covers(s.chain, item) && Ahead(s.local.rows, item))
    && (forall p :: p in s.log ==> p.held.download <= p.sent.download && p.held.upload <= p.sent.upload)
  }

  // ---- what the chain relies on ----

  /** The readings are live peers' counters, one of each. */
  ghost predicate LiveReadings(counters: map<Key, Counter>, readings: seq<Reading>) {
    && OneEach(readings)
    && forall r :: r in readings ==>
         r.key in counters && r.upload == counters[r.key].upload && r.download == counters[r.key].download
  }

  /** What the row would hold after the reading is within 64 bits. */
  predicate Fits(r: Row, reading: Reading) {
    r.baseUpload + reading.upload <= MAX_INT64 && r.baseDownload + reading.download <= MAX_INT64
  }

  predicate AllFit(rows: seq<Row>, readings: seq<Reading>) {
    forall i, r :: 0 <= i < |rows| && r in readings && rows[i].key == r.key ==> Fits(rows[i], r)
  }

  /**
   The circumstances under which the chain accepts what the node reports: a
   handshake's snapshot is still current when it commits, readings are what
   live peers have moved, totals stay within 64 bits, and a session the chain
   opens is new.
   */
  ghost predicate Orderly(s: State, e: Event) {
    match e
    case CommitHandshake(which, _, _) =>
      which < |s.handshakes| ==>
        var h := s.handshakes[which];
        h.req.id in s.chain ==> s.chain[h.req.id] == Totals(h.snapshot.session.download, h.snapshot.session.upload)
    case ReadCounters(readings) => LiveReadings(s.counters, readings)
    case StoreUsage(f) => s.usage.Some? ==> AllFit(s.local.rows, s.usage.value)
    case Open(id, totals) =>
      && !IdTaken(s.local.rows, id)
      && 0 <= totals.download <= MAX_INT64 && 0 <= totals.upload <= MAX_INT64
    case _ => true
  }

  ghost predicate OrderlyRun(s: State, maxPeers: nat, events: seq<Event>)
    decreases |events|
  {
    events != [] ==> Orderly(s, events[0]) && OrderlyRun(Next(s, maxPeers, events[0]), maxPeers, events[1..])
  }

  /** The keys admitted since the counters waiting to be stored were read. */
  function AdmittedSince(s: State, maxPeers: nat, since: set<Key>, e: Event): set<Key> {
    if e.ReadCounters? && s.usage.None? then {}
    else
      var row := RowAdmitted(s, maxPeers, e);
      if row.Some? then since + {row.value.key} else since
  }

  /** No key of the readings a pass stores was admitted between its read and its store. */
  predicate Uncrossed(s: State, since: set<Key>, e: Event) {
    e.StoreUsage? && s.usage.Some? ==> forall r :: r in s.usage.value ==> r.key !in since
  }

  predicate UncrossedRun(s: State, maxPeers: nat, since: set<Key>, events: seq<Event>)
    decreases |events|
  {
    events != [] ==>
      && Uncrossed(s, since, events[0])
      && UncrossedRun(Next(s, maxPeers, events[0]), maxPeers, AdmittedSince(s, maxPeers, since, events[0]), events[1..])
  }

  predicate InOrder(chain: map<SessionId, Totals>, r: Row) { Sane(r) && Covers(chain, r) && Started(chain, r) }

  ghost predicate RowsOrdered(rows: seq<Row>, chain: map<SessionId, Totals>) {
    forall i :: 0 <= i < |rows| ==> InOrder(chain, rows[i])
  }

  /** Rows rise together: same sessions, no total lower. */
  ghost predicate Rise(a: seq<Row>, b: seq<Row>) {
    SameRows(a, b) && forall i :: 0 <= i < |a| ==> a[i].download <= b[i].download && a[i].upload <= b[i].upload
  }

  /** A step stores the reading in the row of its key, or leaves the rows alone. */
  lemma UsageStepRows(local: Local, r: Reading, f: UsageFaults)
    ensures var i, after := Lookup(local.rows, r.key), UsageStep(local, r, f).local;
            || after.rows == local.rows
            || (i.Some? && after.rows == local.rows[i.value := Credited(local.rows[i.value], r)])
  {
  }

  lemma RowRises(rows: seq<Row>, i: nat, r: Reading, chain: map<SessionId, Totals>)
    requires i < |rows| && RowsOrdered(rows, chain) && NeverDecreases(rows[i], r)
    ensures var after := rows[i := Credited(rows[i], r)]; RowsOrdered(after, chain) && Rise(rows, after)
  {
  }

  /** The reading does not take the row back. */
  predicate NeverDecreases(r: Row, reading: Reading) {
    r.upload <= r.baseUpload + reading.upload && r.download <= r.baseDownload + reading.download && Fits(r, reading)
  }

  ghost predicate AllRise(rows: seq<Row>, readings: seq<Reading>) {
    && OneEach(readings)
    && forall i, r :: 0 <= i < |rows| && r in readings && rows[i].key == r.key ==> NeverDecreases(rows[i], r)
  }

  lemma UsageStepRises(local: Local, readings: seq<Reading>, f: UsageFaults, chain: map<SessionId, Totals>)
    requires RowsOrdered(local.rows, chain) && readings != [] && AllRise(local.rows, readings)
    ensures var after := UsageStep(local, readings[0], f).local;
            && RowsOrdered(after.rows, chain) && Rise(local.rows, after.rows)
            && AllRise(after.rows, readings[1..])
  {
    var r := readings[0];
    UsageStepRows(local, r, f);
    OneEachRest(readings, r);
    var i := Lookup(local.rows, r.key);
    if i.Some? {
      assert r in readings;
      RowRises(local.rows, i.value, r, chain);
    }
  }

  lemma {:induction false} UsageRises(
    local: Local, readings: seq<Reading>, f: UsageFaults, chain: map<SessionId, Totals>)
    requires RowsOrdered(local.rows, chain) && AllRise(local.rows, readings)
    ensures var after := UsagePass(local, readings, f).local;
            RowsOrdered(after.rows, chain) && Rise(local.rows, after.rows)
    decreases |readings|
  {
    if readings != [] {
      UsageStepRises(local, readings, f, chain);
      UsageRises(UsageStep(local, readings[0], f).local, readings[1..], f, chain);
    }
  }

  // ---- rows and the counters of live peers ----

  /** The row holds no more than its base and the counter. */
  predicate Metered(r: Row, c: Counter) {
    r.upload <= r.baseUpload + c.upload && r.download <= r.baseDownload + c.download
  }

  /** The reading is no less than the row, and no more than the counter by now. */
  predicate StillDue(r: Row, reading: Reading, counters: map<Key, Counter>) {
    && r.upload <= r.baseUpload + reading.upload && r.download <= r.baseDownload + reading.download
    && (r.key in counters ==>
          reading.upload <= counters[r.key].upload && reading.download <= counters[r.key].download)
  }

  ghost predicate RowsMetered(rows: seq<Row>, counters: map<Key, Counter>) {
    forall i :: 0 <= i < |rows| && rows[i].key in counters ==> Metered(rows[i], counters[rows[i].key])
  }

  ghost predicate ReadingsDue(
    rows: seq<Row>, counters: map<Key, Counter>, readings: seq<Reading>, since: set<Key>)
  {
    && OneEach(readings)
    && forall i, r :: 0 <= i < |rows| && r in readings && rows[i].key == r.key && r.key !in since ==>
         StillDue(rows[i], r, counters)
  }

  /**
   The live peers' rows hold no more than their counters; the waiting readings
   are due, but for keys admitted since they were taken.
   */
  ghost predicate Counted(s: State, since: set<Key>) {
    && s.counters.Keys == s.local.peers
    && RowsMetered(s.local.rows, s.counters)
    && (s.usage.Some? ==> ReadingsDue(s.local.rows, s.counters, s.usage.value, since))
  }

  lemma DueRise(s: State, since: set<Key>, f: UsageFaults)
    requires Counted(s, since) && s.usage.Some? && Orderly(s, StoreUsage(f)) && Uncrossed(s, since, StoreUsage(f))
    ensures AllRise(s.local.rows, s.usage.value)
  {
  }

  /** A pass with one reading of each key credits a row once at most. */
  lemma {:induction false} CreditedOnce(local: Local, readings: seq<Reading>, f: UsageFaults, i: nat)
    requires i < |local.rows| && OneEach(readings)
    ensures var after := UsagePass(local, readings, f).local.rows;
            && |after| == |local.rows|
            && (after[i] == local.rows[i]
                || exists r :: r in readings && r.key == local.rows[i].key && after[i] == Credited(local.rows[i], r))
    decreases |readings|
  {
    if readings != [] {
      var next := UsageStep(local, readings[0], f).local;
      UsageStepRows(local, readings[0], f);
      OneEachRest(readings, readings[0]);
      if readings[0].key == local.rows[i].key {
        UsagePassOther(next, readings[1..], f, i, local.rows[i].key);
        assert readings[0] in readings;
      } else {
        CreditedOnce(next, readings[1..], f, i);
      }
    }
  }

  lemma StoredMetered(s: State, maxPeers: nat, since: set<Key>, f: UsageFaults)
    requires Counted(s, since) && s.usage.Some? && RowsOrdered(s.local.rows, s.chain)
    requires Orderly(s, StoreUsage(f)) && Uncrossed(s, since, StoreUsage(f))
    ensures Counted(Next(s, maxPeers, StoreUsage(f)), since)
  {
    var after := Next(s, maxPeers, StoreUsage(f));
    UsageFrame(s.local, s.usage.value, f);
    forall i | 0 <= i < |after.local.rows| && after.local.rows[i].key in after.counters
      ensures Metered(after.local.rows[i], after.counters[after.local.rows[i].key])
    {
      CreditedOnce(s.local, s.usage.value, f, i);
      assert SameRow(s.local.rows[i], after.local.rows[i]);
    }
  }

  lemma ReportsCovered(batch: seq<Row>, chain: map<SessionId, Totals>)
    requires forall r :: r in batch ==> Covers(chain, r)
    ensures forall p :: p in Reports(batch, chain) ==> !Below(p)
  {
  }

  ghost predicate ChainInRange(chain: map<SessionId, Totals>) {
    forall id :: id in chain ==> 0 <= chain[id].download <= MAX_INT64 && 0 <= chain[id].upload <= MAX_INT64
  }

  lemma AppliedInRange(rows: seq<Row>, chain: map<SessionId, Totals>, batch: seq<Row>)
    requires RowsOrdered(rows, chain) && ChainInRange(chain)
    requires forall r :: r in batch ==> Sane(r) && Covers(chain, r) && Ahead(rows, r)
    ensures ChainInRange(Apply(batch, chain))
  {
  }

  lemma AppliedRow(rows: seq<Row>, chain: map<SessionId, Totals>, batch: seq<Row>, i: nat)
    requires i < |rows| && UniqueIds(rows) && InOrder(chain, rows[i])
    requires forall r :: r in batch ==> Sane(r) && Ahead(rows, r)
    ensures InOrder(Apply(batch, chain), rows[i])
  {
    var id, after := rows[i].id, Apply(batch, chain);
    if id in chain && after[id] != chain[id] {
      var r :| r in batch && r.id == id && after[id] == Totals(r.download, r.upload);
      var j :| 0 <= j < |rows| && SameRow(r, rows[j]) && r.download <= rows[j].download && r.upload <= rows[j].upload;
      assert i == j;
    }
  }

  lemma AppliedRows(rows: seq<Row>, chain: map<SessionId, Totals>, batch: seq<Row>)
    requires UniqueIds(rows) && RowsOrdered(rows, chain)
    requires forall r :: r in batch ==> Sane(r) && Ahead(rows, r)
    ensures RowsOrdered(rows, Apply(batch, chain))
  {
    forall i | 0 <= i < |rows| ensures InOrder(Apply(batch, chain), rows[i]) {
      AppliedRow(rows, chain, batch, i);
    }
  }

  lemma AppliedItems(items: seq<Row>, chain: map<SessionId, Totals>, batch: seq<Row>)
    requires UniqueIds(items) && forall item :: item in items ==> Covers(chain, item)
    requires forall r :: r in batch ==> r in items
    ensures forall item :: item in items ==> Covers(Apply(batch, chain), item)
  {
  }

  /** Sending rows that cover the chain keeps everything covering it. */
  lemma TransmitOrdered(s: State, batch: seq<Row>, applied: bool)
    requires Ordered(s) && UniqueIds(s.local.rows)
    requires forall r :: r in batch ==> Sane(r) && Covers(s.chain, r) && Ahead(s.local.rows, r)
    requires s.update.Some? ==>
      UniqueIds(Items(s.update.value)) && forall r :: r in batch ==> r in Items(s.update.value)
    ensures Ordered(Transmit(s, batch, applied))
  {
    ReportsCovered(batch, s.chain);
    AppliedInRange(s.local.rows, s.chain, batch);
    AppliedRows(s.local.rows, s.chain, batch);
    if s.update.Some? {
      AppliedItems(Items(s.update.value), s.chain, batch);
    }
  }

  lemma AheadOfItself(rows: seq<Row>)
    ensures forall r :: r in rows ==> Ahead(rows, r)
  {
  }

  lemma AheadWithout(rows: seq<Row>, id: SessionId, item: Row)
    requires Ahead(rows, item) && item.id != id
    ensures Ahead(Without(rows, id), item)
  {
  }

  lemma CheckOneOrdered(s: State, maxPeers: nat, a: Answers)
    requires Inv(s, maxPeers) && Ordered(s) && s.update.Some? && s.update.value.todo != []
    ensures Ordered(Next(s, maxPeers, CheckOne(a)))
  {
    var after := Next(s, maxPeers, CheckOne(a));
    var item := s.update.value.todo[|s.update.value.todo| - 1];
    CheckOneItems(s, maxPeers, a);
    if after.local.rows != s.local.rows {
      forall i | 0 <= i < |after.local.rows| ensures InOrder(s.chain, after.local.rows[i]) {
        assert after.local.rows[i] in after.local.rows;
      }
      forall other | other in Items(after.update.value) ensures Ahead(after.local.rows, other) {
        AheadWithout(s.local.rows, item.id, other);
      }
    }
  }

  lemma RisingOrdered(s: State, after: State)
    requires Ordered(s) && RowsOrdered(after.local.rows, s.chain)
    requires after == s.(local := after.local, counters := after.counters,
                         handshakes := after.handshakes, usage := after.usage)
    requires Rise(s.local.rows, after.local.rows) || s.local.rows <= after.local.rows
    ensures Ordered(after)
  {
  }

  lemma NewRowOrdered(req: Request, a: Snapshot, available: int, now: int, chain: map<SessionId, Totals>)
    requires req.id in chain ==>
      && chain[req.id] == Totals(a.session.download, a.session.upload)
      && 0 <= chain[req.id].download <= MAX_INT64 && 0 <= chain[req.id].upload <= MAX_INT64
    ensures InOrder(chain, NewRow(req, a, available, now))
  {
  }

  lemma AppendedOrdered(before: seq<Row>, rows: seq<Row>, r: Row, chain: map<SessionId, Totals>)
    requires RowsOrdered(before, chain) && InOrder(chain, r) && (rows == before || rows == before + [r])
    ensures before <= rows && RowsOrdered(rows, chain)
  {
  }

  lemma CommitRowsOrdered(
    local: Local, maxPeers: nat, req: Request, a: Snapshot, now: int, f: CommitFaults, chain: map<SessionId, Totals>)
    requires RowsOrdered(local.rows, chain)
    requires req.id in chain ==>
      && chain[req.id] == Totals(a.session.download, a.session.upload)
      && 0 <= chain[req.id].download <= MAX_INT64 && 0 <= chain[req.id].upload <= MAX_INT64
    ensures var rows := Commit(local, maxPeers, req, a, now, f).local.rows;
            local.rows <= rows && RowsOrdered(rows, chain)
  {
    var available := CommitRows(local, maxPeers, req, a, now, f);
    NewRowOrdered(req, a, available, now, chain);
    AppendedOrdered(local.rows, Commit(local, maxPeers, req, a, now, f).local.rows,
                    NewRow(req, a, available, now), chain);
  }

  lemma CommitOrdered(s: State, maxPeers: nat, which: nat, now: int, f: CommitFaults)
    requires Ordered(s) && which < |s.handshakes| && Orderly(s, CommitHandshake(which, now, f))
    ensures Ordered(Next(s, maxPeers, CommitHandshake(which, now, f)))
  {
    var h := s.handshakes[which];
    CommitRowsOrdered(s.local, maxPeers, h.req, h.snapshot, now, f, s.chain);
    RisingOrdered(s, Next(s, maxPeers, CommitHandshake(which, now, f)));
  }

  lemma OpenOrdered(s: State, maxPeers: nat, id: SessionId, totals: Totals)
    requires Ordered(s) && Orderly(s, Open(id, totals))
    ensures Ordered(Next(s, maxPeers, Open(id, totals)))
  {
  }

  lemma StoreOrdered(s: State, maxPeers: nat, since: set<Key>, f: UsageFaults)
    requires Ordered(s) && Counted(s, since) && s.usage.Some?
    requires Orderly(s, StoreUsage(f)) && Uncrossed(s, since, StoreUsage(f))
    ensures Ordered(Next(s, maxPeers, StoreUsage(f)))
  {
    DueRise(s, since, f);
    UsageRises(s.local, s.usage.value, f, s.chain);
    RisingOrdered(s, Next(s, maxPeers, StoreUsage(f)));
  }

  lemma RestartOrdered(s: State, maxPeers: nat, e: Event)
    requires Inv(s, maxPeers) && Ordered(s) && e.Restart?
    ensures Ordered(Next(s, maxPeers, e))
  {
    var down := WithLocal(s, Local({}, s.local.rows)).(handshakes := [], usage := None, update := None);
    AheadOfItself(s.local.rows);
    forall r | r in FinalReport(s.local.rows, e.sessions) ensures r in s.local.rows {
      FinalReportMeans(s.local.rows, e.sessions, r);
    }
    TransmitOrdered(down, FinalReport(s.local.rows, e.sessions), e.applied);
  }

  lemma ReadTableOrdered(s: State, maxPeers: nat)
    requires Ordered(s)
    ensures Ordered(Next(s, maxPeers, ReadTable))
  {
    AheadOfItself(s.local.rows);
    if s.update.None? { assert Items(Next(s, maxPeers, ReadTable).update.value) == s.local.rows; }
  }

  /** Rows, chain and log are as before, and so is a pass still in progress. */
  lemma AsideOrdered(s: State, after: State)
    requires Ordered(s) && (after.update == s.update || after.update.None?)
    requires after.local.rows == s.local.rows && after.chain == s.chain && after.log == s.log
    ensures Ordered(after)
  {
  }

  lemma CloseOrdered(s: State, maxPeers: nat, id: SessionId)
    requires Ordered(s)
    ensures Ordered(Next(s, maxPeers, Close(id)))
  {
  }

  lemma NextOrdered(s: State, maxPeers: nat, since: set<Key>, e: Event)
    requires Inv(s, maxPeers) && Ordered(s) && Counted(s, since) && Orderly(s, e) && Uncrossed(s, since, e)
    ensures Ordered(Next(s, maxPeers, e))
  {
    match e
    case CommitHandshake(which, now, f) =>
      if which < |s.handshakes| { CommitOrdered(s, maxPeers, which, now, f); }
    case StoreUsage(f) =>
      if s.usage.Some? { StoreOrdered(s, maxPeers, since, f); }
    case ReadTable => ReadTableOrdered(s, maxPeers);
    case CheckOne(a) =>
      if s.update.Some? && s.update.value.todo != [] { CheckOneOrdered(s, maxPeers, a); }
    case Send(batch, applied) =>
      if Next(s, maxPeers, e) != s { TransmitOrdered(s, batch, applied); }
    case Restart(_, _, _, _) => RestartOrdered(s, maxPeers, e);
    case Open(id, totals) => OpenOrdered(s, maxPeers, id, totals);
    case Close(id) => CloseOrdered(s, maxPeers, id);
    case _ => AsideOrdered(s, Next(s, maxPeers, e));
  }

  /** Fewer peers and rows, and no admission: what was counted stays so. */
  lemma FewerCounted(s: State, local: Local, since: set<Key>)
    requires Counted(s, since) && local.peers <= s.local.peers
    requires forall r :: r in local.rows ==> r in s.local.rows
    ensures Counted(WithLocal(s, local), since)
  {
    var after := WithLocal(s, local);
    forall i | 0 <= i < |local.rows| ensures exists j :: 0 <= j < |s.local.rows| && s.local.rows[j] == local.rows[i] {
      assert local.rows[i] in local.rows;
    }
  }

  /** A commit makes no peer live that has a row already. */
  lemma CommitLive(local: Local, maxPeers: nat, req: Request, a: Snapshot, now: int, f: CommitFaults, i: nat)
    requires i < |local.rows| && local.rows[i].key in Commit(local, maxPeers, req, a, now, f).local.peers
    ensures local.rows[i].key in local.peers
  {
    CommitShape(local, maxPeers, req, a, now, f);
    assert HasKey(local.rows, local.rows[i].key);
  }

  predicate Fresh(r: Row) { r.upload == r.baseUpload && r.download == r.baseDownload }

  /** A row of its own key added at its base is counted, but for readings taken before. */
  lemma GrownCounted(s: State, local: Local, since: set<Key>, more: seq<Row>, since': set<Key>)
    requires Counted(s, since) && since <= since' && local.rows == s.local.rows + more
    requires forall i :: 0 <= i < |s.local.rows| && s.local.rows[i].key in local.peers ==>
      s.local.rows[i].key in s.local.peers
    requires forall i :: 0 <= i < |more| ==> Fresh(more[i]) && more[i].key in since'
    ensures Counted(WithLocal(s, local), since')
  {
    var after := WithLocal(s, local);
    forall i | |s.local.rows| <= i < |local.rows| ensures Fresh(local.rows[i]) && local.rows[i].key in since' {
      assert local.rows[i] == more[i - |s.local.rows|];
    }
    if s.usage.Some? {
      forall i, r | 0 <= i < |local.rows| && r in s.usage.value && local.rows[i].key == r.key && r.key !in since'
        ensures StillDue(local.rows[i], r, after.counters)
      {
        assert StillDue(s.local.rows[i], r, s.counters);
      }
    }
  }

  lemma CommitCounted(s: State, maxPeers: nat, since: set<Key>, which: nat, now: int, f: CommitFaults)
    requires Counted(s, since) && which < |s.handshakes|
    ensures var e := CommitHandshake(which, now, f);
            Counted(Next(s, maxPeers, e), AdmittedSince(s, maxPeers, since, e))
  {
    var h, e := s.handshakes[which], CommitHandshake(which, now, f);
    var c := Commit(s.local, maxPeers, h.req, h.snapshot, now, f);
    forall i | 0 <= i < |s.local.rows| && s.local.rows[i].key in c.local.peers
      ensures s.local.rows[i].key in s.local.peers
    {
      CommitLive(s.local, maxPeers, h.req, h.snapshot, now, f, i);
    }
    CommitShape(s.local, maxPeers, h.req, h.snapshot, now, f);
    var more := if c.result.Ok? then [c.result.value] else [];
    GrownCounted(s, c.local, since, more, AdmittedSince(s, maxPeers, since, e));
  }

  lemma ReadCounted(s: State, maxPeers: nat, since: set<Key>, readings: seq<Reading>)
    requires Counted(s, since) && Orderly(s, ReadCounters(readings))
    ensures var e := ReadCounters(readings); Counted(Next(s, maxPeers, e), AdmittedSince(s, maxPeers, since, e))
  {
  }

  lemma MoveCounted(s: State, maxPeers: nat, since: set<Key>, k: Key, upload: nat, download: nat)
    requires Counted(s, since)
    ensures Counted(Next(s, maxPeers, Move(k, upload, download)), since)
  {
  }

  lemma CheckOneCounted(s: State, maxPeers: nat, since: set<Key>, a: Answers)
    requires Inv(s, maxPeers) && Counted(s, since)
    ensures Counted(Next(s, maxPeers, CheckOne(a)), since)
  {
    if s.update.Some? && s.update.value.todo != [] {
      var item := s.update.value.todo[|s.update.value.todo| - 1];
      UpdateStepRows(s.local, item, a);
      FewerCounted(s, UpdateStep(s.local, item, a).local, since);
    }
  }

  lemma RestartCounted(s: State, maxPeers: nat, since: set<Key>, e: Event)
    requires e.Restart?
    ensures Counted(Next(s, maxPeers, e), since)
  {
  }

  lemma NextCounted(s: State, maxPeers: nat, since: set<Key>, e: Event)
    requires Inv(s, maxPeers) && Ordered(s) && Counted(s, since) && Orderly(s, e) && Uncrossed(s, since, e)
    ensures Counted(Next(s, maxPeers, e), AdmittedSince(s, maxPeers, since, e))
  {
    match e
    case CommitHandshake(which, now, f) =>
      if which < |s.handshakes| { CommitCounted(s, maxPeers, since, which, now, f); }
    case Move(k, upload, download) => MoveCounted(s, maxPeers, since, k, upload, download);
    case ReadCounters(readings) => ReadCounted(s, maxPeers, since, readings);
    case StoreUsage(f) =>
      if s.usage.Some? { StoredMetered(s, maxPeers, since, f); }
    case CheckOne(a) => CheckOneCounted(s, maxPeers, since, a);
    case Restart(_, _, _, _) => RestartCounted(s, maxPeers, since, e);
    case _ =>
  }

  /**
   Across whole runs, restarts included, no byte total sent to the chain for
   a session is below what the chain then holds for it, when no pass stores a
   reading of a key that was admitted after the reading was taken.
   */
  lemma {:induction false} ReportsNeverBelowChain(s: State, maxPeers: nat, since: set<Key>, events: seq<Event>)
    requires Inv(s, maxPeers) && Ordered(s) && Counted(s, since)
    requires OrderlyRun(s, maxPeers, events) && UncrossedRun(s, maxPeers, since, events)
    ensures Ordered(Run(s, maxPeers, events))
    ensures forall p :: p in Run(s, maxPeers, events).log ==> !Below(p)
    decreases |events|
  {
    if events != [] {
      NextInv(s, maxPeers, events[0]);
      NextOrdered(s, maxPeers, since, events[0]);
      NextCounted(s, maxPeers, since, events[0]);
      ReportsNeverBelowChain(Next(s, maxPeers, events[0]), maxPeers,
                             AdmittedSince(s, maxPeers, since, events[0]), events[1..]);
    }
  }

  /**
   A row admitted on a snapshot starts at or above the chain exactly when the
   chain has not moved past the snapshot.
   */
  lemma AdmittedCoversIffCurrent(
    local: Local, maxPeers: nat, req: Request, a: Snapshot, now: int, f: CommitFaults, chain: map<SessionId, Totals>)
    requires Commit(local, maxPeers, req, a, now, f).result.Ok? && req.id in chain
    ensures Covers(chain, Commit(local, maxPeers, req, a, now, f).result.value) <==>
      && chain[req.id].download <= ClampInt64(a.session.download)
      && chain[req.id].upload <= ClampInt64(a.session.upload)
  {
  }

  lemma {:induction false} ReportsAll(batch: seq<Row>, chain: map<SessionId, Totals>, r: Row)
    requires r in batch && r.id in chain
    ensures Report(r.id, Totals(r.download, r.upload), chain[r.id]) in Reports(batch, chain)
  {
    if batch[0] != r {
      ReportsAll(batch[1..], chain, r);
    }
  }

  predicate Below(p: Report) { p.sent.download < p.held.download || p.sent.upload < p.held.upload }

  /** A row below the chain that is sent is a report below the chain. */
  lemma SentBelow(s: State, batch: seq<Row>, applied: bool, r: Row)
    requires r in batch && !Covers(s.chain, r)
    ensures exists p :: p in Transmit(s, batch, applied).log && p.id == r.id && Below(p)
  {
    ReportsAll(batch, s.chain, r);
    var p := Report(r.id, Totals(r.download, r.upload), s.chain[r.id]);
    assert p in Transmit(s, batch, applied).log;
  }

  /** A node started on an empty table meets both invariants. */
  lemma BootedHolds(s: State, maxPeers: nat)
    requires Booted(s)
    ensures Inv(s, maxPeers)
    ensures Orphans(s.local) == {}
    ensures s.local.rows == [] && (forall id :: id in s.chain ==>
              0 <= s.chain[id].download <= MAX_INT64 && 0 <= s.chain[id].upload <= MAX_INT64)
            ==> Ordered(s)
    ensures Counted(s, {})
  {
  }
}
