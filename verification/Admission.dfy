/**
 Admission of a handshake: what the chain must answer (queried without a
 lock), and the commit that runs under the admission lock against the peers
 the service holds and the session table.
 */
module Admission {
  import opened Basics
  import opened Sessions

  /** What the lock protects: the service's peers and the session table. */
  datatype Local = Local(peers: set<Key>, rows: seq<Row>)

  /**
   Outcomes of removing a peer. A service may fail and keep the peer, or
   forget the peer and then fail to cut its connection.
   */
  datatype Removal = Removed | FailedGone | FailedKept

  function RemovalOf(removals: map<Key, Removal>, key: Key): Removal {
    if key in removals then removals[key] else Removed
  }

  /** The key's removal does not work cleanly. */
  predicate Fails(removals: map<Key, Removal>, key: Key) { key in removals && removals[key] != Removed }

  /** The service refuses to remove the key. */
  predicate Refuses(removals: map<Key, Removal>, key: Key) { key in removals && removals[key] == FailedKept }

  function Drop(peers: set<Key>, key: Key, how: Removal): (left: set<Key>)
    ensures left <= peers
    ensures how != FailedKept ==> key !in left
    ensures forall k :: k in peers && k != key ==> k in left
  {
    if how == FailedKept then peers else peers - {key}
  }

  datatype Dropped = Dropped(peers: set<Key>, failed: bool)

  function DropIfExists(peers: set<Key>, key: Key, how: Removal): Dropped {
    if key !in peers then Dropped(peers, false) else Dropped(Drop(peers, key, how), how != Removed)
  }

  /** Removing the peers of some rows in turn, stopping at the first failure. */
  function Evict(peers: set<Key>, items: seq<Row>, removals: map<Key, Removal>): (d: Dropped)
    ensures d.peers <= peers
    ensures !d.failed ==> d.peers == peers - Keys(items)
  {
    if items == [] then Dropped(peers, false) else
      var first := DropIfExists(peers, items[0].key, RemovalOf(removals, items[0].key));
      assert Keys(items) == {items[0].key} + Keys(items[1..]) by {
        assert items == [items[0]] + items[1..];
      }
      if first.failed then first else Evict(first.peers, items[1..], removals)
  }

  predicate Blocks(peers: set<Key>, item: Row, removals: map<Key, Removal>) {
    item.key in peers && Fails(removals, item.key)
  }

  /** The first row whose live peer cannot be removed cleanly. */
  predicate FirstBlock(peers: set<Key>, items: seq<Row>, removals: map<Key, Removal>, i: nat) {
    && i < |items| && Blocks(peers, items[i], removals)
    && forall j :: 0 <= j < i ==> !Blocks(peers, items[j], removals)
  }

  /** What an eviction that ends at row i leaves. */
  ghost predicate LeftAt(peers: set<Key>, left: set<Key>, items: seq<Row>, removals: map<Key, Removal>, i: nat)
    requires i < |items|
  {
    forall k :: k in left <==>
      k in peers && (forall j :: 0 <= j < i ==> items[j].key != k) && (k == items[i].key ==> Refuses(removals, k))
  }

  /**
   Eviction fails exactly when some live peer of the rows cannot be removed
   cleanly. The first such row ends it: the peers of the rows before are gone,
   its own unless the service refuses, and those behind are left.
   */
  lemma {:induction false} EvictFailsIff(peers: set<Key>, items: seq<Row>, removals: map<Key, Removal>)
    requires UniqueKeys(items)
    ensures var d := Evict(peers, items, removals);
            && (d.failed <==> exists i :: 0 <= i < |items| && Blocks(peers, items[i], removals))
            && forall i: nat :: FirstBlock(peers, items, removals, i) ==> LeftAt(peers, d.peers, items, removals, i)
  {
    if items != [] {
      var rest := items[1..];
      var first := DropIfExists(peers, items[0].key, RemovalOf(removals, items[0].key));
      assert forall i :: 0 <= i < |rest| ==> rest[i] == items[i + 1];
      if !first.failed {
        EvictFailsIff(first.peers, rest, removals);
        forall i | 0 < i < |items|
          ensures Blocks(peers, items[i], removals) <==> Blocks(first.peers, rest[i - 1], removals)
        {
        }
        forall i: nat | FirstBlock(peers, items, removals, i)
          ensures LeftAt(peers, Evict(peers, items, removals).peers, items, removals, i)
        {
          EvictRest(peers, first.peers, items, removals, i);
        }
      }
    }
  }

  lemma EvictRest(peers: set<Key>, next: set<Key>, items: seq<Row>, removals: map<Key, Removal>, i: nat)
    requires UniqueKeys(items) && FirstBlock(peers, items, removals, i) && i > 0
    requires next == peers - {items[0].key}
    ensures FirstBlock(next, items[1..], removals, i - 1)
    ensures forall left :: LeftAt(next, left, items[1..], removals, i - 1) ==> LeftAt(peers, left, items, removals, i)
  {
    assert forall j :: 0 <= j < |items| - 1 ==> items[1..][j] == items[j + 1];
  }

  // ---- the chain's side ----

  datatype Status = Active | InactivePending | Inactive

  datatype ChainSession = ChainSession(
    status: Status,
    account: string,
    node: string,
    maxBytes: int,
    download: int,
    upload: int,
    statusAt: int,
    subscription: Option<nat>)

  datatype Allocation = Allocation(granted: int, utilised: int)

  /** A query fails, finds nothing, or finds a value. */
  datatype Answer<+T> = Unreachable | Nothing | Found(value: T)

  datatype Result<+T> = Ok(value: T) | Err(status: nat, code: nat)

  datatype Request = Request(account: string, id: SessionId, key: Key)

  /** Gathered before the lock; remaining 0 means the session has no own cap. */
  datatype Snapshot = Snapshot(
    session: ChainSession,
    subscription: nat,
    remaining: int,
    allocation: Option<Allocation>)

  function QueryAdmission(
    self: string, req: Request,
    session: Answer<ChainSession>, subscription: Answer<Status>, allocation: Answer<Allocation>): Result<Snapshot>
  {
    match session
    case Unreachable => Err(500, 5)
    case Nothing => Err(404, 5)
    case Found(s) =>
      if s.status != Active then Err(404, 5)
      else if s.account != req.account then Err(400, 5)
      else if s.node != self then Err(400, 7)
      else
        var left := s.maxBytes - (s.download + s.upload);
        if s.maxBytes > 0 && left <= 0 then Err(400, 8)
        else
          var remaining := if s.maxBytes > 0 then ClampInt64(left) else 0;
          match s.subscription
          case None => Ok(Snapshot(s, 0, remaining, None))
          case Some(id) =>
            match subscription
            case Unreachable => Err(500, 6)
            case Nothing => Err(404, 6)
            case Found(status) =>
              if status != Active then Err(400, 6)
              else match allocation
                case Unreachable => Err(500, 8)
                case Nothing => Err(404, 8)
                case Found(a) => Ok(Snapshot(s, id, remaining, Some(a)))
  }

  // ---- the commit under the lock ----

  /** Which of the commit's own operations fail. */
  datatype CommitFaults = CommitFaults(
    countById: bool,
    countByKey: bool,
    findAllocated: bool,
    findEarlier: bool,
    removals: map<Key, Removal>,
    add: bool,
    create: bool,
    undo: Removal)

  function CheckCapacity(local: Local, maxPeers: nat, req: Request, f: CommitFaults): Result<()> {
    if |local.peers| >= maxPeers then Err(400, 1)
    else if f.countById then Err(500, 3)
    else if IdTaken(local.rows, req.id) then Err(409, 3)
    else if f.countByKey then Err(500, 3)
    else if Lookup(local.rows, req.key).Some? then Err(409, 3)
    else Ok(())
  }

  function ServedTotal(items: seq<Row>): int {
    if items == [] then 0 else ServedBytes(items[0]) + ServedTotal(items[1..])
  }

  /** The byte cap stored in the row; 0 means uncapped. */
  function AvailableBytes(local: Local, req: Request, a: Snapshot, f: CommitFaults): Result<int> {
    match a.allocation
    case None => Ok(a.remaining)
    case Some(alloc) =>
      if f.findAllocated then Err(500, 8)
      else
        var utilised := alloc.utilised + ServedTotal(Find(local.rows, a.subscription, req.account));
        if utilised >= alloc.granted then Err(400, 8)
        else
          var left := ClampInt64(alloc.granted - utilised);
          Ok(if a.remaining == 0 || left < a.remaining then left else a.remaining)
  }

  function NewRow(req: Request, a: Snapshot, available: int, now: int): Row {
    var download, upload := ClampInt64(a.session.download), ClampInt64(a.session.upload);
    Row(req.id, a.subscription, req.key, req.account, now, available, download, upload, download, upload)
  }

  datatype Committed = Committed(local: Local, result: Result<Row>)

  function Commit(local: Local, maxPeers: nat, req: Request, a: Snapshot, now: int, f: CommitFaults): Committed {
    var room := CheckCapacity(local, maxPeers, req, f);
    var available := AvailableBytes(local, req, a, f);
    if room.Err? then Committed(local, Err(room.status, room.code))
    else if available.Err? then Committed(local, Err(available.status, available.code))
    else if f.findEarlier then Committed(local, Err(500, 9))
    else
      var d := Evict(local.peers, Find(local.rows, a.subscription, req.account), f.removals);
      if d.failed then Committed(Local(d.peers, local.rows), Err(500, 9))
      else if f.add then Committed(Local(d.peers, local.rows), Err(500, 10))
      else
        var peers := d.peers + {req.key};
        if f.create then Committed(Local(Drop(peers, req.key, f.undo), local.rows), Err(500, 10))
        else
          var row := NewRow(req, a, available.value, now);
          Committed(Local(peers, local.rows + [row]), Ok(row))
  }

  // ---- what a commit leaves behind ----

  /** No two live peers that have rows share an account and a subscription. */
  ghost predicate OnePeerPerAccount(local: Local) {
    forall i, j :: 0 <= i < j < |local.rows|
      && local.rows[i].key in local.peers && local.rows[j].key in local.peers
      && local.rows[i].address == local.rows[j].address
      ==> local.rows[i].subscription != local.rows[j].subscription
  }

  ghost predicate Safe(local: Local, maxPeers: nat) {
    && |local.peers| <= maxPeers
    && UniqueIds(local.rows)
    && UniqueKeys(local.rows)
    && OnePeerPerAccount(local)
  }

  /** Live peers the table does not know. */
  function Orphans(local: Local): (keys: set<Key>)
    ensures forall k :: k in keys <==> k in local.peers && !HasKey(local.rows, k)
  {
    local.peers - Keys(local.rows)
  }

  /** Losing peers and nothing else keeps every guarantee. */
  lemma FewerPeersSafe(local: Local, peers: set<Key>, maxPeers: nat)
    requires Safe(local, maxPeers) && peers <= local.peers
    ensures Safe(Local(peers, local.rows), maxPeers)
    ensures Orphans(Local(peers, local.rows)) <= Orphans(local)
  {
    SubsetSize(peers, local.peers);
  }

  /** A peer no row names, added below the limit, breaks no guarantee. */
  lemma StrayPeerSafe(local: Local, key: Key, maxPeers: nat)
    requires Safe(local, maxPeers) && |local.peers| < maxPeers && !HasKey(local.rows, key)
    ensures Safe(Local(local.peers + {key}, local.rows), maxPeers)
  {
  }

  /** Where a commit that changed anything can end. */
  lemma CommitShape(local: Local, maxPeers: nat, req: Request, a: Snapshot, now: int, f: CommitFaults)
    ensures
      var c := Commit(local, maxPeers, req, a, now, f);
      var d := Evict(local.peers, Find(local.rows, a.subscription, req.account), f.removals);
      && (c.result.Err? ==> c.local.rows == local.rows)
      && (c.result.Ok? || !(c.local.peers <= local.peers) ==>
            && |local.peers| < maxPeers && !HasKey(local.rows, req.key) && !HasId(local.rows, req.id)
            && !d.failed && c.local.peers == d.peers + {req.key})
      && (c.result.Ok? ==>
            && AvailableBytes(local, req, a, f).Ok?
            && c.result.value == NewRow(req, a, AvailableBytes(local, req, a, f).value, now)
            && c.local.rows == local.rows + [c.result.value])
  {
  }

  /** A commit leaves the rows alone or adds the row of the request. */
  lemma CommitRows(local: Local, maxPeers: nat, req: Request, a: Snapshot, now: int, f: CommitFaults)
    returns (available: int)
    ensures var rows := Commit(local, maxPeers, req, a, now, f).local.rows;
            rows == local.rows || rows == local.rows + [NewRow(req, a, available, now)]
  {
    var bytes := AvailableBytes(local, req, a, f);
    available := if bytes.Ok? then bytes.value else 0;
  }

  /** A row after a commit was there before, or is the one it admitted, the only one of its key. */
  lemma CommittedRow(local: Local, maxPeers: nat, req: Request, a: Snapshot, now: int, f: CommitFaults, r: Row)
    requires r in Commit(local, maxPeers, req, a, now, f).local.rows
    ensures var result := Commit(local, maxPeers, req, a, now, f).result;
            if result.Ok? && result.value.key == r.key then result.value == r else r in local.rows
  {
    CommitShape(local, maxPeers, req, a, now, f);
    if r in local.rows {
      var i :| 0 <= i < |local.rows| && local.rows[i] == r;
      assert HasKey(local.rows, r.key);
    }
  }

  /**
   A handshake is admitted exactly when there is room, neither its id nor its
   key is taken, bytes are left and nothing fails.
   */
  lemma AdmittedIff(local: Local, maxPeers: nat, req: Request, a: Snapshot, now: int, f: CommitFaults)
    ensures Commit(local, maxPeers, req, a, now, f).result.Ok? <==>
      && |local.peers| < maxPeers
      && !f.countById && !HasId(local.rows, req.id) && !f.countByKey && !HasKey(local.rows, req.key)
      && (a.allocation.Some? ==> !f.findAllocated && AllocationCap(local, req, a).value > 0)
      && !f.findEarlier && !Evict(local.peers, Find(local.rows, a.subscription, req.account), f.removals).failed
      && !f.add && !f.create
    ensures |local.peers| >= maxPeers || HasId(local.rows, req.id) || HasKey(local.rows, req.key) ==>
      Commit(local, maxPeers, req, a, now, f).local == local
  {
  }

  /**
   What a refusal under the lock says, by the first check that fails: no room,
   a failed lookup, a session or key already there, no bytes left, an earlier
   peer that stays, or a peer or row that could not be added.
   */
  lemma CommitRefusals(local: Local, maxPeers: nat, req: Request, a: Snapshot, now: int, f: CommitFaults)
    requires Commit(local, maxPeers, req, a, now, f).result.Err?
    ensures
      var r := Commit(local, maxPeers, req, a, now, f).result;
      var full := |local.peers| >= maxPeers;
      var taken := !f.countById && (HasId(local.rows, req.id) || (!f.countByKey && HasKey(local.rows, req.key)));
      var spent := a.allocation.Some? && !f.findAllocated && AllocationCap(local, req, a).value <= 0;
      && (r.code == 1 <==> full)
      && (r.code == 3 <==> !full && (f.countById || f.countByKey || taken))
      && (r.code == 8 <==>
            CheckCapacity(local, maxPeers, req, f).Ok? && a.allocation.Some? && (f.findAllocated || spent))
      && (r.code == 10 ==> f.add || f.create)
      && (r.code == 9 ==>
            f.findEarlier || Evict(local.peers, Find(local.rows, a.subscription, req.account), f.removals).failed)
      && r.code in {1, 3, 8, 9, 10}
      && (r.status == 409 <==> r.code == 3 && taken)
      && (r.status == 400 <==> r.code == 1 || (r.code == 8 && spent))
      && r.status in {400, 409, 500}
  {
  }

  lemma CommitSafe(local: Local, maxPeers: nat, req: Request, a: Snapshot, now: int, f: CommitFaults)
    requires Safe(local, maxPeers)
    ensures Safe(Commit(local, maxPeers, req, a, now, f).local, maxPeers)
  {
    var c := Commit(local, maxPeers, req, a, now, f);
    var d := Evict(local.peers, Find(local.rows, a.subscription, req.account), f.removals);
    CommitShape(local, maxPeers, req, a, now, f);
    if c.result.Err? && c.local.peers <= local.peers {
      FewerPeersSafe(local, c.local.peers, maxPeers);
    } else {
      FewerPeersSafe(local, d.peers, maxPeers);
      SubsetSize(d.peers, local.peers);
      StrayPeerSafe(Local(d.peers, local.rows), req.key, maxPeers);
      if c.result.Ok? {
        EvictionLeavesOne(local, maxPeers, req, a, now, f);
      }
    }
  }

  /**
   An eviction that went through takes exactly the live peers of the account's
   rows under the subscription; without a subscription, or without an account,
   of all that agree in the other.
   */
  lemma EvictedExactly(local: Local, subscription: nat, address: string, removals: map<Key, Removal>, k: Key)
    ensures var d := Evict(local.peers, Find(local.rows, subscription, address), removals);
            !d.failed ==>
              (k in d.peers <==>
                 && k in local.peers
                 && !exists i :: 0 <= i < |local.rows| && local.rows[i].key == k
                      && (subscription != 0 ==> local.rows[i].subscription == subscription)
                      && (address != "" ==> local.rows[i].address == address))
  {
    var found := Find(local.rows, subscription, address);
    forall i | 0 <= i < |local.rows| && Matches(subscription, address, local.rows[i])
      ensures HasKey(found, local.rows[i].key)
    {
      assert local.rows[i] in found;
    }
    forall i | 0 <= i < |found|
      ensures exists j :: 0 <= j < |local.rows| && local.rows[j] == found[i] && Matches(subscription, address, found[i])
    {
      assert found[i] in found;
    }
  }

  lemma AppendLive(local: Local, row: Row)
    requires UniqueIds(local.rows) && UniqueKeys(local.rows) && OnePeerPerAccount(local)
    requires !HasId(local.rows, row.id) && !HasKey(local.rows, row.key)
    requires forall i :: 0 <= i < |local.rows| && Matches(row.subscription, row.address, local.rows[i]) ==>
      local.rows[i].key !in local.peers
    ensures var c := Local(local.peers + {row.key}, local.rows + [row]);
            UniqueIds(c.rows) && UniqueKeys(c.rows) && OnePeerPerAccount(c)
  {
  }

  /** After an admission the new row is the only live one of its account and subscription. */
  lemma EvictionLeavesOne(local: Local, maxPeers: nat, req: Request, a: Snapshot, now: int, f: CommitFaults)
    requires Safe(local, maxPeers)
    requires Commit(local, maxPeers, req, a, now, f).result.Ok?
    ensures var c := Commit(local, maxPeers, req, a, now, f).local;
            UniqueIds(c.rows) && UniqueKeys(c.rows) && OnePeerPerAccount(c)
  {
    CommitShape(local, maxPeers, req, a, now, f);
    var d := Evict(local.peers, Find(local.rows, a.subscription, req.account), f.removals);
    forall i | 0 <= i < |local.rows| && Matches(a.subscription, req.account, local.rows[i])
      ensures local.rows[i].key !in d.peers
    {
      EvictedExactly(local, a.subscription, req.account, f.removals, local.rows[i].key);
    }
    AppendLive(Local(d.peers, local.rows), Commit(local, maxPeers, req, a, now, f).result.value);
  }

  /**
   A commit leaves a live peer without a row only when writing the row failed
   and taking the peer out again failed too.
   */
  lemma CommitOrphans(local: Local, maxPeers: nat, req: Request, a: Snapshot, now: int, f: CommitFaults)
    ensures forall k :: k in Orphans(Commit(local, maxPeers, req, a, now, f).local) && k !in Orphans(local) ==>
      k == req.key && f.create && f.undo == FailedKept
  {
  }

  /** A handshake with room whose key is held already is one for a live peer without a row. */
  lemma HeldKeyIsOrphan(local: Local, maxPeers: nat, req: Request, f: CommitFaults)
    requires CheckCapacity(local, maxPeers, req, f).Ok? && req.key in local.peers
    ensures req.key in Orphans(local)
  {
  }

  // ---- the byte cap of an admitted row ----

  /** What max_bytes leaves the session, if it has one. */
  function OwnCap(s: ChainSession): Option<int> {
    if s.maxBytes > 0 then Some(s.maxBytes - s.download - s.upload) else None
  }

  /** What the allocation leaves, less what this node already served on it. */
  function AllocationCap(local: Local, req: Request, a: Snapshot): Option<int> {
    match a.allocation
    case None => None
    case Some(alloc) =>
      Some(alloc.granted - alloc.utilised - ServedTotal(Find(local.rows, a.subscription, req.account)))
  }

  /** available is 0 for no cap, else the smallest cap, saturated at 64 bits. */
  ghost predicate Tightest(available: int, caps: set<int>) {
    if caps == {} then available == 0
    else
      && 0 < available <= MAX_INT64
      && (forall c :: c in caps ==> available <= c)
      && (available in caps || (available == MAX_INT64 && forall c :: c in caps ==> c > MAX_INT64))
  }

  function Caps(own: Option<int>, allocation: Option<int>): set<int> {
    (if own.Some? then {own.value} else {}) + (if allocation.Some? then {allocation.value} else {})
  }

  lemma SnapshotCaps(
    self: string, req: Request,
    session: Answer<ChainSession>, subscription: Answer<Status>, allocation: Answer<Allocation>)
    requires QueryAdmission(self, req, session, subscription, allocation).Ok?
    ensures
      var a := QueryAdmission(self, req, session, subscription, allocation).value;
      && session == Found(a.session)
      && a.session.status == Active && a.session.account == req.account && a.session.node == self
      && a.allocation.Some? == a.session.subscription.Some?
      && Tightest(a.remaining, Caps(OwnCap(a.session), None))
  {
  }

  /** A snapshot is given exactly when the chain has everything a session needs, bytes left included. */
  lemma SnapshotIff(
    self: string, req: Request,
    session: Answer<ChainSession>, subscription: Answer<Status>, allocation: Answer<Allocation>)
    ensures QueryAdmission(self, req, session, subscription, allocation).Ok? <==>
      && session.Found? && session.value.status == Active
      && session.value.account == req.account && session.value.node == self
      && (session.value.maxBytes > 0 ==> OwnCap(session.value).value > 0)
      && (session.value.subscription.Some? ==> subscription == Found(Active) && allocation.Found?)
  {
  }

  /** A snapshot carries the chain's own subscription and allocation, and none without a subscription. */
  lemma SnapshotCarries(
    self: string, req: Request,
    session: Answer<ChainSession>, subscription: Answer<Status>, allocation: Answer<Allocation>)
    requires QueryAdmission(self, req, session, subscription, allocation).Ok?
    ensures
      var a := QueryAdmission(self, req, session, subscription, allocation).value;
      && session == Found(a.session)
      && (if a.session.subscription.Some?
          then && a.subscription == a.session.subscription.value
               && allocation.Found? && a.allocation == Some(allocation.value)
          else a.subscription == 0 && a.allocation.None?)
  {
  }

  /** What the chain's allocation leaves of its grant, less what the account's rows under the subscription served. */
  function AllocationLeft(
    rows: seq<Row>, account: string, session: ChainSession, allocation: Answer<Allocation>): Option<int>
  {
    if session.subscription.Some? && allocation.Found? then
      var served := ServedTotal(Find(rows, session.subscription.value, account));
      Some(allocation.value.granted - (allocation.value.utilised + served))
    else None
  }

  /** The chain's session is active, the account's, on this node and has bytes left. */
  predicate ServedHere(self: string, req: Request, session: Answer<ChainSession>) {
    && session.Found? && session.value.status == Active
    && session.value.account == req.account && session.value.node == self
    && (session.value.maxBytes > 0 ==> OwnCap(session.value).value > 0)
  }

  /**
   What a refusal says: 500 exactly when a query that was needed was not
   answered, 404 exactly when something was not there or not active on the
   chain, and else 400; and whether session, subscription, node or bytes are
   the matter.
   */
  lemma QueryRefusals(
    self: string, req: Request,
    session: Answer<ChainSession>, subscription: Answer<Status>, allocation: Answer<Allocation>)
    requires QueryAdmission(self, req, session, subscription, allocation).Err?
    ensures
      var r := QueryAdmission(self, req, session, subscription, allocation);
      var here, planned := ServedHere(self, req, session), subscription == Found(Active);
      && (r.status == 500 <==>
            session.Unreachable? || (here && (subscription.Unreachable? || (planned && allocation.Unreachable?))))
      && (r.status == 404 <==>
            || session.Nothing? || (session.Found? && session.value.status != Active)
            || (here && (subscription.Nothing? || (planned && allocation.Nothing?))))
      && r.status in {400, 404, 500}
      && (r.code == 6 <==> here && !planned)
      && (r.code == 7 <==>
            && session.Found? && session.value.status == Active
            && session.value.account == req.account && session.value.node != self)
      && (r.code == 8 <==>
            || (here && planned)
            || (!here && session.Found? && session.value.status == Active
                && session.value.account == req.account && session.value.node == self))
      && r.code in {5, 6, 7, 8}
  {
  }

  lemma AllocationTightens(local: Local, req: Request, a: Snapshot, f: CommitFaults)
    requires Tightest(a.remaining, Caps(OwnCap(a.session), None))
    requires AvailableBytes(local, req, a, f).Ok?
    ensures Tightest(AvailableBytes(local, req, a, f).value, Caps(OwnCap(a.session), AllocationCap(local, req, a)))
  {
  }

  /** The cap the commit reads from its snapshot is what the chain's allocation leaves. */
  lemma SameAllocation(
    local: Local, self: string, req: Request,
    session: Answer<ChainSession>, subscription: Answer<Status>, allocation: Answer<Allocation>)
    requires QueryAdmission(self, req, session, subscription, allocation).Ok?
    ensures session.Found?
    ensures AllocationCap(local, req, QueryAdmission(self, req, session, subscription, allocation).value)
      == AllocationLeft(local.rows, req.account, session.value, allocation)
  {
    SnapshotCarries(self, req, session, subscription, allocation);
  }

  lemma CommittedTightest(local: Local, maxPeers: nat, req: Request, a: Snapshot, now: int, f: CommitFaults)
    requires Tightest(a.remaining, Caps(OwnCap(a.session), None))
    requires Commit(local, maxPeers, req, a, now, f).result.Ok?
    ensures Tightest(Commit(local, maxPeers, req, a, now, f).result.value.available,
                     Caps(OwnCap(a.session), AllocationCap(local, req, a)))
  {
    CommitShape(local, maxPeers, req, a, now, f);
    AllocationTightens(local, req, a, f);
  }

  /**
   An admitted row is uncapped exactly when neither max_bytes nor an
   allocation caps the session; otherwise its cap is positive and is the
   tightest of what the two leave on the chain, saturated at the largest
   64-bit integer.
   */
  lemma AvailableIsTightestCap(
    local: Local, maxPeers: nat, self: string, req: Request,
    session: Answer<ChainSession>, subscription: Answer<Status>, allocation: Answer<Allocation>,
    now: int, f: CommitFaults)
    requires QueryAdmission(self, req, session, subscription, allocation).Ok?
    requires Commit(local, maxPeers, req,
                    QueryAdmission(self, req, session, subscription, allocation).value, now, f).result.Ok?
    ensures
      var a := QueryAdmission(self, req, session, subscription, allocation).value;
      Tightest(Commit(local, maxPeers, req, a, now, f).result.value.available,
               Caps(OwnCap(session.value), AllocationLeft(local.rows, req.account, session.value, allocation)))
  {
    var a := QueryAdmission(self, req, session, subscription, allocation).value;
    SnapshotCaps(self, req, session, subscription, allocation);
    SameAllocation(local, self, req, session, subscription, allocation);
    CommittedTightest(local, maxPeers, req, a, now, f);
  }

  /**
   A handshake the chain answers for is admitted exactly when there is room,
   its id and key are free, its allocation has bytes left and nothing fails;
   its row then carries the request's id, key and account, the chain's
   subscription, and the chain's totals as base and as totals so far.
   */
  lemma AdmittedOnAnswersIff(
    local: Local, maxPeers: nat, self: string, req: Request,
    session: Answer<ChainSession>, subscription: Answer<Status>, allocation: Answer<Allocation>,
    now: int, f: CommitFaults)
    requires QueryAdmission(self, req, session, subscription, allocation).Ok?
    ensures
      var c := Commit(local, maxPeers, req,
                      QueryAdmission(self, req, session, subscription, allocation).value, now, f);
      var left := AllocationLeft(local.rows, req.account, session.value, allocation);
      var plan := if session.value.subscription.Some? then session.value.subscription.value else 0;
      && (c.result.Ok? <==>
            && |local.peers| < maxPeers
            && !f.countById && !HasId(local.rows, req.id) && !f.countByKey && !HasKey(local.rows, req.key)
            && (left.Some? ==> !f.findAllocated && left.value > 0)
            && !f.findEarlier && !Evict(local.peers, Find(local.rows, plan, req.account), f.removals).failed
            && !f.add && !f.create)
      && (c.result.Ok? ==>
            var r, held := c.result.value, session.value;
            && r.id == req.id && r.key == req.key && r.address == req.account
            && r.subscription == plan && r.created == now
            && r.download == r.baseDownload == ClampInt64(held.download)
            && r.upload == r.baseUpload == ClampInt64(held.upload))
  {
    SnapshotCarries(self, req, session, subscription, allocation);
    AdmittedIff(local, maxPeers, req, QueryAdmission(self, req, session, subscription, allocation).value, now, f);
    CommitShape(local, maxPeers, req, QueryAdmission(self, req, session, subscription, allocation).value, now, f);
  }
}
