/**
 The node's periodic passes over its peers and sessions: the usage pass,
 the decision about one session, retiring a session, and the update pass
 built from the two.
 */
module Jobs {
  import opened Basics
  import opened Sessions
  import opened Admission

  // ---- usage pass ----

  /** Keys whose lookup or write fails, and how removals go. */
  datatype UsageFaults = UsageFaults(lookups: set<Key>, writes: set<Key>, removals: map<Key, Removal>)

  datatype Passed = Passed(local: Local, failed: bool)

  function UsageStep(local: Local, r: Reading, f: UsageFaults): Passed {
    var how := RemovalOf(f.removals, r.key);
    if r.key in f.lookups then Passed(local, true)
    else
      match Lookup(local.rows, r.key)
      case None => Passed(local.(peers := Drop(local.peers, r.key, how)), how != Removed)
      case Some(i) =>
        var row := local.rows[i];
        var usage := ReportedUsage(row, r);
        if !usage.moved then Passed(local, false)
        else
          var unwritten := r.key in f.writes;
          var rows := if unwritten then local.rows
                      else local.rows[i := row.(upload := usage.upload, download := usage.download)];
          if row.available > 0 && Int64(r.upload + r.download) > row.available then
            Passed(Local(Drop(local.peers, r.key, how), rows), unwritten || how != Removed)
          else Passed(Local(local.peers, rows), unwritten)
  }

  function UsagePass(local: Local, readings: seq<Reading>, f: UsageFaults): Passed
    decreases |readings|
  {
    if readings == [] then Passed(local, false) else
      var first := UsageStep(local, readings[0], f);
      var rest := UsagePass(first.local, readings[1..], f);
      Passed(rest.local, first.failed || rest.failed)
  }

  /** A usage pass admits no peer and changes nothing of a row but its totals. */
  lemma {:induction false} UsageFrame(local: Local, readings: seq<Reading>, f: UsageFaults)
    ensures var after := UsagePass(local, readings, f).local;
            after.peers <= local.peers && SameRows(local.rows, after.rows)
    decreases |readings|
  {
    if readings != [] {
      UsageFrame(UsageStep(local, readings[0], f).local, readings[1..], f);
    }
  }

  /** The row with the totals a reading gives it. */
  function Credited(row: Row, r: Reading): Row {
    row.(upload := Int64(row.baseUpload + r.upload), download := Int64(row.baseDownload + r.download))
  }

  /** Whether the reading's upload differs from what is stored. */
  predicate Moved(row: Row, r: Reading) { Int64(row.baseUpload + r.upload) != row.upload }

  predicate Spent(row: Row, r: Reading) { row.available > 0 && Int64(r.upload + r.download) > row.available }

  /** What a pass makes of one row and its peer, given its reading and what fails for that key. */
  ghost predicate Settled(before: Local, after: Local, i: nat, r: Reading, f: UsageFaults) {
    && i < |before.rows| == |after.rows|
    && var row := before.rows[i];
       var acts := r.key !in f.lookups && Moved(row, r);
       && after.rows[i] == (if acts && r.key !in f.writes then Credited(row, r) else row)
       && (r.key in after.peers <==>
             r.key in before.peers && !(acts && Spent(row, r) && !Refuses(f.removals, r.key)))
  }

  ghost predicate Aside(before: Local, after: Local, i: nat, k: Key) {
    i < |before.rows| == |after.rows| && after.rows[i] == before.rows[i] && (k in after.peers <==> k in before.peers)
  }

  lemma UsageStepOwn(local: Local, r: Reading, f: UsageFaults, i: nat)
    requires UniqueKeys(local.rows) && i < |local.rows| && local.rows[i].key == r.key
    ensures Settled(local, UsageStep(local, r, f).local, i, r, f)
    ensures UsageStep(local, r, f).failed <==> OwnFails(local.rows, r, f)
  {
    assert HasKey(local.rows, r.key);
    assert Lookup(local.rows, r.key) == Some(i);
  }

  /** What the reading's own key calls for fails. */
  ghost predicate OwnFails(rows: seq<Row>, r: Reading, f: UsageFaults) {
    || r.key in f.lookups
    || (!HasKey(rows, r.key) && Fails(f.removals, r.key))
    || exists i :: 0 <= i < |rows| && rows[i].key == r.key && ActFails(rows[i], r, f)
  }

  predicate ActFails(row: Row, r: Reading, f: UsageFaults) {
    Moved(row, r) && (r.key in f.writes || (Spent(row, r) && Fails(f.removals, r.key)))
  }

  lemma UsageStepOther(local: Local, r: Reading, f: UsageFaults, i: nat, k: Key)
    requires i < |local.rows| && local.rows[i].key == k && r.key != k
    ensures Aside(local, UsageStep(local, r, f).local, i, k)
  {
  }

  lemma {:induction false} UsagePassOther(local: Local, readings: seq<Reading>, f: UsageFaults, i: nat, k: Key)
    requires i < |local.rows| && local.rows[i].key == k && forall r :: r in readings ==> r.key != k
    ensures Aside(local, UsagePass(local, readings, f).local, i, k)
    decreases |readings|
  {
    if readings != [] {
      assert readings[0] in readings;
      UsageStepOther(local, readings[0], f, i, k);
      UsagePassOther(UsageStep(local, readings[0], f).local, readings[1..], f, i, k);
    }
  }

  ghost predicate OneEach(readings: seq<Reading>) {
    forall i, j :: 0 <= i < j < |readings| ==> readings[i].key != readings[j].key
  }

  lemma OneEachRest(readings: seq<Reading>, r: Reading)
    requires OneEach(readings) && readings != []
    ensures OneEach(readings[1..])
    ensures readings[0] == r ==> forall x :: x in readings[1..] ==> x.key != r.key
    ensures r in readings && readings[0] != r ==> r in readings[1..] && readings[0].key != r.key
  {
    assert forall i :: 0 <= i < |readings| - 1 ==> readings[1..][i] == readings[i + 1];
  }

  /**
   With one reading a peer, whatever fails for the others: a known peer's row
   gets the totals at admission plus the reading, unless the upload did not
   move or its own lookup or write fails; and the peer goes exactly when the
   upload moved, the reading is past its cap and its own removal works.
   */
  lemma {:induction false} UsagePassMeans(local: Local, readings: seq<Reading>, f: UsageFaults, i: nat, r: Reading)
    requires UniqueKeys(local.rows) && i < |local.rows| && local.rows[i].key == r.key
    requires r in readings && OneEach(readings)
    ensures Settled(local, UsagePass(local, readings, f).local, i, r, f)
    decreases |readings|
  {
    var first := UsageStep(local, readings[0], f).local;
    OneEachRest(readings, r);
    if readings[0] == r {
      UsageStepOwn(local, r, f, i);
      UsagePassOther(first, readings[1..], f, i, r.key);
    } else {
      UsageStepOther(local, readings[0], f, i, r.key);
      UsageStepFrame(local, readings[0], f);
      KeepsIdentity(local.rows, first.rows);
      UsagePassMeans(first, readings[1..], f, i, r);
    }
  }

  lemma UsageStepFrame(local: Local, r: Reading, f: UsageFaults)
    ensures SameRows(local.rows, UsageStep(local, r, f).local.rows)
  {
  }

  lemma StepFailsIff(local: Local, r: Reading, f: UsageFaults)
    requires UniqueKeys(local.rows)
    ensures UsageStep(local, r, f).failed <==> OwnFails(local.rows, r, f)
  {
    var i := Lookup(local.rows, r.key);
    if i.Some? {
      UsageStepOwn(local, r, f, i.value);
    }
  }

  /** A step for another key does not change whether a reading's own fails. */
  lemma OwnFailsAside(local: Local, other: Reading, f: UsageFaults, r: Reading)
    requires r.key != other.key
    ensures OwnFails(UsageStep(local, other, f).local.rows, r, f) <==> OwnFails(local.rows, r, f)
  {
    var after := UsageStep(local, other, f).local.rows;
    UsageStepFrame(local, other, f);
    KeepsIdentity(local.rows, after);
    forall i | 0 <= i < |after| && after[i].key == r.key ensures after[i] == local.rows[i] {
      UsageStepOther(local, other, f, i, r.key);
    }
  }

  /** A pass reports an error exactly when some reading's own part fails. */
  lemma {:induction false} PassFailsIff(local: Local, readings: seq<Reading>, f: UsageFaults)
    requires UniqueKeys(local.rows) && OneEach(readings)
    ensures UsagePass(local, readings, f).failed <==> exists r :: r in readings && OwnFails(local.rows, r, f)
    decreases |readings|
  {
    if readings != [] {
      var r, rest := readings[0], readings[1..];
      var first := UsageStep(local, r, f).local;
      StepFailsIff(local, r, f);
      OneEachRest(readings, r);
      UsageStepFrame(local, r, f);
      KeepsIdentity(local.rows, first.rows);
      PassFailsIff(first, rest, f);
      forall x | x in rest ensures OwnFails(first.rows, x, f) <==> OwnFails(local.rows, x, f) {
        OwnFailsAside(local, r, f, x);
      }
      assert forall x :: x in readings <==> x == r || x in rest;
    }
  }

  /**
   A peer past its cap whose own lookup and removal work is still there after
   a pass exactly when its upload did not move, and then its download is not
   stored either.
   */
  lemma CapMissedIff(local: Local, readings: seq<Reading>, f: UsageFaults, i: nat, r: Reading)
    requires UniqueKeys(local.rows) && i < |local.rows| && local.rows[i].key == r.key && r.key in local.peers
    requires r in readings && OneEach(readings) && r.key !in f.lookups && !Refuses(f.removals, r.key)
    requires Spent(local.rows[i], r)
    ensures var after := UsagePass(local, readings, f).local;
            && (r.key in after.peers <==> !Moved(local.rows[i], r))
            && (r.key in after.peers ==> i < |after.rows| && after.rows[i] == local.rows[i])
  {
    UsagePassMeans(local, readings, f, i, r);
  }

  /** A peer that only downloads stays past its cap. */
  lemma DownloadPastCap(row: Row, r: Reading)
    requires row.key == r.key && row.upload == row.baseUpload == 0 && r.upload == 0
    requires 0 < row.available < r.download <= MAX_INT64
    ensures Spent(row, r) && !Moved(row, r)
  {
  }

  lemma UsageSafe(local: Local, readings: seq<Reading>, f: UsageFaults, maxPeers: nat)
    requires Safe(local, maxPeers)
    ensures Safe(UsagePass(local, readings, f).local, maxPeers)
    ensures Orphans(UsagePass(local, readings, f).local) <= Orphans(local)
  {
    var after := UsagePass(local, readings, f).local;
    UsageFrame(local, readings, f);
    KeepsIdentity(local.rows, after.rows);
    FewerPeersSafe(local, after.peers, maxPeers);
  }

  lemma StepOnOrphan(local: Local, r: Reading, f: UsageFaults, k: Key)
    requires !HasKey(local.rows, k)
    ensures var after := UsageStep(local, r, f).local;
            && !HasKey(after.rows, k)
            && (k in after.peers <==>
                  k in local.peers && (r.key == k ==> k in f.lookups || Refuses(f.removals, k)))
  {
    UsageStepFrame(local, r, f);
    KeepsIdentity(local.rows, UsageStep(local, r, f).local.rows);
  }

  /**
   A usage pass removes every peer it was given for which the table has no
   row, unless that peer's own lookup or removal fails.
   */
  lemma {:induction false} UsageRemovesOrphans(local: Local, readings: seq<Reading>, f: UsageFaults, k: Key)
    requires !HasKey(local.rows, k)
    ensures k in UsagePass(local, readings, f).local.peers <==>
      k in local.peers &&
        ((exists r :: r in readings && r.key == k) ==> k in f.lookups || Refuses(f.removals, k))
    decreases |readings|
  {
    if readings != [] {
      StepOnOrphan(local, readings[0], f, k);
      UsageRemovesOrphans(UsageStep(local, readings[0], f).local, readings[1..], f, k);
      assert forall r :: r in readings <==> r == readings[0] || r in readings[1..];
    }
  }

  // ---- update pass ----

  datatype Decision = Decision(removePeer: bool, removeSession: bool, skip: bool, failed: bool)

  /**
   What to do with a stored session given what the chain answers. A row goes
   only together with its peer and is then not reported; a session the chain
   cannot be asked about is left alone.
   */
  function CheckSession(item: Row, session: Answer<ChainSession>, subscription: Answer<Status>): (d: Decision)
    ensures d.removeSession ==> d.removePeer && d.skip
    ensures d.failed ==> d.skip
    ensures session.Unreachable? ==> !d.removePeer && !d.removeSession
  {
    match session
    case Unreachable => Decision(false, false, true, true)
    case Nothing => Decision(true, true, true, false)
    case Found(s) =>
      var reported := item.upload == s.upload && item.download == s.download;
      var stale := reported && item.created < s.statusAt;
      var full := s.maxBytes > 0 && Int64(item.upload + item.download) >= s.maxBytes;
      var removePeer := stale || s.status != Active || full;
      var ended := s.status == Inactive;
      match s.subscription
      case None => Decision(removePeer, ended, reported || ended, false)
      case Some(_) =>
        match subscription
        case Unreachable => Decision(removePeer, ended, true, true)
        case Nothing => Decision(true, true, true, false)
        case Found(status) =>
          var over := ended || status == Inactive;
          Decision(removePeer || status != Active, over, reported || over, false)
  }

  /** The chain no longer serves the session: it is gone or over, or the subscription it belongs to is. */
  predicate Over(session: Answer<ChainSession>, subscription: Answer<Status>) {
    || session.Nothing?
    || (session.Found? && session.value.status == Inactive)
    || (session.Found? && session.value.subscription.Some?
        && (subscription.Nothing? || subscription == Found(Inactive)))
  }

  predicate Unchanged(item: Row, session: Answer<ChainSession>) {
    session.Found? && item.upload == session.value.upload && item.download == session.value.download
  }

  /** The session's subscription has to be asked about and cannot be. */
  predicate Unsettled(session: Answer<ChainSession>, subscription: Answer<Status>) {
    session.Found? && session.value.subscription.Some? && subscription.Unreachable?
  }

  /**
   It is an error exactly when a query that is needed is not answered, and
   then nothing is reported. The row goes exactly when the session is over as
   far as is known. Otherwise the report is left out exactly then or when
   nothing changed. The peer of a session the chain can be asked about stays
   exactly when it and its subscription are active as far as is known, bytes
   are left and the chain has not gone without a report since admission.
   */
  lemma DecisionMeans(item: Row, session: Answer<ChainSession>, subscription: Answer<Status>)
    ensures var d := CheckSession(item, session, subscription);
            && (d.failed <==> session.Unreachable? || Unsettled(session, subscription))
            && (d.removeSession <==> Over(session, subscription))
            && (d.skip <==> d.failed || Over(session, subscription) || Unchanged(item, session))
            && (!d.removePeer <==>
                  || session.Unreachable?
                  || (&& session.Found? && session.value.status == Active
                      && (session.value.subscription.Some? ==>
                            subscription == Found(Active) || subscription.Unreachable?)
                      && !(session.value.maxBytes > 0 && Int64(item.upload + item.download) >= session.value.maxBytes)
                      && !(Unchanged(item, session) && item.created < session.value.statusAt)))
  {
  }

  /** Removing a session's peer, its row, or both; the row only after the peer. */
  function Retire(
    local: Local, item: Row, removePeer: bool, removeSession: bool, how: Removal, undeleted: bool): Passed
  {
    var d := if removePeer then DropIfExists(local.peers, item.key, how) else Dropped(local.peers, false);
    if d.failed then Passed(Local(d.peers, local.rows), true)
    else if !removeSession then Passed(Local(d.peers, local.rows), false)
    else if undeleted then Passed(Local(d.peers, local.rows), true)
    else Passed(Local(d.peers, Without(local.rows, item.id)), false)
  }

  predicate PeerFails(peers: set<Key>, key: Key, removePeer: bool, how: Removal) {
    removePeer && key in peers && how != Removed
  }

  /**
   Retiring takes the session's peer and no other, unless the service keeps
   it; it deletes the session's row and no other, unless the peer could not be
   removed cleanly or the deletion fails; and nothing else is an error.
   */
  lemma RetireMeans(
    local: Local, item: Row, removePeer: bool, removeSession: bool, how: Removal, undeleted: bool)
    ensures
      var r := Retire(local, item, removePeer, removeSession, how, undeleted);
      var blocked := PeerFails(local.peers, item.key, removePeer, how);
      && (forall k :: k in r.local.peers <==>
            k in local.peers && !(k == item.key && removePeer && how != FailedKept))
      && (forall x :: x in r.local.rows <==>
            x in local.rows && !(x.id == item.id && removeSession && !undeleted && !blocked))
      && (r.failed <==> blocked || (removeSession && undeleted))
  {
  }

  /** What the chain answers about one session, and how retiring it goes. */
  datatype Answers = Answers(session: Answer<ChainSession>, subscription: Answer<Status>, how: Removal, undeleted: bool)

  function AnswersFor(answers: map<SessionId, Answers>, id: SessionId): Answers {
    if id in answers then answers[id] else Answers(Unreachable, Unreachable, Removed, false)
  }

  function DecisionFor(item: Row, answers: map<SessionId, Answers>): Decision {
    var a := AnswersFor(answers, item.id);
    CheckSession(item, a.session, a.subscription)
  }

  function UpdateStep(local: Local, item: Row, a: Answers): Passed {
    var d := CheckSession(item, a.session, a.subscription);
    var r :=
      if d.removePeer || d.removeSession then Retire(local, item, d.removePeer, d.removeSession, a.how, a.undeleted)
      else Passed(local, false);
    Passed(r.local, d.failed || r.failed)
  }

  datatype Swept = Swept(local: Local, kept: seq<Row>, failed: bool)

  /** The pass over the items, last to first. */
  function UpdatePass(local: Local, items: seq<Row>, answers: map<SessionId, Answers>): Swept
    decreases |items|
  {
    if items == [] then Swept(local, [], false) else
      var n := |items| - 1;
      var last := UpdateStep(local, items[n], AnswersFor(answers, items[n].id));
      var rest := UpdatePass(last.local, items[..n], answers);
      Swept(rest.local,
            if DecisionFor(items[n], answers).skip then rest.kept else rest.kept + [items[n]],
            last.failed || rest.failed)
  }

  /** What the answers about the item call for; an item there is no answer about is left alone. */
  function CalledFor(item: Row, answers: map<SessionId, Answers>): Decision {
    if item.id !in answers then Decision(false, false, true, true)
    else CheckSession(item, answers[item.id].session, answers[item.id].subscription)
  }

  /** The item's peer is to go and the service lets it. */
  predicate Cuts(item: Row, answers: map<SessionId, Answers>) {
    CalledFor(item, answers).removePeer && item.id in answers && answers[item.id].how != FailedKept
  }

  /** The item's peer is to go and cannot be removed cleanly. */
  predicate CutFails(peers: set<Key>, item: Row, answers: map<SessionId, Answers>) {
    CalledFor(item, answers).removePeer && item.key in peers && item.id in answers && answers[item.id].how != Removed
  }

  /** The item's row is to go, and nothing stands in the way. */
  predicate Deletes(peers: set<Key>, item: Row, answers: map<SessionId, Answers>) {
    && CalledFor(item, answers).removeSession
    && item.id in answers && !answers[item.id].undeleted && !CutFails(peers, item, answers)
  }

  /** Asking about the item or retiring it fails. */
  predicate ItemFails(peers: set<Key>, item: Row, answers: map<SessionId, Answers>) {
    || CalledFor(item, answers).failed
    || CutFails(peers, item, answers)
    || (CalledFor(item, answers).removeSession && item.id in answers && answers[item.id].undeleted)
  }

  lemma UpdateStepMeans(local: Local, item: Row, answers: map<SessionId, Answers>)
    ensures
      var r := UpdateStep(local, item, AnswersFor(answers, item.id));
      && (forall k :: k in r.local.peers <==> k in local.peers && !(k == item.key && Cuts(item, answers)))
      && (forall x :: x in r.local.rows <==>
            x in local.rows && !(x.id == item.id && Deletes(local.peers, item, answers)))
      && (r.failed <==> ItemFails(local.peers, item, answers))
  {
    var a := AnswersFor(answers, item.id);
    var d := CheckSession(item, a.session, a.subscription);
    RetireMeans(local, item, d.removePeer, d.removeSession, a.how, a.undeleted);
  }

  lemma LastSplit(items: seq<Row>)
    requires items != []
    ensures forall x :: x in items <==> x in items[..|items| - 1] || x == items[|items| - 1]
  {
    assert items == items[..|items| - 1] + [items[|items| - 1]];
  }

  /**
   After an update pass a peer is live exactly when it was before and no item
   of its key called for its removal, but for removals the service refused.
   */
  lemma {:induction false} UpdateCuts(local: Local, items: seq<Row>, answers: map<SessionId, Answers>, k: Key)
    ensures k in UpdatePass(local, items, answers).local.peers <==>
      k in local.peers && !exists item :: item in items && item.key == k && Cuts(item, answers)
    decreases |items|
  {
    if items != [] {
      var n := |items| - 1;
      LastSplit(items);
      UpdateStepMeans(local, items[n], answers);
      UpdateCuts(UpdateStep(local, items[n], AnswersFor(answers, items[n].id)).local, items[..n], answers, k);
    }
  }

  /** A step for another key changes nothing about an item. */
  lemma ItemAside(local: Local, other: Row, answers: map<SessionId, Answers>, item: Row)
    requires item.key != other.key
    ensures var after := UpdateStep(local, other, AnswersFor(answers, other.id)).local.peers;
            && (Deletes(after, item, answers) <==> Deletes(local.peers, item, answers))
            && (ItemFails(after, item, answers) <==> ItemFails(local.peers, item, answers))
  {
    UpdateStepMeans(local, other, answers);
  }

  /**
   A row is there after an update pass exactly when it was before and its
   session was not to be deleted or could not be; and the pass reports an
   error exactly when something failed for one of the items.
   */
  lemma {:induction false} UpdateDeletes(local: Local, items: seq<Row>, answers: map<SessionId, Answers>, r: Row)
    requires UniqueKeys(items)
    ensures r in UpdatePass(local, items, answers).local.rows <==>
      r in local.rows && !exists item :: item in items && item.id == r.id && Deletes(local.peers, item, answers)
    ensures UpdatePass(local, items, answers).failed <==>
      exists item :: item in items && ItemFails(local.peers, item, answers)
    decreases |items|
  {
    if items != [] {
      var n := |items| - 1;
      var last, front := items[n], items[..n];
      var next := UpdateStep(local, last, AnswersFor(answers, last.id)).local;
      LastSplit(items);
      UpdateStepMeans(local, last, answers);
      UpdateDeletes(next, front, answers, r);
      forall item | item in front
        ensures Deletes(next.peers, item, answers) <==> Deletes(local.peers, item, answers)
        ensures ItemFails(next.peers, item, answers) <==> ItemFails(local.peers, item, answers)
      {
        ItemAside(local, last, answers, item);
      }
    }
  }

  /** The items not skipped, in table order. */
  function Reported(items: seq<Row>, answers: map<SessionId, Answers>): (kept: seq<Row>)
    ensures forall r :: r in kept <==> r in items && !CalledFor(r, answers).skip
  {
    if items == [] then []
    else (if CalledFor(items[0], answers).skip then [] else [items[0]]) + Reported(items[1..], answers)
  }

  lemma {:induction false} ReportedAppend(a: seq<Row>, b: seq<Row>, answers: map<SessionId, Answers>)
    ensures Reported(a + b, answers) == Reported(a, answers) + Reported(b, answers)
  {
    if a == [] {
      assert a + b == b;
    } else {
      assert (a + b)[1..] == a[1..] + b;
      ReportedAppend(a[1..], b, answers);
    }
  }

  /**
   Going backwards and deleting in place, the pass keeps exactly the sessions
   its decisions do not skip, in table order, whatever happens to the others.
   */
  lemma {:induction false} UpdateKeepsInOrder(local: Local, items: seq<Row>, answers: map<SessionId, Answers>)
    ensures UpdatePass(local, items, answers).kept == Reported(items, answers)
    decreases |items|
  {
    if items != [] {
      var n := |items| - 1;
      assert items == items[..n] + [items[n]];
      UpdateKeepsInOrder(UpdateStep(local, items[n], AnswersFor(answers, items[n].id)).local, items[..n], answers);
      ReportedAppend(items[..n], [items[n]], answers);
    }
  }

  lemma RetireSafe(
    local: Local, item: Row, removePeer: bool, removeSession: bool, how: Removal, undeleted: bool, maxPeers: nat)
    requires Safe(local, maxPeers)
    requires removeSession ==> removePeer
    requires forall r :: r in local.rows && r.id == item.id ==> r.key == item.key
    ensures var after := Retire(local, item, removePeer, removeSession, how, undeleted).local;
            && Safe(after, maxPeers)
            && after.peers <= local.peers
            && Orphans(after) <= Orphans(local)
            && (after.rows == local.rows
                || (after.rows == Without(local.rows, item.id) && item.key !in after.peers))
  {
    var after := Retire(local, item, removePeer, removeSession, how, undeleted).local;
    FewerPeersSafe(local, after.peers, maxPeers);
    if after.rows != local.rows {
      WithoutKeepsIds(local.rows, item.id);
      WithoutKeepsKeys(local.rows, item.id);
      WithoutKeepsOnePeer(Local(after.peers, local.rows), item.id);
    }
  }

  lemma TailOnePeer(local: Local)
    requires OnePeerPerAccount(local) && local.rows != []
    ensures OnePeerPerAccount(local.(rows := local.rows[1..]))
  {
  }

  lemma HeadApart(local: Local, r: Row)
    requires OnePeerPerAccount(local) && local.rows != [] && r in local.rows[1..]
    requires r.key in local.peers && local.rows[0].key in local.peers && r.address == local.rows[0].address
    ensures r.subscription != local.rows[0].subscription
  {
  }

  lemma {:induction false} WithoutKeepsOnePeer(local: Local, id: SessionId)
    requires OnePeerPerAccount(local)
    ensures OnePeerPerAccount(local.(rows := Without(local.rows, id)))
    decreases |local.rows|
  {
    if local.rows != [] {
      TailOnePeer(local);
      WithoutKeepsOnePeer(local.(rows := local.rows[1..]), id);
      var rest := Without(local.rows[1..], id);
      forall i | 0 <= i < |rest| && rest[i].key in local.peers && local.rows[0].key in local.peers
        && rest[i].address == local.rows[0].address
        ensures rest[i].subscription != local.rows[0].subscription
      {
        HeadApart(local, rest[i]);
      }
    }
  }

  // ---- final report at start-up ----

  function NeedsReport(item: Row, session: Answer<ChainSession>): bool {
    session.Found? && session.value.status == Active
    && (item.upload != session.value.upload || item.download != session.value.download)
  }

  function FinalReport(items: seq<Row>, sessions: map<SessionId, Answer<ChainSession>>): seq<Row> {
    if items == [] then [] else
      var rest := FinalReport(items[1..], sessions);
      if items[0].id in sessions && NeedsReport(items[0], sessions[items[0].id]) then [items[0]] + rest else rest
  }

  /** The last report holds exactly the rows still active on the chain with other totals. */
  lemma {:induction false} FinalReportMeans(items: seq<Row>, sessions: map<SessionId, Answer<ChainSession>>, r: Row)
    ensures r in FinalReport(items, sessions) <==>
      && r in items && r.id in sessions
      && sessions[r.id].Found? && sessions[r.id].value.status == Active && !Unchanged(r, sessions[r.id])
  {
    if items != [] {
      FinalReportMeans(items[1..], sessions, r);
    }
  }
}
