/**
 The node's in-memory peers and session table with the operations that change
 them in place. Each is proved to do what its specification function says.
 */
module NodeOperations {
  import opened Basics
  import opened Sessions
  import opened Admission
  import opened Jobs
  import opened Reporting

  class Node {
    const maxPeers: nat
    var peers: set<Key>
    var rows: seq<Row>

    constructor (maxPeers: nat)
      ensures this.maxPeers == maxPeers && View() == Local({}, [])
    {
      this.maxPeers := maxPeers;
      peers, rows := {}, [];
    }

    ghost function View(): Local
      reads this
    {
      Local(peers, rows)
    }

    method RemovePeer(key: Key, how: Removal) returns (failed: bool)
      modifies this`peers
      ensures peers == Drop(old(peers), key, how) && failed == (how != Removed)
    {
      if how != FailedKept {
        peers := peers - {key};
      }
      failed := how != Removed;
    }

    method RemovePeerIfExists(key: Key, how: Removal) returns (failed: bool)
      modifies this`peers
      ensures Dropped(peers, failed) == DropIfExists(old(peers), key, how)
    {
      if key !in peers {
        return false;
      }
      failed := RemovePeer(key, how);
    }

    /** Bytes this node has served on the rows, summed one by one. */
    method SumServed(items: seq<Row>, start: int) returns (sum: int)
      ensures sum == start + ServedTotal(items)
    {
      sum := start;
      for i := 0 to |items|
        invariant sum + ServedTotal(items[i..]) == start + ServedTotal(items)
      {
        assert items[i..][1..] == items[i + 1..];
        sum := sum + ServedBytes(items[i]);
      }
    }

    method EvictAll(items: seq<Row>, removals: map<Key, Removal>) returns (failed: bool)
      modifies this`peers
      ensures Dropped(peers, failed) == Evict(old(peers), items, removals)
    {
      failed := false;
      for i := 0 to |items|
        invariant !failed
        invariant Evict(peers, items[i..], removals) == Evict(old(peers), items, removals)
      {
        assert items[i..][1..] == items[i + 1..];
        failed := RemovePeerIfExists(items[i].key, RemovalOf(removals, items[i].key));
        if failed {
          return;
        }
      }
    }

    /** The session's own cap tightened by what its allocation has left. */
    method RemainingBytes(req: Request, a: Snapshot, f: CommitFaults) returns (result: Result<int>)
      ensures result == AvailableBytes(View(), req, a, f)
    {
      var remaining := a.remaining;
      if a.allocation.Some? {
        if f.findAllocated {
          return Err(500, 8);
        }
        var granted := a.allocation.value.granted;
        var utilised := SumServed(Find(rows, a.subscription, req.account), a.allocation.value.utilised);
        if utilised >= granted {
          return Err(400, 8);
        }
        var left := ClampInt64(granted - utilised);
        if remaining == 0 || left < remaining {
          remaining := left;
        }
      }
      result := Ok(remaining);
    }

    /** The part of a handshake that runs under the admission lock. */
    method CommitHandshake(req: Request, a: Snapshot, now: int, f: CommitFaults) returns (result: Result<Row>)
      modifies this
      ensures Committed(View(), result) == Commit(old(View()), maxPeers, req, a, now, f)
    {
      var room := CheckCapacity(Local(peers, rows), maxPeers, req, f);
      if room.Err? {
        return Err(room.status, room.code);
      }
      var remaining := RemainingBytes(req, a, f);
      if remaining.Err? {
        return Err(remaining.status, remaining.code);
      }
      if f.findEarlier {
        return Err(500, 9);
      }
      var failed := EvictAll(Find(rows, a.subscription, req.account), f.removals);
      if failed {
        return Err(500, 9);
      }
      if f.add {
        return Err(500, 10);
      }
      peers := peers + {req.key};
      if f.create {
        failed := RemovePeer(req.key, f.undo);
        return Err(500, 10);
      }
      var row := NewRow(req, a, remaining.value, now);
      rows := rows + [row];
      result := Ok(row);
    }

    /** The usage pass after it has taken the lock. */
    method SetSessions(readings: seq<Reading>, f: UsageFaults) returns (failed: bool)
      modifies this
      ensures Passed(View(), failed) == UsagePass(old(View()), readings, f)
    {
      failed := false;
      for i := 0 to |readings|
        invariant var rest := UsagePass(View(), readings[i..], f);
                  Passed(rest.local, failed || rest.failed) == UsagePass(old(View()), readings, f)
      {
        assert readings[i..][1..] == readings[i + 1..];
        var stepFailed := StoreReading(readings[i], f);
        failed := failed || stepFailed;
      }
    }

    method StoreReading(r: Reading, f: UsageFaults) returns (failed: bool)
      modifies this
      ensures Passed(View(), failed) == UsageStep(old(View()), r, f)
    {
      if r.key in f.lookups {
        return true;
      }
      var found := Lookup(rows, r.key);
      if found.None? {
        failed := RemovePeer(r.key, RemovalOf(f.removals, r.key));
        return;
      }
      var item := rows[found.value];
      var usage := ReportedUsage(item, r);
      if !usage.moved {
        return false;
      }
      failed := r.key in f.writes;
      if !failed {
        rows := rows[found.value := item.(upload := usage.upload, download := usage.download)];
      }
      if item.available > 0 && Int64(r.upload + r.download) > item.available {
        var kept := RemovePeer(item.key, RemovalOf(f.removals, r.key));
        failed := failed || kept;
      }
    }

    method RetireSession(item: Row, removePeer: bool, removeSession: bool, how: Removal, undeleted: bool)
      returns (failed: bool)
      modifies this
      ensures Passed(View(), failed) == Retire(old(View()), item, removePeer, removeSession, how, undeleted)
    {
      failed := false;
      if removePeer {
        failed := RemovePeerIfExists(item.key, how);
        if failed {
          return;
        }
      }
      if removeSession {
        if undeleted {
          return true;
        }
        rows := Without(rows, item.id);
      }
    }

    /** One session checked, and retired as decided; skipped when it is not to be reported. */
    method SweepSession(item: Row, a: Answers) returns (skip: bool, failed: bool)
      modifies this
      ensures skip == CheckSession(item, a.session, a.subscription).skip
      ensures Passed(View(), failed) == UpdateStep(old(View()), item, a)
    {
      var d := CheckSession(item, a.session, a.subscription);
      skip, failed := d.skip, d.failed;
      if d.removePeer || d.removeSession {
        var retireFailed := RetireSession(item, d.removePeer, d.removeSession, a.how, a.undeleted);
        failed := failed || retireFailed;
      }
    }

    /**
     The checks of an update pass: last to first, each session is checked
     once, retired as decided, and deleted from the list in place when it is
     not to be reported.
     */
    method SweepSessions(answers: map<SessionId, Answers>) returns (items: seq<Row>, failed: bool)
      modifies this
      ensures Swept(View(), items, failed) == UpdatePass(old(View()), old(rows), answers)
    {
      items := rows;
      failed := false;
      var i := |items|;
      assert items[..i] == items && items[i..] == [];
      while i > 0
        invariant 0 <= i <= |items|
        invariant var rest := UpdatePass(View(), items[..i], answers);
                  Swept(rest.local, rest.kept + items[i..], failed || rest.failed)
                  == UpdatePass(old(View()), old(rows), answers)
      {
        i := i - 1;
        ghost var before, tail := items[..i + 1], items[i + 1..];
        var item := items[i];
        assert before[..i] == items[..i];
        var a := AnswersFor(answers, item.id);
        var skip, itemFailed := SweepSession(item, a);
        failed := failed || itemFailed;
        ghost var kept := UpdatePass(View(), before[..i], answers).kept;
        if skip {
          items := items[..i] + items[i + 1..];
          assert items[..i] == before[..i] && items[i..] == tail;
        } else {
          assert items[i..] == [item] + tail;
          assert kept + items[i..] == kept + [item] + tail;
        }
      }
    }

    /** The update pass: the checks, then the report of the sessions left. A table that cannot be read ends it. */
    method UpdateSessions(unread: bool, answers: map<SessionId, Answers>, chain: Chain)
      returns (items: seq<Row>, sent: seq<seq<Row>>, failed: bool)
      modifies this
      ensures unread ==> View() == old(View()) && items == [] && sent == [] && failed
      ensures !unread ==> View() == UpdatePass(old(View()), old(rows), answers).local
      ensures !unread ==> items == Reported(old(rows), answers)
      ensures items == [] ==> sent == []
      ensures items != [] ==> sent == Report(items, chain).sent
      ensures !unread ==>
                failed == (UpdatePass(old(View()), old(rows), answers).failed
                           || (items != [] && !Report(items, chain).ok))
    {
      if unread {
        return [], [], true;
      }
      items, failed := SweepSessions(answers);
      UpdateKeepsInOrder(old(View()), old(rows), answers);
      sent := [];
      if |items| > 0 {
        var ok;
        sent, ok := ReportSessions(items, chain);
        failed := failed || !ok;
      }
    }

    /** The rows of a previous run still active on the chain and not fully reported. */
    method CollectReport(sessions: map<SessionId, Answer<ChainSession>>) returns (report: seq<Row>)
      ensures report == FinalReport(rows, sessions)
    {
      report := [];
      for i := 0 to |rows|
        invariant report + FinalReport(rows[i..], sessions) == FinalReport(rows, sessions)
      {
        assert rows[i..][1..] == rows[i + 1..];
        if rows[i].id in sessions && NeedsReport(rows[i], sessions[rows[i].id]) {
          report := report + [rows[i]];
        }
      }
    }

    /**
     Start-up: the last report is sent once if there is anything in it, taken
     or not, then the table is emptied. A table that cannot be read is left as
     it is.
     */
    method ReconcileSessions(
      unread: bool, sessions: map<SessionId, Answer<ChainSession>>, chain: Chain, uncleared: bool)
      returns (sent: seq<seq<Row>>, taken: bool, failed: bool)
      modifies this`rows
      ensures var report := if unread then [] else FinalReport(old(rows), sessions);
              sent == (if report == [] then [] else [report]) && (taken <==> report != [] && chain.accepts(report))
      ensures rows == if unread || uncleared then old(rows) else []
      ensures failed == (!unread && old(rows) != [] && uncleared)
    {
      sent, taken, failed := [], false, false;
      if unread || |rows| == 0 {
        return;
      }
      var report := CollectReport(sessions);
      if |report| > 0 {
        sent, taken := [report], chain.accepts(report);
      }
      if uncleared {
        failed := true;
      } else {
        rows := [];
      }
    }
  }

  lemma AskUnroll(items: seq<Row>, chain: Chain, i: nat)
    requires i < |items|
    ensures Still(items[i..], chain)
         == (if Ended(chain, items[i]) then [] else [items[i]]) + Still(items[i + 1..], chain)
    ensures CountAnswered(items[i..], chain)
         == (if Answered(chain, items[i]) then 1 else 0) + CountAnswered(items[i + 1..], chain)
  {
    assert items[i..][1..] == items[i + 1..];
  }

  /** Asks about each session again; the ones not ended and how many answers came. */
  method AskAgain(items: seq<Row>, chain: Chain) returns (still: seq<Row>, queried: nat)
    ensures still == Still(items, chain) && queried == CountAnswered(items, chain)
  {
    still, queried := [], 0;
    for i := 0 to |items|
      invariant still + Still(items[i..], chain) == Still(items, chain)
      invariant queried + CountAnswered(items[i..], chain) == CountAnswered(items, chain)
    {
      AskUnroll(items, chain, i);
      Regroup(still, if Ended(chain, items[i]) then [] else [items[i]], Still(items[i + 1..], chain));
      if Answered(chain, items[i]) {
        queried := queried + 1;
      }
      if !Ended(chain, items[i]) {
        still := still + [items[i]];
      }
    }
  }

  lemma SinglyMore(still: seq<Row>, chain: Chain, i: nat)
    requires i < |still|
    ensures AllSingly(still[..i + 1], chain) <==> AllSingly(still[..i], chain) && chain.accepts([still[i]])
  {
  }

  method SendSingly(still: seq<Row>, chain: Chain) returns (sent: seq<seq<Row>>, ok: bool)
    ensures sent == Singles(still)
    ensures ok <==> AllSingly(still, chain)
  {
    sent, ok := [], true;
    for i := 0 to |still|
      invariant |sent| == i && forall j :: 0 <= j < i ==> sent[j] == [still[j]]
      invariant ok <==> AllSingly(still[..i], chain)
    {
      SinglyMore(still, chain, i);
      sent := sent + [[still[i]]];
      if !chain.accepts([still[i]]) {
        ok := false;
      }
    }
    assert still[..|still|] == still;
  }

  /** What is sent after the batch was refused. */
  method SendAgain(items: seq<Row>, still: seq<Row>, queried: nat, chain: Chain) returns (sent: seq<seq<Row>>, ok: bool)
    ensures Outcome(sent, ok) == Again(items, still, queried, chain)
  {
    sent := [items];
    if |still| == 0 {
      return sent, true;
    }
    if queried == 0 {
      return sent, false;
    }
    if |still| < |items| {
      sent := sent + [still];
      if chain.accepts(still) {
        return sent, true;
      }
    }
    var singly;
    singly, ok := SendSingly(still, chain);
    sent := sent + singly;
  }

  /** Sends the sessions; what was sent, in order, and whether it ended without an error. */
  method ReportSessions(items: seq<Row>, chain: Chain) returns (sent: seq<seq<Row>>, ok: bool)
    ensures Outcome(sent, ok) == Report(items, chain)
  {
    if chain.accepts(items) {
      return [items], true;
    }
    var still, queried := AskAgain(items, chain);
    sent, ok := SendAgain(items, still, queried, chain);
  }
}
