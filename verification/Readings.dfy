/**
 Whose reading a row gets. The usage pass reads the counters before it takes
 the lock, so a key may be admitted again between the reading and the pass.
 */
module Readings {
  import opened Basics
  import opened Sessions
  import opened Admission
  import opened Jobs
  import opened Lifecycle

  /** The commit an event is, if it is one. */
  function CommitOf(s: State, maxPeers: nat, e: Event): Option<Committed> {
    if e.CommitHandshake? && e.which < |s.handshakes| then
      var h := s.handshakes[e.which];
      Some(Commit(s.local, maxPeers, h.req, h.snapshot, e.now, e.commitFaults))
    else None
  }

  /** The row an event admits, if it admits one. */
  function RowAdmitted(s: State, maxPeers: nat, e: Event): Option<Row> {
    var c := CommitOf(s, maxPeers, e);
    if c.Some? && c.value.result.Ok? then Some(c.value.result.value) else None
  }

  /** The row of the last admission of the key in a run, if it has one. */
  function LastAdmitted(s: State, maxPeers: nat, events: seq<Event>, k: Key): Option<Row>
    decreases |events|
  {
    if events == [] then None
    else
      var later := LastAdmitted(Next(s, maxPeers, events[0]), maxPeers, events[1..], k);
      var now := RowAdmitted(s, maxPeers, events[0]);
      if later.Some? then later else if now.Some? && now.value.key == k then now else None
  }

  /** A row after a quiet event is an old row, or the one the event admits. */
  lemma QuietRow(s: State, maxPeers: nat, e: Event, r: Row)
    requires Inv(s, maxPeers) && !e.StoreUsage? && !e.Restart? && r in Next(s, maxPeers, e).local.rows
    ensures var now := RowAdmitted(s, maxPeers, e);
            if now.Some? && now.value.key == r.key then now == Some(r) else r in s.local.rows
  {
    if e.CommitHandshake? && e.which < |s.handshakes| {
      var h := s.handshakes[e.which];
      CommittedRow(s.local, maxPeers, h.req, h.snapshot, e.now, e.commitFaults, r);
    } else if e.CheckOne? && s.update.Some? && s.update.value.todo != [] {
      UpdateStepRows(s.local, s.update.value.todo[|s.update.value.todo| - 1], e.answers);
    }
  }

  /**
   After a run that stores no usage, the row of a key is the row it had
   before, unless the key was admitted in between: then it is the row of the
   last admission.
   */
  lemma {:induction false} RowSince(s: State, maxPeers: nat, events: seq<Event>, r: Row)
    requires Inv(s, maxPeers) && Quiet(events) && r in Run(s, maxPeers, events).local.rows
    ensures var last := LastAdmitted(s, maxPeers, events, r.key);
            if last.Some? then last == Some(r) else r in s.local.rows
    decreases |events|
  {
    if events != [] {
      var s' := Next(s, maxPeers, events[0]);
      assert events[0] in events;
      NextInv(s, maxPeers, events[0]);
      RowSince(s', maxPeers, events[1..], r);
      if LastAdmitted(s', maxPeers, events[1..], r.key).None? {
        QuietRow(s, maxPeers, events[0], r);
      }
    }
  }

  /**
   A reading is credited to the row its peer had when it was taken exactly
   when the key was not admitted between the reading and the pass; otherwise
   the new session's row gets its base plus what the earlier peer moved.
   */
  lemma ReadingGoesTo(
    read: State, maxPeers: nat, between: seq<Event>, stored: State, f: UsageFaults, reading: Reading, i: nat)
    requires Inv(read, maxPeers) && Quiet(between) && read.usage.Some? && stored == Run(read, maxPeers, between)
    requires reading in read.usage.value && OneEach(read.usage.value)
    requires i < |stored.local.rows| && stored.local.rows[i].key == reading.key
    requires Moved(stored.local.rows[i], reading) && reading.key !in f.lookups && reading.key !in f.writes
    ensures var row, after := stored.local.rows[i], Next(stored, maxPeers, StoreUsage(f)).local.rows;
            var last := LastAdmitted(read, maxPeers, between, reading.key);
            && i < |after| && after[i] == Credited(row, reading)
            && (if last.Some? then last == Some(row) else row in read.local.rows)
  {
    AlwaysSafe(read, maxPeers, between);
    CountersKept(read, maxPeers, between);
    UsagePassMeans(stored.local, read.usage.value, f, i, reading);
    assert Next(stored, maxPeers, StoreUsage(f)).local == UsagePass(stored.local, read.usage.value, f).local;
    RowSince(read, maxPeers, between, stored.local.rows[i]);
  }
}
