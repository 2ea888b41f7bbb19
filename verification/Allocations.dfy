/** What the node counts against a subscription's allocation, and what the chain has not been told. */
module Allocations {
  import opened Basics
  import opened Sessions
  import opened Admission
  import opened Lifecycle
  import opened ChainTotals

  /** The chain is between what it held at admission and what the row would report, within 64 bits. */
  predicate Between(r: Row, chain: map<SessionId, Totals>) {
    && r.id in chain
    && r.baseDownload <= chain[r.id].download <= r.download && r.baseUpload <= chain[r.id].upload <= r.upload
    && r.download - r.baseDownload + r.upload - r.baseUpload <= MAX_INT64
  }

  /** What a row holds and the chain has not been told. */
  function Gap(r: Row, chain: map<SessionId, Totals>): int {
    if r.id in chain then r.download - chain[r.id].download + r.upload - chain[r.id].upload else 0
  }

  function Unreported(items: seq<Row>, chain: map<SessionId, Totals>): int {
    if items == [] then 0 else Gap(items[0], chain) + Unreported(items[1..], chain)
  }

  predicate NothingReported(r: Row, chain: map<SessionId, Totals>) {
    r.id in chain && chain[r.id] == Totals(r.baseDownload, r.baseUpload)
  }

  /**
   What is counted against an allocation besides what the chain has is at
   least the unreported bytes, and is just those exactly when nothing was
   reported since the rows were admitted.
   */
  lemma {:induction false} CountedIsUnreportedIff(items: seq<Row>, chain: map<SessionId, Totals>)
    requires forall r :: r in items ==> Between(r, chain)
    ensures ServedTotal(items) >= Unreported(items, chain)
    ensures ServedTotal(items) == Unreported(items, chain) <==> forall r :: r in items ==> NothingReported(r, chain)
  {
    if items != [] {
      assert items[0] in items;
      CountedIsUnreportedIff(items[1..], chain);
      assert Between(items[0], chain);
      assert forall r :: r in items <==> r == items[0] || r in items[1..];
    }
  }

  /** The account's rows under the subscription have sessions on the chain, and their bytes fit in 64 bits. */
  predicate OnChain(items: seq<Row>, chain: map<SessionId, Totals>) {
    forall r :: r in items ==>
      r.id in chain && r.download - r.baseDownload + r.upload - r.baseUpload <= MAX_INT64
  }

  /**
   After any orderly run, what a handshake counts against an allocation from
   the account's rows is just what the chain has not been told exactly when
   nothing was reported for them since they were admitted.
   */
  lemma CountedInRunsIff(
    s: State, maxPeers: nat, since: set<Key>, events: seq<Event>, subscription: nat, address: string)
    requires Inv(s, maxPeers) && Ordered(s) && Counted(s, since)
    requires OrderlyRun(s, maxPeers, events) && UncrossedRun(s, maxPeers, since, events)
    ensures var after := Run(s, maxPeers, events);
            var items := Find(after.local.rows, subscription, address);
            OnChain(items, after.chain) ==>
              && ServedTotal(items) >= Unreported(items, after.chain)
              && (ServedTotal(items) == Unreported(items, after.chain)
                  <==> forall r :: r in items ==> NothingReported(r, after.chain))
  {
    var after := Run(s, maxPeers, events);
    var items := Find(after.local.rows, subscription, address);
    ReportsNeverBelowChain(s, maxPeers, since, events);
    if OnChain(items, after.chain) {
      forall r | r in items ensures Between(r, after.chain) {
        var i :| 0 <= i < |after.local.rows| && after.local.rows[i] == r;
        assert InOrder(after.chain, after.local.rows[i]);
      }
      CountedIsUnreportedIff(items, after.chain);
    }
  }

  /** A row whose bytes were all reported is still counted in full. */
  lemma ReportedCountsAgain(r: Row, chain: map<SessionId, Totals>)
    requires Between(r, chain) && chain[r.id] == Totals(r.download, r.upload)
    ensures Unreported([r], chain) == 0
    ensures ServedTotal([r]) == r.download - r.baseDownload + r.upload - r.baseUpload
  {
  }
}
