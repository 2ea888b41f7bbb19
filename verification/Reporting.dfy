/**
 Reporting sessions to the chain. One message the chain refuses fails the
 whole transaction, so a refused batch is asked about again, thinned out and,
 if need be, sent one session at a time.
 */
module Reporting {
  import opened Sessions
  import opened Admission

  /** Which transactions the chain accepts, and what it answers to queries. */
  datatype Chain = Chain(accepts: seq<Row> -> bool, sessions: map<SessionId, Answer<ChainSession>>)

  function AnswerFor(c: Chain, id: SessionId): Answer<ChainSession> {
    if id in c.sessions then c.sessions[id] else Unreachable
  }

  predicate Ended(c: Chain, r: Row) {
    var a := AnswerFor(c, r.id);
    a.Nothing? || (a.Found? && a.value.status == Inactive)
  }

  predicate Answered(c: Chain, r: Row) { !AnswerFor(c, r.id).Unreachable? }

  /** The sessions not found ended, in order. */
  function Still(items: seq<Row>, c: Chain): (still: seq<Row>)
    ensures |still| <= |items|
    ensures forall r :: r in still <==> r in items && !Ended(c, r)
    ensures |still| == |items| ==> still == items
  {
    if items == [] then []
    else
      var rest := Still(items[1..], c);
      if Ended(c, items[0]) then rest else [items[0]] + rest
  }

  function CountAnswered(items: seq<Row>, c: Chain): (n: nat)
    ensures n == 0 <==> forall r :: r in items ==> !Answered(c, r)
  {
    if items == [] then 0
    else
      var rest := CountAnswered(items[1..], c);
      if Answered(c, items[0]) then rest + 1 else rest
  }

  function Singles(items: seq<Row>): (batches: seq<seq<Row>>)
    ensures |batches| == |items|
    ensures forall i :: 0 <= i < |items| ==> batches[i] == [items[i]]
  {
    if items == [] then [] else [[items[0]]] + Singles(items[1..])
  }

  /** The chain takes each session by itself. */
  predicate AllSingly(items: seq<Row>, c: Chain) { forall r :: r in items ==> c.accepts([r]) }

  /** Every transaction sent, and whether the pass ends without an error. */
  datatype Outcome = Outcome(sent: seq<seq<Row>>, ok: bool)

  function Report(items: seq<Row>, c: Chain): Outcome {
    if c.accepts(items) then Outcome([items], true)
    else Again(items, Still(items, c), CountAnswered(items, c), c)
  }

  /** After a refused batch: what is sent of the sessions still there. */
  function Again(items: seq<Row>, still: seq<Row>, answered: nat, c: Chain): Outcome {
    if still == [] then Outcome([items], true)
    else if answered == 0 then Outcome([items], false)
    else if |still| < |items| then
      if c.accepts(still) then Outcome([items, still], true)
      else Outcome([items, still] + Singles(still), AllSingly(still, c))
    else Outcome([items] + Singles(still), AllSingly(still, c))
  }

  // ---- what the chain has ----

  /** The chain says that it does not have the session, or that it is over. */
  predicate Gone(c: Chain, r: Row) {
    r.id in c.sessions &&
      match c.sessions[r.id]
      case Unreachable => false
      case Nothing => true
      case Found(s) => s.status.Inactive?
  }

  predicate Heard(c: Chain, r: Row) { r.id in c.sessions && c.sessions[r.id] != Unreachable }

  lemma AnswersMean(c: Chain, r: Row)
    ensures Ended(c, r) <==> Gone(c, r)
    ensures Answered(c, r) <==> Heard(c, r)
  {
  }

  lemma AnswersMeanAll(c: Chain)
    ensures forall r :: Ended(c, r) <==> Gone(c, r)
    ensures forall r :: Answered(c, r) <==> Heard(c, r)
  {
    forall r ensures Ended(c, r) <==> Gone(c, r) ensures Answered(c, r) <==> Heard(c, r) {
      AnswersMean(c, r);
    }
  }

  /** Nothing is sent but what the pass was given, in at most one transaction more than items. */
  lemma ReportBounded(items: seq<Row>, c: Chain)
    requires items != []
    ensures 1 <= |Report(items, c).sent| <= |items| + 1
    ensures forall b, r :: b in Report(items, c).sent && r in b ==> r in items
  {
    var still := Still(items, c);
    assert forall i :: 0 <= i < |still| ==> still[i] in still;
  }

  /**
   First all sessions go together. Only when they are refused, the chain has
   answered a query and some are not gone, those go together if they are
   fewer; and only when that is refused or would be the same, one by one.
   */
  lemma SentInStages(items: seq<Row>, c: Chain)
    ensures
      var still, sent := Still(items, c), Report(items, c).sent;
      var retry := if |still| < |items| then [still] else [];
      && (forall r :: r in still <==> r in items && !Gone(c, r))
      && (|sent| > 1 <==> !c.accepts(items) && still != [] && exists r :: r in items && Heard(c, r))
      && (|sent| == 1 ==> sent == [items])
      && (|sent| > 1 ==>
            sent == [items] + retry + if retry != [] && c.accepts(still) then [] else Singles(still))
  {
    AnswersMeanAll(c);
    var still := Still(items, c);
    assert [items] + [still] == [items, still] && [items, still] + [] == [items, still];
    assert [items] + [] == [items];
  }

  /** When the chain refuses the batch and answers no query, one transaction was sent. */
  lemma OutageSendsOnce(items: seq<Row>, c: Chain)
    requires items != [] && !c.accepts(items)
    requires forall r :: r in items ==> !Heard(c, r)
    ensures Report(items, c) == Outcome([items], false)
  {
    AnswersMeanAll(c);
  }

  // ---- exactly once ----

  /** How many accepted transactions carry the session. */
  function Accepted(sent: seq<seq<Row>>, c: Chain, r: Row): nat {
    if sent == [] then 0
    else (if c.accepts(sent[0]) && r in sent[0] then 1 else 0) + Accepted(sent[1..], c, r)
  }

  lemma {:induction false} AcceptedAppend(a: seq<seq<Row>>, b: seq<seq<Row>>, c: Chain, r: Row)
    ensures Accepted(a + b, c, r) == Accepted(a, c, r) + Accepted(b, c, r)
  {
    if a == [] {
      assert a + b == b;
    } else {
      assert (a + b)[1..] == a[1..] + b;
      AcceptedAppend(a[1..], b, c, r);
    }
  }

  lemma {:induction false} AcceptedSingles(items: seq<Row>, c: Chain, r: Row)
    requires UniqueIds(items)
    ensures Accepted(Singles(items), c, r) == if r in items && c.accepts([r]) then 1 else 0
  {
    if items != [] {
      assert Singles(items)[1..] == Singles(items[1..]);
      assert UniqueIds(items[1..]) by {
        assert forall i :: 0 <= i < |items| - 1 ==> items[1..][i] == items[i + 1];
      }
      AcceptedSingles(items[1..], c, r);
    }
  }

  lemma {:induction false} StillUnique(items: seq<Row>, c: Chain)
    requires UniqueIds(items)
    ensures UniqueIds(Still(items, c))
  {
    if items != [] {
      var rest := Still(items[1..], c);
      assert UniqueIds(items[1..]) by {
        assert forall i :: 0 <= i < |items| - 1 ==> items[1..][i] == items[i + 1];
      }
      StillUnique(items[1..], c);
      forall i | 0 <= i < |rest| ensures rest[i].id != items[0].id {
        assert rest[i] in rest;
        var j :| 0 <= j < |items[1..]| && items[1..][j] == rest[i];
        assert items[j + 1] == rest[i];
      }
    }
  }

  /**
   The chain takes a transaction exactly when it takes every session in it,
   by itself, and never takes one it answers as ended.
   */
  ghost predicate Atomic(c: Chain, acceptable: set<SessionId>) {
    && (forall batch: seq<Row> :: c.accepts(batch) <==> forall r: Row :: r in batch ==> r.id in acceptable)
    && (forall r: Row :: Gone(c, r) ==> r.id !in acceptable)
  }

  lemma AcceptedInReport(items: seq<Row>, c: Chain, r: Row)
    requires UniqueIds(items) && r in items
    requires c.accepts(items) || exists q :: q in items && Answered(c, q)
    ensures Accepted(Report(items, c).sent, c, r) ==
      if c.accepts(items) then 1
      else if r in Still(items, c) && (c.accepts(Still(items, c)) || c.accepts([r])) then 1 else 0
  {
    var still := Still(items, c);
    StillUnique(items, c);
    AcceptedSingles(still, c, r);
    assert Accepted([items], c, r) == if c.accepts(items) then 1 else 0;
    if !c.accepts(items) {
      assert Accepted([still], c, r) == if c.accepts(still) && r in still then 1 else 0;
      assert [items, still] == [items] + [still];
      AcceptedAppend([items], [still], c, r);
      AcceptedAppend([items], Singles(still), c, r);
      AcceptedAppend([items, still], Singles(still), c, r);
    }
  }

  predicate Takes(c: Chain, acceptable: set<SessionId>, batch: seq<Row>) {
    c.accepts(batch) <==> forall r :: r in batch ==> r.id in acceptable
  }

  lemma AcceptedIff(items: seq<Row>, c: Chain, acceptable: set<SessionId>, r: Row)
    requires UniqueIds(items) && r in items
    requires Takes(c, acceptable, items) && Takes(c, acceptable, Still(items, c)) && Takes(c, acceptable, [r])
    requires Ended(c, r) ==> r.id !in acceptable
    requires c.accepts(items) || exists q :: q in items && Answered(c, q)
    ensures Accepted(Report(items, c).sent, c, r) == if r.id in acceptable then 1 else 0
  {
    AcceptedInReport(items, c, r);
    assert r in [r] && (r in Still(items, c) <==> !Ended(c, r));
  }

  /**
   If the chain takes the first batch, or answers at least one query, every
   acceptable session is accepted in exactly one transaction; no other is
   accepted at all.
   */
  lemma AcceptedExactlyOnce(items: seq<Row>, c: Chain, acceptable: set<SessionId>, r: Row)
    requires UniqueIds(items) && Atomic(c, acceptable) && r in items
    requires c.accepts(items) || exists q :: q in items && Heard(c, q)
    ensures Accepted(Report(items, c).sent, c, r) == if r.id in acceptable then 1 else 0
  {
    AnswersMean(c, r);
    if q :| q in items && Heard(c, q) {
      AnswersMean(c, q);
    }
    AcceptedIff(items, c, acceptable, r);
  }

  /** The session is in a transaction the chain took. */
  ghost predicate Taken(sent: seq<seq<Row>>, c: Chain, r: Row) { exists b :: b in sent && r in b && c.accepts(b) }

  lemma SettledBy(items: seq<Row>, c: Chain, r: Row)
    requires r in items && !Ended(c, r) && Report(items, c).ok
    ensures Taken(Report(items, c).sent, c, r)
  {
  }

  lemma LeftBehind(items: seq<Row>, c: Chain) returns (r: Row)
    requires !Report(items, c).ok
    ensures r in items && !Ended(c, r) && !Taken(Report(items, c).sent, c, r)
  {
    var still, sent := Still(items, c), Report(items, c).sent;
    if CountAnswered(items, c) == 0 {
      r := still[0];
      assert sent == [items];
    } else {
      r :| r in still && !c.accepts([r]);
      forall b | b in sent && r in b ensures !c.accepts(b) {
        if b in Singles(still) {
          var i :| 0 <= i < |still| && Singles(still)[i] == b;
        }
      }
    }
  }

  /** The pass ends without an error exactly when every item was accepted or the chain had ended it. */
  lemma OkMeansSettled(items: seq<Row>, c: Chain)
    ensures Report(items, c).ok <==>
      forall r :: r in items ==> Gone(c, r) || Taken(Report(items, c).sent, c, r)
  {
    if Report(items, c).ok {
      forall r | r in items && !Gone(c, r) ensures Taken(Report(items, c).sent, c, r) {
        AnswersMean(c, r);
        SettledBy(items, c, r);
      }
    } else {
      var r := LeftBehind(items, c);
      AnswersMean(c, r);
    }
  }
}
