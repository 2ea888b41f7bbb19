/**
 The client of OpenVPN's management interface. Commands are queued in the
 order they are written; the reader gives each line that is not a
 notification to the command at the head, which leaves the queue with the
 line that finishes its reply. A caller may stop waiting at any time; its
 command stays queued.
 */
module Management {
  import opened Basics
  import opened ClientEvents

  datatype Pending = Pending(id: nat, multi: bool, lines: seq<string>)

  datatype Queue = Queue(pending: seq<Pending>, done: seq<Pending>)

  predicate IsNotification(line: string) { ">" <= line }

  predicate Finishes(multi: bool, line: string) {
    "SUCCESS:" <= line || "ERROR:" <= line || (multi && line == "END")
  }

  function TakeReply(q: Queue, line: string): Queue {
    if q.pending == [] then q
    else
      var p := q.pending[0].(lines := q.pending[0].lines + [line]);
      if Finishes(p.multi, line) then Queue(q.pending[1..], q.done + [p])
      else q.(pending := [p] + q.pending[1..])
  }

  datatype Reader = Reader(asked: nat, queue: Queue, event: Option<ClientEvent>, effects: seq<Effect>)

  const START := Reader(0, Queue([], []), None, [])

  datatype Step =
    | Ask(multi: bool)
    | GiveUp(id: nat)
    | Line(text: string, registered: set<string>)

  function Advance(r: Reader, s: Step): Reader {
    match s
    case Ask(multi) =>
      Reader(r.asked + 1, r.queue.(pending := r.queue.pending + [Pending(r.asked, multi, [])]), r.event, r.effects)
    case GiveUp(id) => r
    case Line(text, registered) =>
      if IsNotification(text) then
        var (event, effects) := Handle(r.event, Note(MeaningOf(text), registered));
        r.(event := event, effects := r.effects + effects)
      else r.(queue := TakeReply(r.queue, text))
  }

  function ReaderTo(steps: seq<Step>, n: nat): Reader
    requires n <= |steps|
  {
    if n == 0 then START else Advance(ReaderTo(steps, n - 1), steps[n - 1])
  }

  // ---- what the server does ----

  datatype Reply = Reply(multi: bool, lines: seq<string>)

  /** A line that ends a reply: a status line, or END after a list. */
  ghost predicate Closes(multi: bool, line: string) {
    || (exists text :: line == "SUCCESS:" + text)
    || (exists text :: line == "ERROR:" + text)
    || (multi && line == "END")
  }

  ghost predicate Announces(line: string) { exists text :: line == ">" + text }

  lemma ReadsProtocol(multi: bool, line: string)
    ensures Finishes(multi, line) <==> Closes(multi, line)
    ensures IsNotification(line) <==> Announces(line)
  {
    if "SUCCESS:" <= line { assert line == "SUCCESS:" + line[8..]; }
    if "ERROR:" <= line { assert line == "ERROR:" + line[6..]; }
    if ">" <= line { assert line == ">" + line[1..]; }
  }

  /** Only the last line of a reply ends it, and none is a notification. */
  ghost predicate WellFormed(r: Reply) {
    r.lines != [] && forall i :: 0 <= i < |r.lines| ==>
      !Announces(r.lines[i]) && (Closes(r.multi, r.lines[i]) <==> i == |r.lines| - 1)
  }

  /** A status line is a reply by itself. */
  lemma StatusReplies(multi: bool, text: string)
    ensures WellFormed(Reply(multi, ["SUCCESS:" + text])) && WellFormed(Reply(multi, ["ERROR:" + text]))
  {
    assert ("SUCCESS:" + text)[0] == 'S' && ("ERROR:" + text)[0] == 'E';
    assert Closes(multi, "SUCCESS:" + text) && Closes(multi, "ERROR:" + text);
  }

  /** Rows that are no status lines, notifications or END, with END behind them, are a reply to a list command. */
  lemma ListReplies(rows: seq<string>)
    requires forall i :: 0 <= i < |rows| ==> !Closes(true, rows[i]) && !Announces(rows[i])
    ensures WellFormed(Reply(true, rows + ["END"]))
  {
    var lines := rows + ["END"];
    ReadsProtocol(true, "END");
    assert "END"[0] != '>' && !Announces("END") && Closes(true, "END");
    assert forall i :: 0 <= i < |lines| ==> lines[i] == if i < |rows| then rows[i] else "END";
  }

  /**
   A line goes to the command at the head: a status line finishes it, END
   finishes it exactly when it asked for a list, and any other line leaves it
   there; with no command waiting a line goes nowhere.
   */
  lemma HeadTakes(q: Queue, line: string)
    ensures q.pending == [] ==> TakeReply(q, line) == q
    ensures q.pending != [] ==>
      var p := q.pending[0].(lines := q.pending[0].lines + [line]);
      TakeReply(q, line) ==
        if Closes(p.multi, line) then Queue(q.pending[1..], q.done + [p]) else Queue(q.pending[0 := p], q.done)
  {
    if q.pending != [] {
      var p := q.pending[0].(lines := q.pending[0].lines + [line]);
      ReadsProtocol(p.multi, line);
      assert q.pending[0 := p] == [p] + q.pending[1..];
    }
  }

  function Flat(replies: seq<Reply>): seq<string> {
    if replies == [] then [] else replies[0].lines + Flat(replies[1..])
  }

  function Asks(steps: seq<Step>, n: nat): (a: nat)
    requires n <= |steps|
    ensures a <= n
  {
    if n == 0 then 0 else Asks(steps, n - 1) + if steps[n - 1].Ask? then 1 else 0
  }

  /** Lines of owed replies among the first n steps. */
  ghost function Arrived(steps: seq<Step>, replies: seq<Reply>, n: nat): nat
    requires n <= |steps|
    decreases n, 0
  {
    if n == 0 then 0
    else Arrived(steps, replies, n - 1) + if Owed(steps, replies, n - 1) then 1 else 0
  }

  function Sent(replies: seq<Reply>, a: nat): seq<string> { Flat(if a <= |replies| then replies[..a] else replies) }

  /** Whether step n is a reply line while some command so far lacks lines of its reply. */
  ghost predicate Owed(steps: seq<Step>, replies: seq<Reply>, n: nat)
    requires n < |steps|
    decreases n, 1
  {
    steps[n].Line? && !Announces(steps[n].text)
    && Arrived(steps, replies, n) < |Sent(replies, Asks(steps, n))|
  }

  /**
   The server answers commands in the order they were asked, each after it
   was asked and with its own reply; lines nobody is owed may come as well.
   */
  ghost predicate InOrder(steps: seq<Step>, replies: seq<Reply>, n: nat)
    requires n <= |steps|
  {
    n == 0 ||
    (&& InOrder(steps, replies, n - 1)
     && (steps[n - 1].Ask? ==>
          Asks(steps, n - 1) < |replies| && replies[Asks(steps, n - 1)].multi == steps[n - 1].multi)
     && (Owed(steps, replies, n - 1) ==>
          steps[n - 1].text == Sent(replies, Asks(steps, n - 1))[Arrived(steps, replies, n - 1)]))
  }

  // ---- who has which lines ----

  function Unanswered(replies: seq<Reply>, first: nat): (p: seq<Pending>)
    ensures |p| == |replies|
    ensures forall i :: 0 <= i < |p| ==> p[i] == Pending(first + i, replies[i].multi, [])
  {
    if replies == [] then []
    else [Pending(first, replies[0].multi, [])] + Unanswered(replies[1..], first + 1)
  }

  /** The queue when the first m lines of the replies have arrived, dealt out in order. */
  function Dealt(replies: seq<Reply>, first: nat, m: nat): Queue
    decreases |replies|
  {
    if replies == [] then Queue([], [])
    else if m < |replies[0].lines| then
      Queue([Pending(first, replies[0].multi, replies[0].lines[..m])] + Unanswered(replies[1..], first + 1), [])
    else
      var rest := Dealt(replies[1..], first + 1, m - |replies[0].lines|);
      rest.(done := [Pending(first, replies[0].multi, replies[0].lines)] + rest.done)
  }

  lemma {:induction false} DealtNone(replies: seq<Reply>, first: nat)
    requires forall r :: r in replies ==> WellFormed(r)
    ensures Dealt(replies, first, 0) == Queue(Unanswered(replies, first), [])
  {
    if replies != [] {
      assert replies[0] in replies;
      assert replies[0].lines[..0] == [];
    }
  }

  lemma {:induction false} UnansweredMore(replies: seq<Reply>, first: nat, r: Reply)
    ensures Unanswered(replies + [r], first)
         == Unanswered(replies, first) + [Pending(first + |replies|, r.multi, [])]
  {
  }

  lemma {:induction false} DealtAsk(replies: seq<Reply>, first: nat, m: nat, r: Reply)
    requires forall x :: x in replies + [r] ==> WellFormed(x)
    requires m <= |Flat(replies)|
    ensures var q := Dealt(replies, first, m);
            Dealt(replies + [r], first, m) == q.(pending := q.pending + [Pending(first + |replies|, r.multi, [])])
    decreases |replies|
  {
    var more := replies + [r];
    if replies == [] {
      assert r in more;
      assert more == [r] && more[1..] == [] && r.lines[..0] == [];
    } else {
      assert more[0] == replies[0] && more[1..] == replies[1..] + [r];
      if m < |replies[0].lines| {
        UnansweredMore(replies[1..], first + 1, r);
      } else {
        DealtAsk(replies[1..], first + 1, m - |replies[0].lines|, r);
      }
    }
  }

  lemma {:induction false} DealtLine(replies: seq<Reply>, first: nat, m: nat)
    requires forall x :: x in replies ==> WellFormed(x)
    requires m < |Flat(replies)|
    ensures TakeReply(Dealt(replies, first, m), Flat(replies)[m]) == Dealt(replies, first, m + 1)
    decreases |replies|
  {
    var r := replies[0];
    assert r in replies;
    if m < |r.lines| {
      ReadsProtocol(r.multi, r.lines[m]);
      assert r.lines[..m] + [r.lines[m]] == r.lines[..m + 1];
      if m + 1 == |r.lines| {
        assert r.lines[..m + 1] == r.lines;
        DealtNone(replies[1..], first + 1);
      }
    } else {
      DealtLine(replies[1..], first + 1, m - |r.lines|);
      TakeBehind(Dealt(replies[1..], first + 1, m - |r.lines|), Pending(first, r.multi, r.lines), Flat(replies)[m]);
    }
  }

  lemma TakeBehind(q: Queue, p: Pending, line: string)
    ensures TakeReply(q.(done := [p] + q.done), line)
         == TakeReply(q, line).(done := [p] + TakeReply(q, line).done)
  {
  }

  lemma {:induction false} DealtAll(replies: seq<Reply>, first: nat, m: nat)
    requires m >= |Flat(replies)|
    ensures Dealt(replies, first, m).pending == []
    decreases |replies|
  {
    if replies != [] {
      DealtAll(replies[1..], first + 1, m - |replies[0].lines|);
    }
  }

  // ---- every run ----

  ghost predicate WellFormedAll(replies: seq<Reply>) { forall r :: r in replies ==> WellFormed(r) }

  lemma {:induction false} ArrivedBound(steps: seq<Step>, replies: seq<Reply>, n: nat)
    requires n <= |steps| && InOrder(steps, replies, n)
    ensures Asks(steps, n) <= |replies| && Arrived(steps, replies, n) <= |Sent(replies, Asks(steps, n))|
  {
    if n > 0 {
      ArrivedBound(steps, replies, n - 1);
      var a := Asks(steps, n - 1);
      if steps[n - 1].Ask? {
        assert replies[..a + 1] == replies[..a] + [replies[a]];
        FlatAppend(replies[..a], [replies[a]]);
      }
    }
  }

  lemma {:induction false} FlatAppend(a: seq<Reply>, b: seq<Reply>)
    ensures Flat(a + b) == Flat(a) + Flat(b)
  {
    if a == [] {
      assert a + b == b;
    } else {
      assert (a + b)[1..] == a[1..] + b;
      FlatAppend(a[1..], b);
    }
  }

  /** The queue as the run so far must have left it. */
  ghost function QueueAt(steps: seq<Step>, replies: seq<Reply>, n: nat): Queue
    requires n <= |steps| && Asks(steps, n) <= |replies|
  {
    Dealt(replies[..Asks(steps, n)], 0, Arrived(steps, replies, n))
  }

  lemma AskStep(q: Queue, replies: seq<Reply>, a: nat, m: nat)
    requires WellFormedAll(replies) && a < |replies| && m <= |Sent(replies, a)| && q == Dealt(replies[..a], 0, m)
    ensures Dealt(replies[..a + 1], 0, m) == q.(pending := q.pending + [Pending(a, replies[a].multi, [])])
  {
    assert replies[..a + 1] == replies[..a] + [replies[a]];
    assert forall x :: x in replies[..a] + [replies[a]] ==> x in replies;
    DealtAsk(replies[..a], 0, m, replies[a]);
  }

  lemma LineStep(q: Queue, replies: seq<Reply>, a: nat, m: nat, line: string)
    requires WellFormedAll(replies) && a <= |replies| && m <= |Sent(replies, a)| && q == Dealt(replies[..a], 0, m)
    requires m < |Sent(replies, a)| ==> line == Sent(replies, a)[m]
    ensures TakeReply(q, line) == if m < |Sent(replies, a)| then Dealt(replies[..a], 0, m + 1) else q
  {
    assert forall x :: x in replies[..a] ==> x in replies;
    if m < |Sent(replies, a)| {
      DealtLine(replies[..a], 0, m);
    } else {
      DealtAll(replies[..a], 0, m);
    }
  }

  /**
   However commands, timeouts, notifications and in-order replies interleave,
   the lines so far are dealt out to the commands in order.
   */
  lemma {:induction false} QueueFollows(steps: seq<Step>, replies: seq<Reply>, n: nat)
    requires n <= |steps| && InOrder(steps, replies, n) && WellFormedAll(replies)
    ensures Asks(steps, n) <= |replies| && ReaderTo(steps, n).asked == Asks(steps, n)
    ensures ReaderTo(steps, n).queue == QueueAt(steps, replies, n)
  {
    ArrivedBound(steps, replies, n);
    if n > 0 {
      ArrivedBound(steps, replies, n - 1);
      QueueFollows(steps, replies, n - 1);
      var q, a, m := ReaderTo(steps, n - 1).queue, Asks(steps, n - 1), Arrived(steps, replies, n - 1);
      match steps[n - 1]
      case Ask(multi) => AskStep(q, replies, a, m);
      case GiveUp(_) =>
      case Line(text, _) =>
        ReadsProtocol(false, text);
        if !Announces(text) {
          LineStep(q, replies, a, m, text);
        }
    }
  }

  /** A command that is done has its own reply; the next to answer has a part of its own; the rest have nothing. */
  lemma {:induction false} DealtOwn(replies: seq<Reply>, first: nat, m: nat)
    ensures var q := Dealt(replies, first, m);
            && |q.done| + |q.pending| == |replies|
            && (forall i :: 0 <= i < |q.done| ==> q.done[i] == Pending(first + i, replies[i].multi, replies[i].lines))
            && (forall i :: 0 <= i < |q.pending| ==>
                  && q.pending[i].id == first + |q.done| + i
                  && q.pending[i].lines <= replies[|q.done| + i].lines
                  && (i > 0 ==> q.pending[i].lines == []))
    decreases |replies|
  {
    if replies != [] && m >= |replies[0].lines| {
      DealtOwn(replies[1..], first + 1, m - |replies[0].lines|);
    }
  }

  /** Commands finish in the order asked, each with exactly its own reply. */
  lemma EachGetsItsReply(steps: seq<Step>, replies: seq<Reply>, n: nat)
    requires n <= |steps| && InOrder(steps, replies, n) && WellFormedAll(replies)
    ensures Asks(steps, n) <= |replies|
    ensures var q := ReaderTo(steps, n).queue;
            && |q.done| + |q.pending| == Asks(steps, n)
            && (forall i :: 0 <= i < |q.done| ==> q.done[i] == Pending(i, replies[i].multi, replies[i].lines))
            && (Arrived(steps, replies, n) == |Sent(replies, Asks(steps, n))| ==> q.pending == [])
  {
    QueueFollows(steps, replies, n);
    var a := Asks(steps, n);
    DealtOwn(replies[..a], 0, Arrived(steps, replies, n));
    if Arrived(steps, replies, n) == |Sent(replies, a)| {
      DealtAll(replies[..a], 0, Arrived(steps, replies, n));
    }
  }

  /** The notifications among the first n steps. */
  ghost function Notes(steps: seq<Step>, n: nat): seq<Note>
    requires n <= |steps|
  {
    if n == 0 then [] else Notes(steps, n - 1) + NoteOf(steps[n - 1])
  }

  lemma {:induction false} HandlePrefix(a: seq<Note>, b: seq<Note>, n: nat)
    requires n <= |a|
    ensures HandleTo(a + b, n) == HandleTo(a, n)
  {
    if n > 0 { HandlePrefix(a, b, n - 1); }
  }

  lemma HandleMore(before: seq<Note>, note: Note)
    ensures var (event, effects) := HandleTo(before, |before|);
            var (next, more) := Handle(event, note);
            HandleTo(before + [note], |before| + 1) == (next, effects + more)
  {
    HandlePrefix(before, [note], |before|);
  }

  /** What a step adds to the notifications. */
  ghost function NoteOf(s: Step): seq<Note> {
    if s.Line? && Announces(s.text) then [Note(MeaningOf(s.text), s.registered)] else []
  }

  function EventPart(r: Reader): Progress { (r.event, r.effects) }

  lemma StepNotes(r: Reader, before: seq<Note>, s: Step)
    requires EventPart(r) == HandleTo(before, |before|)
    ensures EventPart(Advance(r, s)) == HandleTo(before + NoteOf(s), |before + NoteOf(s)|)
  {
    if s.Line? {
      ReadsProtocol(false, s.text);
    }
    if s.Line? && Announces(s.text) {
      HandleMore(before, NoteOf(s)[0]);
    } else {
      assert before + NoteOf(s) == before;
    }
  }

  lemma {:induction false} NotesFollow(steps: seq<Step>, n: nat)
    requires n <= |steps|
    ensures EventPart(ReaderTo(steps, n)) == HandleTo(Notes(steps, n), |Notes(steps, n)|)
  {
    if n > 0 {
      NotesFollow(steps, n - 1);
      StepNotes(ReaderTo(steps, n - 1), Notes(steps, n - 1), steps[n - 1]);
    }
  }

  /** Commands and replies do not disturb the notifications: their effects are those of their blocks. */
  lemma EffectsFollow(steps: seq<Step>, n: nat)
    requires n <= |steps|
    ensures ReaderTo(steps, n).effects == BlockEffects(Notes(steps, n), |Notes(steps, n)|)
  {
    NotesFollow(steps, n);
    ReadingIsBlocks(Notes(steps, n), |Notes(steps, n)|);
  }

  /** The connection: the queue, the command ids and the notification being read, changed line by line. */
  class Connection {
    var asked: nat
    var pending: seq<Pending>
    var done: seq<Pending>
    var event: Option<ClientEvent>
    var effects: seq<Effect>

    constructor ()
      ensures View() == START
    {
      asked, pending, done, event, effects := 0, [], [], None, [];
    }

    function View(): Reader
      reads this
    {
      Reader(asked, Queue(pending, done), event, effects)
    }

    /** Queues a command; its reply is the id's entry in done. */
    method Send(multi: bool) returns (id: nat)
      modifies this
      ensures id == old(asked) && View() == Advance(old(View()), Ask(multi))
    {
      id := asked;
      pending := pending + [Pending(id, multi, [])];
      asked := asked + 1;
    }

    method Finish(ev: ClientEvent, registered: set<string>)
      modifies this`effects
      ensures effects == old(effects) + Settle(ev, registered)
    {
      var cn := Env(ev, "common_name");
      if cn == "" {
        cn := Env(ev, "X509_0_CN");
      }
      if ev.kind == "CONNECT" || ev.kind == "REAUTH" {
        effects := effects + [Verdict(cn in registered, ev.cid, ev.kid)];
      } else if ev.kind == "DISCONNECT" {
        var received, sent := ParseInt(Env(ev, "bytes_received")), ParseInt(Env(ev, "bytes_sent"));
        effects := effects + [Left(cn, received, sent)];
      }
    }

    method Notify(line: string, registered: set<string>)
      modifies this`event, this`effects
      ensures var (next, more) := Handle(old(event), Note(MeaningOf(line), registered));
              event == next && effects == old(effects) + more
    {
      match MeaningOf(line)
      case Begins(kind, cid, kid) =>
        event := Some(ClientEvent(kind, cid, kid, map[]));
      case Sets(name, text) =>
        if event.Some? {
          event := Some(event.value.(env := event.value.env[name := text]));
        }
      case Ends =>
        if event.Some? {
          Finish(event.value, registered);
          event := None;
        }
      case Other =>
    }

    /** One turn of the read loop. */
    method Take(line: string, registered: set<string>)
      modifies this
      ensures View() == Advance(old(View()), Line(line, registered))
    {
      if IsNotification(line) {
        Notify(line, registered);
        return;
      }
      if pending == [] {
        return;
      }
      var p := pending[0].(lines := pending[0].lines + [line]);
      if Finishes(p.multi, line) {
        pending, done := pending[1..], done + [p];
      } else {
        pending := [p] + pending[1..];
      }
    }

    /** The read loop over the lines of a connection, each with the names registered when it comes. */
    method Read(lines: seq<(string, set<string>)>)
      modifies this
      ensures View() == ReadAll(old(View()), lines, |lines|)
    {
      for i := 0 to |lines|
        invariant View() == ReadAll(old(View()), lines, i)
      {
        Take(lines[i].0, lines[i].1);
      }
    }
  }

  function ReadAll(r: Reader, lines: seq<(string, set<string>)>, n: nat): Reader
    requires n <= |lines|
  {
    if n == 0 then r else Advance(ReadAll(r, lines, n - 1), Line(lines[n - 1].0, lines[n - 1].1))
  }
}
