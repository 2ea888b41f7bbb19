/**
 From the text of the management connection to the traffic books: what the
 server writes when a connection ends, and its table of live connections.
 */
module Banking {
  import opened Basics
  import opened Text
  import opened Encodings
  import opened ClientEvents
  import opened Accounting

  // ---- a connection that ends ----

  /** The books after a notification: what the server received is the peer's upload. */
  function Apply(s: Vpn, e: Effect): Vpn {
    match e
    case Left(cn, received, sent) => Bank(s, cn, Traffic(received, sent))
    case Verdict(_, _, _) => s
  }

  function ApplyAll(s: Vpn, effects: seq<Effect>): Vpn
    decreases |effects|
  {
    if effects == [] then s else ApplyAll(Apply(s, effects[0]), effects[1..])
  }

  /** The value last given to a name among the first n settings. */
  function LastOf(env: seq<(string, string)>, n: nat, name: string): string
    requires n <= |env|
  {
    if n == 0 then "" else if env[n - 1].0 == name then env[n - 1].1 else LastOf(env, n - 1, name)
  }

  lemma {:induction false} BlockValue(
    notes: seq<Note>, kind: string, cid: string, kid: string, env: seq<(string, string)>, n: nat, name: string)
    requires IsBlock(notes, kind, cid, kid, env) && n <= |env|
    ensures LastValue(notes, 1, n + 1, name) == LastOf(env, n, name)
  {
    if n > 0 {
      BlockValue(notes, kind, cid, kid, env, n - 1, name);
      assert notes[n].meaning == Sets(env[n - 1].0, env[n - 1].1);
    }
  }

  /** The settings say who left and what the connection had counted. */
  predicate Tells(env: seq<(string, string)>, cn: string, t: Traffic) {
    && (forall i :: 0 <= i < |env| ==> '=' !in env[i].0)
    && t.up >= 0 && t.down >= 0
    && LastOf(env, |env|, "common_name") == cn != ""
    && LastOf(env, |env|, "bytes_received") == Decimal(t.up)
    && LastOf(env, |env|, "bytes_sent") == Decimal(t.down)
  }

  lemma {:induction false} QuietBefore(notes: seq<Note>, n: nat)
    requires n <= |notes| && forall i :: 0 <= i < n ==> !IsEnd(notes[i])
    ensures BlockEffects(notes, n) == []
  {
    if n > 0 {
      QuietBefore(notes, n - 1);
      NoOtherEffect(notes, n - 1);
    }
  }

  lemma CounterIsRead(t: Traffic)
    requires t.up >= 0 && t.down >= 0
    ensures ParseInt(Decimal(t.up)) == Counter(t).up && ParseInt(Decimal(t.down)) == Counter(t).down
  {
    ParseIntOfDecimal(t.up);
    ParseIntOfDecimal(t.down);
  }

  lemma BlockSays(
    notes: seq<Note>, kind: string, cid: string, kid: string, env: seq<(string, string)>, cn: string, t: Traffic)
    requires IsBlock(notes, kind, cid, kid, env) && Tells(env, cn, t)
    ensures Subject(notes, 0, |env| + 1) == cn
    ensures LastValue(notes, 1, |env| + 1, "bytes_received") == Decimal(t.up)
    ensures LastValue(notes, 1, |env| + 1, "bytes_sent") == Decimal(t.down)
  {
    BlockValue(notes, kind, cid, kid, env, |env|, "common_name");
    BlockValue(notes, kind, cid, kid, env, |env|, "bytes_received");
    BlockValue(notes, kind, cid, kid, env, |env|, "bytes_sent");
  }

  lemma BlockQuiet(notes: seq<Note>, kind: string, cid: string, kid: string, env: seq<(string, string)>)
    requires IsBlock(notes, kind, cid, kid, env)
    ensures BlockEffects(notes, |env| + 1) == []
  {
    forall i | 0 <= i < |env| + 1 ensures !IsEnd(notes[i]) {
    }
    QuietBefore(notes, |env| + 1);
  }

  lemma OnlyFarewell(notes: seq<Note>, e: nat)
    requires |notes| == e + 1 && Complete(notes, 0, e) && notes[0].meaning.kind == "DISCONNECT"
    requires BlockEffects(notes, e) == []
    ensures BlockEffects(notes, |notes|) == [Farewell(notes, 0, e)]
  {
    var f := Farewell(notes, 0, e);
    OneLeftEach(notes, 0, e);
    assert [] + [f] == [f];
  }

  lemma DisconnectLeft(notes: seq<Note>, cid: string, kid: string, env: seq<(string, string)>, cn: string, t: Traffic)
    requires IsBlock(notes, "DISCONNECT", cid, kid, env) && Tells(env, cn, t)
    ensures BlockEffects(notes, |notes|) == [Farewell(notes, 0, |env| + 1)]
  {
    BlockComplete(notes, "DISCONNECT", cid, kid, env);
    BlockQuiet(notes, "DISCONNECT", cid, kid, env);
    OnlyFarewell(notes, |env| + 1);
  }

  /** Reading a DISCONNECT banks the connection's counters, each saturated at 64 bits, and nothing more. */
  lemma DisconnectIsRead(
    cid: string, kid: string, env: seq<(string, string)>, registered: set<string>, cn: string, t: Traffic)
    requires ',' !in cid && Tells(env, cn, t)
    ensures var notes := NotesOf(BlockLines("DISCONNECT", cid, kid, env), registered);
            HandleTo(notes, |notes|).1 == [Left(cn, Counter(t).up, Counter(t).down)]
  {
    var notes := NotesOf(BlockLines("DISCONNECT", cid, kid, env), registered);
    BlockIsRead("DISCONNECT", cid, kid, env, registered);
    DisconnectLeft(notes, cid, kid, env, cn, t);
    BlockSays(notes, "DISCONNECT", cid, kid, env, cn, t);
    CounterIsRead(t);
    ReadingIsBlocks(notes, |notes|);
  }

  /** The end of a live connection, as text, has the effect the accounting gives it. */
  lemma EndIsBanked(
    name: Naming, s: Vpn, cid: string, kid: string, env: seq<(string, string)>, registered: set<string>, cn: string)
    requires cn in s.live && ',' !in cid && Tells(env, cn, s.live[cn])
    ensures var notes := NotesOf(BlockLines("DISCONNECT", cid, kid, env), registered);
            var after := ApplyAll(s, HandleTo(notes, |notes|).1);
            after.(live := s.live - {cn}) == Next(name, s, Disconnect(cn))
  {
    var notes := NotesOf(BlockLines("DISCONNECT", cid, kid, env), registered);
    var t := Counter(s.live[cn]);
    DisconnectIsRead(cid, kid, env, registered, cn, s.live[cn]);
    ApplyLeft(s, cn, t);
    EndOf(name, s, cn);
    assert ApplyAll(s, HandleTo(notes, |notes|).1) == Bank(s, cn, t);
  }

  lemma EndOf(name: Naming, s: Vpn, cn: string)
    requires cn in s.live
    ensures Next(name, s, Disconnect(cn)) == Bank(s, cn, Counter(s.live[cn])).(live := s.live - {cn})
  {
  }

  lemma ApplyLeft(s: Vpn, cn: string, t: Traffic)
    ensures ApplyAll(s, [Left(cn, t.up, t.down)]) == Bank(s, cn, t)
  {
    assert [Left(cn, t.up, t.down)][1..] == [];
  }

  // ---- the table of live connections ----

  const LISTED := "CLIENT_LIST"

  /** A line's fields are those of a connection. */
  predicate IsListed(fields: seq<string>) { |fields| >= 11 && fields[0] == LISTED }

  function RowOf(fields: seq<string>): Status
    requires IsListed(fields)
  {
    Status(fields[1], Traffic(ParseInt(fields[5]), ParseInt(fields[6])))
  }

  function RowsOf(lines: seq<string>, n: nat): seq<Status>
    requires n <= |lines|
  {
    if n == 0 then []
    else
      var fields := Split(lines[n - 1], '\t');
      RowsOf(lines, n - 1) + if IsListed(fields) then [RowOf(fields)] else []
  }

  /** The connections of a status reply; other lines of it are passed over. */
  method ReadStatus(lines: seq<string>) returns (rows: seq<Status>)
    ensures rows == RowsOf(lines, |lines|)
  {
    rows := [];
    for i := 0 to |lines|
      invariant rows == RowsOf(lines, i)
    {
      var fields := Split(lines[i], '\t');
      if |fields| < 11 || fields[0] != LISTED {
        continue;
      }
      var received, sent := ParseInt(fields[5]), ParseInt(fields[6]);
      rows := rows + [Status(fields[1], Traffic(received, sent))];
    }
  }

  /** What the server writes about a connection: its name, three addresses, its counters and the rest. */
  datatype Entry = Entry(cn: string, t: Traffic, addresses: seq<string>, rest: seq<string>)

  predicate Writable(e: Entry) {
    && e.t.up >= 0 && e.t.down >= 0 && |e.addresses| == 3 && |e.rest| >= 4
    && '\t' !in e.cn && forall f :: f in e.addresses + e.rest ==> '\t' !in f
  }

  function FieldsOf(e: Entry): seq<string>
    requires Writable(e)
  {
    [LISTED, e.cn] + e.addresses + [Decimal(e.t.up), Decimal(e.t.down)] + e.rest
  }

  lemma NoTabs(e: Entry)
    requires Writable(e)
    ensures forall f :: f in FieldsOf(e) ==> '\t' !in f
  {
    forall f | f in FieldsOf(e) ensures '\t' !in f {
      assert f in e.addresses || f in e.rest ==> f in e.addresses + e.rest;
      assert forall c :: Digit(c) ==> c != '\t';
    }
  }

  lemma EntryFields(e: Entry)
    requires Writable(e)
    ensures Split(Joined(FieldsOf(e), '\t'), '\t') == FieldsOf(e)
    ensures IsListed(FieldsOf(e)) && RowOf(FieldsOf(e)) == Status(e.cn, Counter(e.t))
  {
    NoTabs(e);
    SplitJoined(FieldsOf(e), '\t');
    CounterIsRead(e.t);
  }

  /** A line that is no connection's: too few fields, or another first field. */
  predicate Passed(line: string) { !IsListed(Split(line, '\t')) }

  /** The line at i is that of the connection, or of none. */
  predicate Shows(line: string, e: Option<Entry>) {
    match e
    case None => Passed(line)
    case Some(entry) => Writable(entry) && line == Joined(FieldsOf(entry), '\t')
  }

  function Listed(shown: seq<Option<Entry>>, n: nat): seq<Status>
    requires n <= |shown|
  {
    if n == 0 then []
    else
      var e := shown[n - 1];
      Listed(shown, n - 1) + if e.Some? then [Status(e.value.cn, Counter(e.value.t))] else []
  }

  /** The table is read back row by row, counters saturated at 64 bits, whatever other lines are among them. */
  lemma {:induction false} StatusIsRead(lines: seq<string>, shown: seq<Option<Entry>>, n: nat)
    requires |lines| == |shown| && n <= |lines| && forall i :: 0 <= i < |lines| ==> Shows(lines[i], shown[i])
    ensures RowsOf(lines, n) == Listed(shown, n)
  {
    if n > 0 {
      StatusIsRead(lines, shown, n - 1);
      assert Shows(lines[n - 1], shown[n - 1]);
      if shown[n - 1].Some? {
        EntryFields(shown[n - 1].value);
      }
    }
  }

  /** Every live connection is shown, and nothing else. */
  ghost predicate Shown(shown: seq<Option<Entry>>, live: map<string, Traffic>) {
    && (forall i :: 0 <= i < |shown| && shown[i].Some? ==>
          shown[i].value.cn in live && live[shown[i].value.cn] == shown[i].value.t)
    && forall cn :: cn in live ==> exists i :: 0 <= i < |shown| && shown[i].Some? && shown[i].value.cn == cn
  }

  lemma {:induction false} ByNameListed(shown: seq<Option<Entry>>, n: nat, live: map<string, Traffic>, cn: string)
    requires n <= |shown|
    requires forall i :: 0 <= i < |shown| && shown[i].Some? ==>
      shown[i].value.cn in live && live[shown[i].value.cn] == shown[i].value.t
    ensures var m := ByName(Listed(shown, n), |Listed(shown, n)|);
            && (cn in m <==> exists i :: 0 <= i < n && shown[i].Some? && shown[i].value.cn == cn)
            && (cn in m ==> cn in live && m[cn] == Counter(live[cn]))
  {
    if n > 0 {
      ByNameListed(shown, n - 1, live, cn);
      if shown[n - 1].Some? {
        var rows := Listed(shown, n - 1);
        ByNameMore(rows, Status(shown[n - 1].value.cn, Counter(shown[n - 1].value.t)));
      } else {
        assert Listed(shown, n) == Listed(shown, n - 1);
      }
    }
  }

  lemma {:induction false} ByNamePrefix(a: seq<Status>, b: seq<Status>, n: nat)
    requires n <= |a|
    ensures ByName(a + b, n) == ByName(a, n)
  {
    if n > 0 { ByNamePrefix(a, b, n - 1); }
  }

  lemma ByNameMore(rows: seq<Status>, row: Status)
    ensures ByName(rows + [row], |rows| + 1) == ByName(rows, |rows|)[row.cn := row.used]
  {
    ByNamePrefix(rows, [row], |rows|);
  }

  /** A report made from the server's table is the one made from the live connections themselves. */
  lemma ReportFromStatus(name: Naming, s: Vpn, lines: seq<string>, shown: seq<Option<Entry>>, id: Uuid)
    requires |lines| == |shown| && forall i :: 0 <= i < |lines| ==> Shows(lines[i], shown[i])
    requires Shown(shown, s.live)
    ensures Reported(name, s.(live := ByName(RowsOf(lines, |lines|), |RowsOf(lines, |lines|)|)), id)
      == Reported(name, s, id)
  {
    StatusIsRead(lines, shown, |lines|);
    ByNameListed(shown, |shown|, s.live, name(id));
  }
}
