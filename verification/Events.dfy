/**
 Assembly of OpenVPN client notifications. A notification is a header line,
 environment lines and an END line, among other lines; the reader keeps the
 notification it is in and settles it at END.
 */
module ClientEvents {
  import opened Basics
  import opened Text

  // ---- numbers ----

  predicate Digit(c: char) { 48 <= c as int <= 57 }

  function Number(digits: string): nat
    requires forall c :: c in digits ==> Digit(c)
  {
    if digits == "" then 0
    else
      var last := digits[|digits| - 1];
      assert last in digits && Digit(last);
      10 * Number(digits[..|digits| - 1]) + (last as int - 48)
  }

  /** A decimal 64-bit integer; 0 when it is none, the nearest bound when it is too large. */
  function ParseInt(s: string): (n: int)
    ensures -TWO63 <= n <= MAX_INT64
  {
    var signed := s != "" && (s[0] == '+' || s[0] == '-');
    var digits := if signed then s[1..] else s;
    if digits == "" || exists c :: c in digits && !Digit(c) then 0
    else
      var n: int := Number(digits);
      if signed && s[0] == '-' then (if n > TWO63 then -TWO63 else -n) else if n > MAX_INT64 then MAX_INT64 else n
  }

  /** The decimal text of a number. */
  function Decimal(n: nat): (s: string)
    ensures s != "" && forall c :: c in s ==> Digit(c)
  {
    var last := [(48 + n % 10) as char];
    if n < 10 then last else Decimal(n / 10) + last
  }

  lemma {:induction false} NumberOfDecimal(n: nat)
    ensures Number(Decimal(n)) == n
  {
    var s := Decimal(n);
    if n < 10 {
      assert s[..|s| - 1] == "";
    } else {
      NumberOfDecimal(n / 10);
      assert s[..|s| - 1] == Decimal(n / 10);
    }
  }

  lemma DigitsAndSign(s: string, sign: char)
    requires s != "" && forall c :: c in s ==> Digit(c)
    requires sign == '+' || sign == '-'
    ensures s[0] != '+' && s[0] != '-'
    ensures ([sign] + s)[0] == sign && ([sign] + s)[1..] == s
  {
    assert s[0] in s;
  }

  /** A number's decimal text, with or without a sign, is read as the number, saturated at 64 bits. */
  lemma ParseIntOfDecimal(n: nat)
    ensures ParseInt(Decimal(n)) == ParseInt("+" + Decimal(n)) == if n <= MAX_INT64 then n else MAX_INT64
    ensures ParseInt("-" + Decimal(n)) == if n <= TWO63 then -(n as int) else -TWO63
  {
    NumberOfDecimal(n);
    DigitsAndSign(Decimal(n), '+');
    DigitsAndSign(Decimal(n), '-');
  }

  lemma NotDigit(c: char)
    requires c !in "0123456789"
    ensures !Digit(c)
  {
    var all := "0123456789";
    assert forall i :: 0 <= i < 10 ==> all[i] == (48 + i) as char;
  }

  /** Text without digits, or with anything else behind a sign, is read as 0. */
  lemma ParseIntOfOther(a: string, c: char, b: string)
    requires c !in "0123456789" && (a == "" ==> c != '+' && c != '-')
    ensures ParseInt("") == ParseInt("+") == ParseInt("-") == 0
    ensures ParseInt(a + [c] + b) == 0
  {
    var s := a + [c] + b;
    NotDigit(c);
    assert s[|a|] == c;
    assert a != "" ==> s[1..][|a| - 1] == c;
    assert a == "" ==> s[0] == c;
  }

  // ---- lines ----

  const CLIENT := ">CLIENT:"
  const HEADERS := {"CONNECT", "REAUTH", "ESTABLISHED", "DISCONNECT"}

  datatype ClientEvent = ClientEvent(kind: string, cid: string, kid: string, env: map<string, string>)

  /** What a line means to the reader. */
  datatype Meaning =
    | Begins(kind: string, cid: string, kid: string)
    | Sets(name: string, text: string)
    | Ends
    | Other

  function MeaningOf(line: string): Meaning {
    if !(CLIENT <= line) then Other
    else
      var (kind, rest, _) := Cut(line[|CLIENT|..], ',');
      if kind in HEADERS then
        var (cid, kid, _) := Cut(rest, ',');
        Begins(kind, cid, kid)
      else if kind == "ENV" then Setting(rest)
      else Other
  }

  function Setting(rest: string): Meaning {
    if rest == "END" then Ends
    else
      var (k, v, ok) := Cut(rest, '=');
      if ok then Sets(k, v) else Other
  }

  /** What settling a notification does: answer the server, or bank traffic. */
  datatype Effect =
    | Verdict(admit: bool, cid: string, kid: string)
    | Left(commonName: string, received: int, sent: int)

  function Env(ev: ClientEvent, name: string): string { if name in ev.env then ev.env[name] else "" }

  function CommonName(ev: ClientEvent): string {
    if Env(ev, "common_name") != "" then Env(ev, "common_name") else Env(ev, "X509_0_CN")
  }

  function Settle(ev: ClientEvent, registered: set<string>): seq<Effect> {
    if ev.kind == "CONNECT" || ev.kind == "REAUTH" then [Verdict(CommonName(ev) in registered, ev.cid, ev.kid)]
    else if ev.kind == "DISCONNECT" then
      [Left(CommonName(ev), ParseInt(Env(ev, "bytes_received")), ParseInt(Env(ev, "bytes_sent")))]
    else []
  }

  /** A line's meaning and the names registered when it is read. */
  datatype Note = Note(meaning: Meaning, registered: set<string>)

  type Progress = (Option<ClientEvent>, seq<Effect>)

  function Handle(current: Option<ClientEvent>, s: Note): Progress {
    match s.meaning
    case Begins(kind, cid, kid) => (Some(ClientEvent(kind, cid, kid, map[])), [])
    case Sets(k, v) =>
      if current.None? then (None, []) else (Some(current.value.(env := current.value.env[k := v])), [])
    case Ends => if current.None? then (None, []) else (None, Settle(current.value, s.registered))
    case Other => (current, [])
  }

  /** The reader after the first n notes, from no open notification. */
  function HandleTo(notes: seq<Note>, n: nat): Progress
    requires n <= |notes|
  {
    if n == 0 then (None, [])
    else
      var (current, effects) := HandleTo(notes, n - 1);
      var (next, more) := Handle(current, notes[n - 1]);
      (next, effects + more)
  }

  // ---- blocks, without reading in order ----

  predicate IsHeader(s: Note) { s.meaning.Begins? }

  predicate IsEnd(s: Note) { s.meaning.Ends? }

  /** A header at h with no other header and no END up to n. */
  predicate Open(notes: seq<Note>, h: nat, n: nat) {
    h < n <= |notes| && IsHeader(notes[h]) && forall i :: h < i < n ==> !IsHeader(notes[i]) && !IsEnd(notes[i])
  }

  /** A complete block: an open header and the END that closes it. */
  predicate Complete(notes: seq<Note>, h: nat, e: nat) { e < |notes| && Open(notes, h, e) && IsEnd(notes[e]) }

  /** The values the notes from a up to b set, a later one winning. */
  function EnvOf(notes: seq<Note>, a: nat, b: nat): map<string, string>
    requires a <= b <= |notes|
    decreases b
  {
    if a == b then map[]
    else
      var m := notes[b - 1].meaning;
      if m.Sets? then EnvOf(notes, a, b - 1)[m.name := m.text] else EnvOf(notes, a, b - 1)
  }

  function EventOf(notes: seq<Note>, h: nat, n: nat): ClientEvent
    requires Open(notes, h, n)
  {
    var m := notes[h].meaning;
    ClientEvent(m.kind, m.cid, m.kid, EnvOf(notes, h + 1, n))
  }

  /** The effects of the complete blocks that end before n, in order. */
  ghost function BlockEffects(notes: seq<Note>, n: nat): seq<Effect>
    requires n <= |notes|
  {
    if n == 0 then []
    else BlockEffects(notes, n - 1) + EffectsAt(notes, n - 1)
  }

  /** The effects of the block that ends at e, if one does. */
  ghost function EffectsAt(notes: seq<Note>, e: nat): seq<Effect>
    requires e < |notes|
  {
    if exists h: nat :: Complete(notes, h, e) then
      var h: nat :| Complete(notes, h, e);
      Settle(EventOf(notes, h, e), notes[e].registered)
    else []
  }

  lemma OpenUnique(notes: seq<Note>, h: nat, k: nat, n: nat)
    requires Open(notes, h, n) && Open(notes, k, n)
    ensures h == k
  {
  }

  /** The reader is in the notification whose header is open, and in none if no header is. */
  ghost predicate Tracks(notes: seq<Note>, n: nat, current: Option<ClientEvent>)
    requires n <= |notes|
  {
    match current
    case None => forall h: nat :: !Open(notes, h, n)
    case Some(ev) => exists h: nat :: Open(notes, h, n) && ev == EventOf(notes, h, n)
  }

  lemma TrackHeader(notes: seq<Note>, n: nat, current: Option<ClientEvent>)
    requires n < |notes| && Tracks(notes, n, current) && IsHeader(notes[n])
    ensures Tracks(notes, n + 1, Handle(current, notes[n]).0)
  {
    assert Open(notes, n, n + 1);
    assert EnvOf(notes, n + 1, n + 1) == map[];
  }

  lemma TrackEnd(notes: seq<Note>, n: nat, current: Option<ClientEvent>)
    requires n < |notes| && Tracks(notes, n, current) && IsEnd(notes[n])
    ensures Tracks(notes, n + 1, Handle(current, notes[n]).0)
  {
  }

  lemma TrackOther(notes: seq<Note>, n: nat, current: Option<ClientEvent>)
    requires n < |notes| && Tracks(notes, n, current) && !IsHeader(notes[n]) && !IsEnd(notes[n])
    ensures Tracks(notes, n + 1, Handle(current, notes[n]).0)
  {
    if current.None? {
      var m := n + 1;
      forall h: nat ensures !Open(notes, h, m) {
        assert h < n ==> !Open(notes, h, n);
      }
    } else {
      var h: nat :| Open(notes, h, n) && current.value == EventOf(notes, h, n);
      assert Open(notes, h, n + 1);
    }
  }

  lemma EndEffects(notes: seq<Note>, n: nat, current: Option<ClientEvent>)
    requires n < |notes| && Tracks(notes, n, current)
    ensures BlockEffects(notes, n + 1) == BlockEffects(notes, n) + Handle(current, notes[n]).1
  {
    if current.Some? && IsEnd(notes[n]) {
      var h: nat :| Open(notes, h, n) && current.value == EventOf(notes, h, n);
      assert Complete(notes, h, n);
      forall k: nat | Complete(notes, k, n) ensures k == h {
        OpenUnique(notes, h, k, n);
      }
    } else if IsEnd(notes[n]) {
      forall h: nat ensures !Complete(notes, h, n) {
        assert !Open(notes, h, n);
      }
    }
  }

  /**
   Reading line by line has exactly the effects of the complete blocks, one
   each, in the order they end, with the header's own ids and the values set
   between the header and its END.
   */
  lemma {:induction false} ReadingIsBlocks(notes: seq<Note>, n: nat)
    requires n <= |notes|
    ensures HandleTo(notes, n).1 == BlockEffects(notes, n)
    ensures Tracks(notes, n, HandleTo(notes, n).0)
  {
    if n > 0 {
      ReadingIsBlocks(notes, n - 1);
      var current := HandleTo(notes, n - 1).0;
      EndEffects(notes, n - 1, current);
      if IsHeader(notes[n - 1]) {
        TrackHeader(notes, n - 1, current);
      } else if IsEnd(notes[n - 1]) {
        TrackEnd(notes, n - 1, current);
      } else {
        TrackOther(notes, n - 1, current);
      }
    }
  }

  /** A name's value in a block is the last one set for it there. */
  lemma {:induction false} LastSetWins(notes: seq<Note>, a: nat, b: nat, name: string)
    requires a <= b <= |notes|
    ensures name in EnvOf(notes, a, b) <==> exists i :: a <= i < b && SetsName(notes[i], name)
    ensures forall i :: a <= i < b && LastToSet(notes, i, b, name) ==>
      name in EnvOf(notes, a, b) && EnvOf(notes, a, b)[name] == notes[i].meaning.text
    decreases b
  {
    if a < b {
      LastSetWins(notes, a, b - 1, name);
    }
  }

  predicate LastToSet(notes: seq<Note>, i: nat, b: nat, name: string)
    requires i < b <= |notes|
  {
    SetsName(notes[i], name) && forall j :: i < j < b ==> !SetsName(notes[j], name)
  }

  predicate SetsName(s: Note, name: string) { s.meaning.Sets? && s.meaning.name == name }

  /** The value last set for a name by the notes from a up to b, empty when none sets it. */
  function LastValue(notes: seq<Note>, a: nat, b: nat, name: string): string
    requires a <= b <= |notes|
    decreases b
  {
    if a == b then ""
    else if SetsName(notes[b - 1], name) then notes[b - 1].meaning.text
    else LastValue(notes, a, b - 1, name)
  }

  lemma {:induction false} EnvIsLastValue(notes: seq<Note>, a: nat, b: nat, name: string)
    requires a <= b <= |notes|
    ensures LastValue(notes, a, b, name) == var env := EnvOf(notes, a, b); if name in env then env[name] else ""
    decreases b
  {
    if a < b {
      EnvIsLastValue(notes, a, b - 1, name);
    }
  }

  /** Whom the block from h to e is about: its common name, or its certificate's when that is empty or missing. */
  function Subject(notes: seq<Note>, h: nat, e: nat): string
    requires h < e <= |notes|
  {
    var name := LastValue(notes, h + 1, e, "common_name");
    if name != "" then name else LastValue(notes, h + 1, e, "X509_0_CN")
  }

  lemma BlockEvent(notes: seq<Note>, h: nat, e: nat)
    requires Complete(notes, h, e)
    ensures CommonName(EventOf(notes, h, e)) == Subject(notes, h, e)
    ensures EffectsAt(notes, e) == Settle(EventOf(notes, h, e), notes[e].registered)
  {
    EnvIsLastValue(notes, h + 1, e, "common_name");
    EnvIsLastValue(notes, h + 1, e, "X509_0_CN");
    forall k: nat | Complete(notes, k, e) ensures k == h {
      OpenUnique(notes, h, k, e);
    }
  }

  /** Every complete CONNECT or REAUTH block has exactly one verdict, on its own subject and under its own ids. */
  lemma OneVerdictEach(notes: seq<Note>, h: nat, e: nat)
    requires Complete(notes, h, e) && notes[h].meaning.kind in {"CONNECT", "REAUTH"}
    ensures BlockEffects(notes, e + 1) == BlockEffects(notes, e)
      + [Verdict(Subject(notes, h, e) in notes[e].registered, notes[h].meaning.cid, notes[h].meaning.kid)]
  {
    BlockEvent(notes, h, e);
  }

  /** Who left, and the numbers the block last gives as received and as sent. */
  function Farewell(notes: seq<Note>, h: nat, e: nat): Effect
    requires h < e <= |notes|
  {
    Left(Subject(notes, h, e), ParseInt(LastValue(notes, h + 1, e, "bytes_received")),
         ParseInt(LastValue(notes, h + 1, e, "bytes_sent")))
  }

  lemma SettlesAsFarewell(notes: seq<Note>, h: nat, e: nat)
    requires Open(notes, h, e) && notes[h].meaning.kind == "DISCONNECT"
    ensures Settle(EventOf(notes, h, e), notes[h].registered) == [Farewell(notes, h, e)]
    ensures forall registered ::
      Settle(EventOf(notes, h, e), registered) == Settle(EventOf(notes, h, e), notes[h].registered)
  {
    EnvIsLastValue(notes, h + 1, e, "common_name");
    EnvIsLastValue(notes, h + 1, e, "X509_0_CN");
    EnvIsLastValue(notes, h + 1, e, "bytes_received");
    EnvIsLastValue(notes, h + 1, e, "bytes_sent");
  }

  /** Every complete DISCONNECT block banks once what it last says was received and sent. */
  lemma OneLeftEach(notes: seq<Note>, h: nat, e: nat)
    requires Complete(notes, h, e) && notes[h].meaning.kind == "DISCONNECT"
    ensures BlockEffects(notes, e + 1) == BlockEffects(notes, e) + [Farewell(notes, h, e)]
  {
    BlockEvent(notes, h, e);
    SettlesAsFarewell(notes, h, e);
  }

  /** Any other block does nothing, and neither does a note that ends no block. */
  lemma NoOtherEffect(notes: seq<Note>, e: nat)
    requires e < |notes|
    requires forall h: nat :: Complete(notes, h, e) ==> notes[h].meaning.kind !in {"CONNECT", "REAUTH", "DISCONNECT"}
    ensures BlockEffects(notes, e + 1) == BlockEffects(notes, e)
  {
    if h: nat :| Complete(notes, h, e) {
      BlockEvent(notes, h, e);
    }
  }

  // ---- the lines the server writes ----

  lemma ClientLine(kind: string, rest: string)
    requires ',' !in kind
    ensures var line := CLIENT + kind + "," + rest;
            CLIENT <= line && Cut(line[|CLIENT|..], ',') == (kind, rest, true)
  {
    var line := CLIENT + kind + "," + rest;
    assert line[|CLIENT|..] == kind + [','] + rest;
    CutJoined(kind, ',', rest);
  }

  lemma HeaderLine(kind: string, cid: string, kid: string)
    requires kind in HEADERS && ',' !in cid
    ensures MeaningOf(CLIENT + kind + "," + (cid + "," + kid)) == Begins(kind, cid, kid)
    ensures MeaningOf(CLIENT + kind + "," + cid) == Begins(kind, cid, "")
  {
    ClientLine(kind, cid + "," + kid);
    ClientLine(kind, cid);
    CutJoined(cid, ',', kid);
    CutNone(cid, ',');
  }

  lemma EnvMeaning(line: string, rest: string)
    requires CLIENT <= line && Cut(line[|CLIENT|..], ',') == ("ENV", rest, true)
    ensures MeaningOf(line) == Setting(rest)
  {
  }

  lemma EnvLine(name: string, text: string)
    requires '=' !in name
    ensures MeaningOf(CLIENT + "ENV" + "," + (name + "=" + text)) == Sets(name, text)
  {
    var rest := name + "=" + text;
    ClientLine("ENV", rest);
    EnvMeaning(CLIENT + "ENV" + "," + rest, rest);
    SettingOf(name, text);
  }

  lemma SettingOf(name: string, text: string)
    requires '=' !in name
    ensures Setting(name + "=" + text) == Sets(name, text)
  {
    CutJoined(name, '=', text);
    assert (name + "=" + text)[|name|] == '=';
  }

  lemma EndLine()
    ensures MeaningOf(CLIENT + "ENV" + "," + "END") == Ends
  {
    ClientLine("ENV", "END");
  }

  /** A line that is no client notification, or one of another kind, or a setting without a value, means nothing. */
  lemma OtherLine(line: string, kind: string, rest: string)
    requires ',' !in kind && kind !in HEADERS
    requires kind == "ENV" ==> rest != "END" && '=' !in rest
    ensures !(CLIENT <= line) ==> MeaningOf(line) == Other
    ensures MeaningOf(CLIENT + kind + "," + rest) == Other
  {
    ClientLine(kind, rest);
    if kind == "ENV" { CutNone(rest, '='); }
  }

  function HeaderText(kind: string, cid: string, kid: string): string { CLIENT + kind + "," + (cid + "," + kid) }

  function SettingText(setting: (string, string)): string {
    CLIENT + "ENV" + "," + (setting.0 + "=" + setting.1)
  }

  const END_TEXT := CLIENT + "ENV" + "," + "END"

  function SettingTexts(env: seq<(string, string)>): (lines: seq<string>)
    ensures |lines| == |env| && forall i :: 0 <= i < |env| ==> lines[i] == SettingText(env[i])
  {
    if env == [] then [] else [SettingText(env[0])] + SettingTexts(env[1..])
  }

  /** The lines of a notification: its header, a line for each setting, and END. */
  function BlockLines(kind: string, cid: string, kid: string, env: seq<(string, string)>): seq<string> {
    [HeaderText(kind, cid, kid)] + SettingTexts(env) + [END_TEXT]
  }

  function NotesOf(lines: seq<string>, registered: set<string>): (notes: seq<Note>)
    ensures |notes| == |lines|
    ensures forall i :: 0 <= i < |lines| ==> notes[i] == Note(MeaningOf(lines[i]), registered)
  {
    if lines == [] then [] else [Note(MeaningOf(lines[0]), registered)] + NotesOf(lines[1..], registered)
  }

  /** The notes are those of one notification with these settings. */
  predicate IsBlock(notes: seq<Note>, kind: string, cid: string, kid: string, env: seq<(string, string)>) {
    && |notes| == |env| + 2
    && notes[0].meaning == Begins(kind, cid, kid) && notes[|env| + 1].meaning == Ends
    && forall i :: 0 < i <= |env| ==> notes[i].meaning == Sets(env[i - 1].0, env[i - 1].1)
  }

  lemma BlockComplete(notes: seq<Note>, kind: string, cid: string, kid: string, env: seq<(string, string)>)
    requires IsBlock(notes, kind, cid, kid, env)
    ensures Complete(notes, 0, |env| + 1)
  {
  }

  lemma TextMeans(kind: string, cid: string, kid: string, setting: (string, string))
    requires kind in HEADERS && ',' !in cid && '=' !in setting.0
    ensures MeaningOf(HeaderText(kind, cid, kid)) == Begins(kind, cid, kid)
    ensures MeaningOf(SettingText(setting)) == Sets(setting.0, setting.1)
    ensures MeaningOf(END_TEXT) == Ends
  {
    HeaderLine(kind, cid, kid);
    EnvLine(setting.0, setting.1);
    EndLine();
  }

  lemma LineAt(kind: string, cid: string, kid: string, env: seq<(string, string)>, i: nat)
    requires i < |env| + 2
    ensures |BlockLines(kind, cid, kid, env)| == |env| + 2
    ensures BlockLines(kind, cid, kid, env)[i] ==
      if i == 0 then HeaderText(kind, cid, kid) else if i <= |env| then SettingText(env[i - 1]) else END_TEXT
  {
  }

  /** Written out and read, a notification is one complete block with its ids and settings. */
  lemma BlockIsRead(kind: string, cid: string, kid: string, env: seq<(string, string)>, registered: set<string>)
    requires kind in HEADERS && ',' !in cid && forall i :: 0 <= i < |env| ==> '=' !in env[i].0
    ensures var notes := NotesOf(BlockLines(kind, cid, kid, env), registered);
            IsBlock(notes, kind, cid, kid, env) && Complete(notes, 0, |env| + 1)
  {
    var notes := NotesOf(BlockLines(kind, cid, kid, env), registered);
    TextMeans(kind, cid, kid, ("", ""));
    LineAt(kind, cid, kid, env, 0);
    LineAt(kind, cid, kid, env, |env| + 1);
    forall i | 0 < i <= |env| ensures notes[i].meaning == Sets(env[i - 1].0, env[i - 1].1) {
      LineAt(kind, cid, kid, env, i);
      TextMeans(kind, cid, kid, env[i - 1]);
    }
    BlockComplete(notes, kind, cid, kid, env);
  }
}
