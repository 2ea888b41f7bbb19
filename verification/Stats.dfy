/**
 Xray's statistics: a message of repeated stats, each a message of a name and
 a value. Fields the node does not know are skipped at either level.
 */
module Statistics {
  import opened Basics
  import opened Wire

  datatype Stat = Stat(name: Bytes, value: int)

  const NO_STAT := Stat([], 0)

  type Table = map<Bytes, int>

  const NAME := 1
  const VALUE := 2
  const STAT := 1

  // ---- one field ----

  /** What one field of a stat makes of it, and where the next begins. */
  function StatField(b: Bytes, i: nat, s: Stat): (r: Option<(Stat, nat)>)
    requires i <= |b|
    ensures r.Some? ==> i < r.value.1 <= |b|
  {
    var t := ReadTag(b, i);
    if t.None? then None
    else if t.value.num == NAME && t.value.typ == BYTES then
      var v := ReadBytes(b, t.value.end);
      if v.None? then None else Some((s.(name := v.value.0), v.value.1))
    else if t.value.num == VALUE && t.value.typ == VARINT then
      var v := ReadVarint(b, t.value.end, 0);
      if v.None? then None else Some((s.(value := Int64(v.value.0)), v.value.1))
    else
      var n := SkipValue(t.value.num, t.value.typ, b, t.value.end, DEPTH);
      if n.None? then None else Some((s, n.value))
  }

  function ParseStat(b: Bytes, i: nat, s: Stat): Option<Stat>
    requires i <= |b|
    decreases |b| - i
  {
    if i == |b| then Some(s)
    else
      var r := StatField(b, i, s);
      if r.None? then None else ParseStat(b, r.value.1, r.value.0)
  }

  function TableField(b: Bytes, i: nat, m: Table): (r: Option<(Table, nat)>)
    requires i <= |b|
    ensures r.Some? ==> i < r.value.1 <= |b|
  {
    var t := ReadTag(b, i);
    if t.None? then None
    else if t.value.num != STAT || t.value.typ != BYTES then
      var n := SkipValue(t.value.num, t.value.typ, b, t.value.end, DEPTH);
      if n.None? then None else Some((m, n.value))
    else
      var v := ReadBytes(b, t.value.end);
      if v.None? then None
      else
        var w := WithStat(m, v.value.0);
        if w.None? then None else Some((w.value, v.value.1))
  }

  function WithStat(m: Table, message: Bytes): Option<Table> {
    var s := ParseStat(message, 0, NO_STAT);
    if s.None? then None else Some(m[s.value.name := s.value.value])
  }

  function ParseTable(b: Bytes, i: nat, m: Table): Option<Table>
    requires i <= |b|
    decreases |b| - i
  {
    if i == |b| then Some(m)
    else
      var r := TableField(b, i, m);
      if r.None? then None else ParseTable(b, r.value.1, r.value.0)
  }

  // ---- messages put one after the other ----

  lemma StatFieldExtends(b: Bytes, i: nat, s: Stat, more: Bytes)
    requires i <= |b| && StatField(b, i, s).Some?
    ensures StatField(b + more, i, s) == StatField(b, i, s)
  {
    TagExtends(b, i, more);
    var t := ReadTag(b, i).value;
    if t.num == NAME && t.typ == BYTES {
      BytesExtends(b, t.end, more);
    } else if t.num == VALUE && t.typ == VARINT {
      VarintExtends(b, t.end, 0, more);
    } else {
      SkipValueExtends(t.num, t.typ, b, t.end, DEPTH, more);
    }
  }

  lemma StatFieldShifts(c: Bytes, n: nat, b: Bytes, i: nat, s: Stat)
    requires Tail(c, n, b) && i <= |b|
    ensures StatField(c, n + i, s) ==
      if StatField(b, i, s).None? then None else Some((StatField(b, i, s).value.0, n + StatField(b, i, s).value.1))
  {
    TagShifts(c, n, b, i);
    if ReadTag(b, i).Some? {
      var t := ReadTag(b, i).value;
      if t.num == NAME && t.typ == BYTES {
        BytesShifts(c, n, b, t.end);
      } else if t.num == VALUE && t.typ == VARINT {
        VarintShifts(c, n, b, t.end, 0);
      } else {
        SkipValueShifts(t.num, t.typ, c, n, b, t.end, DEPTH);
      }
    }
  }

  lemma {:induction false} ParseStatThrough(a: Bytes, i: nat, s: Stat, more: Bytes)
    requires i <= |a| && ParseStat(a, i, s).Some?
    ensures ParseStat(a + more, i, s) == ParseStat(a + more, |a|, ParseStat(a, i, s).value)
    decreases |a| - i
  {
    if i < |a| {
      StatFieldExtends(a, i, s, more);
      var r := StatField(a, i, s).value;
      ParseStatThrough(a, r.1, r.0, more);
    }
  }

  lemma {:induction false} ParseStatShifts(c: Bytes, n: nat, b: Bytes, i: nat, s: Stat)
    requires Tail(c, n, b) && i <= |b|
    ensures ParseStat(c, n + i, s) == ParseStat(b, i, s)
    decreases |b| - i
  {
    if i < |b| {
      StatFieldShifts(c, n, b, i, s);
      if StatField(b, i, s).Some? {
        ParseStatShifts(c, n, b, StatField(b, i, s).value.1, StatField(b, i, s).value.0);
      }
    }
  }

  /** Whole fields followed by anything are read one after the other. */
  lemma ParseStatAppend(a: Bytes, b: Bytes, s: Stat)
    requires ParseStat(a, 0, s).Some?
    ensures ParseStat(a + b, 0, s) == ParseStat(b, 0, ParseStat(a, 0, s).value)
  {
    ParseStatThrough(a, 0, s, b);
    ParseStatShifts(a + b, |a|, b, 0, ParseStat(a, 0, s).value);
  }

  lemma TableFieldExtends(b: Bytes, i: nat, m: Table, more: Bytes)
    requires i <= |b| && TableField(b, i, m).Some?
    ensures TableField(b + more, i, m) == TableField(b, i, m)
  {
    TagExtends(b, i, more);
    var t := ReadTag(b, i).value;
    if t.num != STAT || t.typ != BYTES {
      SkipValueExtends(t.num, t.typ, b, t.end, DEPTH, more);
    } else {
      BytesExtends(b, t.end, more);
    }
  }

  function Moved<T>(r: Option<(T, nat)>, n: nat): Option<(T, nat)> {
    if r.None? then None else Some((r.value.0, n + r.value.1))
  }

  lemma SkippedShifts(c: Bytes, n: nat, b: Bytes, i: nat, m: Table, t: Tag)
    requires Tail(c, n, b) && i <= |b| && ReadTag(b, i) == Some(t) && (t.num != STAT || t.typ != BYTES)
    ensures TableField(c, n + i, m) == Moved(TableField(b, i, m), n)
  {
    TagShifts(c, n, b, i);
    SkipValueShifts(t.num, t.typ, c, n, b, t.end, DEPTH);
  }

  lemma StatShifts(c: Bytes, n: nat, b: Bytes, i: nat, m: Table, t: Tag)
    requires Tail(c, n, b) && i <= |b| && ReadTag(b, i) == Some(t) && t.num == STAT && t.typ == BYTES
    ensures TableField(c, n + i, m) == Moved(TableField(b, i, m), n)
  {
    TagShifts(c, n, b, i);
    BytesShifts(c, n, b, t.end);
  }

  lemma TableFieldShifts(c: Bytes, n: nat, b: Bytes, i: nat, m: Table)
    requires Tail(c, n, b) && i <= |b|
    ensures TableField(c, n + i, m) == Moved(TableField(b, i, m), n)
  {
    if ReadTag(b, i).None? {
      TagShifts(c, n, b, i);
    } else if ReadTag(b, i).value.num != STAT || ReadTag(b, i).value.typ != BYTES {
      SkippedShifts(c, n, b, i, m, ReadTag(b, i).value);
    } else {
      StatShifts(c, n, b, i, m, ReadTag(b, i).value);
    }
  }

  lemma {:induction false} ParseTableThrough(a: Bytes, i: nat, m: Table, more: Bytes)
    requires i <= |a| && ParseTable(a, i, m).Some?
    ensures ParseTable(a + more, i, m) == ParseTable(a + more, |a|, ParseTable(a, i, m).value)
    decreases |a| - i
  {
    if i < |a| {
      TableFieldExtends(a, i, m, more);
      var r := TableField(a, i, m).value;
      ParseTableThrough(a, r.1, r.0, more);
    }
  }

  lemma {:induction false} ParseTableShifts(c: Bytes, n: nat, b: Bytes, i: nat, m: Table)
    requires Tail(c, n, b) && i <= |b|
    ensures ParseTable(c, n + i, m) == ParseTable(b, i, m)
    decreases |b| - i
  {
    if i < |b| {
      TableFieldShifts(c, n, b, i, m);
      if TableField(b, i, m).Some? {
        ParseTableShifts(c, n, b, TableField(b, i, m).value.1, TableField(b, i, m).value.0);
      }
    }
  }

  lemma ParseTableAppend(a: Bytes, b: Bytes, m: Table)
    requires ParseTable(a, 0, m).Some?
    ensures ParseTable(a + b, 0, m) == ParseTable(b, 0, ParseTable(a, 0, m).value)
  {
    ParseTableThrough(a, 0, m, b);
    ParseTableShifts(a + b, |a|, b, 0, ParseTable(a, 0, m).value);
  }

  // ---- what the server writes ----

  function PutName(name: Bytes): Bytes { PutTag(NAME, BYTES) + PutBytes(name) }

  function PutNumber(value: int): Bytes { PutTag(VALUE, VARINT) + PutVarint(value % TWO64) }

  /** Default values are left out. */
  function PutStat(s: Stat): Bytes {
    (if s.name == [] then [] else PutName(s.name)) + (if s.value == 0 then [] else PutNumber(s.value))
  }

  function PutEntry(message: Bytes): Bytes { PutTag(STAT, BYTES) + PutBytes(message) }

  function PutTable(stats: seq<Stat>): Bytes {
    if stats == [] then [] else PutEntry(PutStat(stats[0])) + PutTable(stats[1..])
  }

  /** The stats by name, a later one winning. */
  function TableOf(stats: seq<Stat>, m: Table): Table {
    if stats == [] then m else TableOf(stats[1..], m[stats[0].name := stats[0].value])
  }

  predicate IsStat(s: Stat) { |s.name| < TWO64 && -TWO63 <= s.value <= MAX_INT64 && |PutStat(s)| < TWO64 }

  /** A tag and what follows, at the start of a message. */
  lemma AtStart(num: nat, typ: nat, value: Bytes) returns (j: nat)
    requires 1 <= num <= MAX_INT32 && typ < 8
    ensures var b := PutTag(num, typ) + value;
            && ReadTag(b, 0) == Some(Tag(num, typ, j)) && j + |value| == |b|
            && At(b, j, value)
  {
    var tag := PutTag(num, typ);
    j := |tag|;
    assert tag + value == [] + tag + value && tag + value == tag + value + [];
    AtItself([], tag, value);
    AtItself(tag, value, []);
    TagRoundTrip(num, typ, tag + value, 0);
  }

  lemma NameParses(name: Bytes, s: Stat)
    requires |name| < TWO64
    ensures ParseStat(PutName(name), 0, s) == Some(s.(name := name))
  {
    var j := AtStart(NAME, BYTES, PutBytes(name));
    BytesRoundTrip(name, PutName(name), j);
    assert StatField(PutName(name), 0, s) == Some((s.(name := name), |PutName(name)|));
  }

  lemma NumberParses(value: int, s: Stat)
    requires -TWO63 <= value <= MAX_INT64
    ensures ParseStat(PutNumber(value), 0, s) == Some(s.(value := value))
  {
    var j := AtStart(VALUE, VARINT, PutVarint(value % TWO64));
    LimitIs64Bits();
    VarintRoundTrip(value % TWO64, 0, PutNumber(value), j);
    assert StatField(PutNumber(value), 0, s) == Some((s.(value := value), |PutNumber(value)|));
  }

  lemma StatRoundTrip(s: Stat)
    requires IsStat(s)
    ensures ParseStat(PutStat(s), 0, NO_STAT) == Some(s)
  {
    var a := if s.name == [] then [] else PutName(s.name);
    var b := if s.value == 0 then [] else PutNumber(s.value);
    if s.name != [] {
      NameParses(s.name, NO_STAT);
    }
    if s.value != 0 {
      NumberParses(s.value, Stat(s.name, 0));
    }
    ParseStatAppend(a, b, NO_STAT);
  }

  lemma EntryParses(message: Bytes, m: Table)
    requires |message| < TWO64 && WithStat(m, message).Some?
    ensures ParseTable(PutEntry(message), 0, m) == WithStat(m, message)
  {
    var j := AtStart(STAT, BYTES, PutBytes(message));
    BytesRoundTrip(message, PutEntry(message), j);
    assert TableField(PutEntry(message), 0, m) == Some((WithStat(m, message).value, |PutEntry(message)|));
  }

  /** Reading what the server writes gives the last value of every name. */
  lemma {:induction false} TableRoundTrip(stats: seq<Stat>, m: Table)
    requires forall s :: s in stats ==> IsStat(s)
    ensures ParseTable(PutTable(stats), 0, m) == Some(TableOf(stats, m))
  {
    if stats != [] {
      assert stats[0] in stats;
      StatRoundTrip(stats[0]);
      EntryParses(PutStat(stats[0]), m);
      ParseTableAppend(PutEntry(PutStat(stats[0])), PutTable(stats[1..]), m);
      TableRoundTrip(stats[1..], m[stats[0].name := stats[0].value]);
    }
  }

  // ---- unknown fields ----

  /** One whole field that is not of the given number and type. */
  predicate Unknown(f: Bytes, num: nat, typ: nat) {
    var t := ReadTag(f, 0);
    && t.Some? && !(t.value.num == num && t.value.typ == typ)
    && SkipValue(t.value.num, t.value.typ, f, t.value.end, DEPTH) == Some(|f|)
  }

  lemma UnknownInTable(a: Bytes, f: Bytes, b: Bytes, m: Table)
    requires ParseTable(a, 0, m).Some? && Unknown(f, STAT, BYTES)
    ensures ParseTable(a + (f + b), 0, m) == ParseTable(a + b, 0, m)
  {
    var n := ParseTable(a, 0, m).value;
    ParseTableAppend(a, f + b, m);
    ParseTableAppend(a, b, m);
    assert TableField(f, 0, n) == Some((n, |f|));
    ParseTableAppend(f, b, n);
  }

  lemma UnknownInStat(a: Bytes, f: Bytes, b: Bytes, s: Stat)
    requires ParseStat(a, 0, s).Some? && Unknown(f, NAME, BYTES) && Unknown(f, VALUE, VARINT)
    ensures ParseStat(a + (f + b), 0, s) == ParseStat(a + b, 0, s)
  {
    var r := ParseStat(a, 0, s).value;
    ParseStatAppend(a, f + b, s);
    ParseStatAppend(a, b, s);
    assert StatField(f, 0, r) == Some((r, |f|));
    ParseStatAppend(f, b, r);
  }

  /** The same inside any table, where the field makes the stat longer. */
  lemma UnknownInside(before: Bytes, a: Bytes, f: Bytes, b: Bytes, after: Bytes, m: Table)
    requires ParseTable(before, 0, m).Some? && ParseStat(a, 0, NO_STAT).Some? && ParseStat(a + b, 0, NO_STAT).Some?
    requires Unknown(f, NAME, BYTES) && Unknown(f, VALUE, VARINT) && |a + (f + b)| < TWO64
    ensures ParseTable(before + (PutEntry(a + (f + b)) + after), 0, m)
         == ParseTable(before + (PutEntry(a + b) + after), 0, m)
  {
    var n := ParseTable(before, 0, m).value;
    UnknownInStat(a, f, b, NO_STAT);
    ParseTableAppend(before, PutEntry(a + (f + b)) + after, m);
    ParseTableAppend(before, PutEntry(a + b) + after, m);
    EntryParses(a + (f + b), n);
    EntryParses(a + b, n);
    ParseTableAppend(PutEntry(a + (f + b)), after, n);
    ParseTableAppend(PutEntry(a + b), after, n);
  }

  /** Every field a writer can produce under another number or type is such a field. */
  lemma WrittenIsUnknown(f: Field, num: nat, typ: nat)
    requires Writable(f, DEPTH) && !(f.num == num && TypeOf(f.value) == typ)
    ensures Unknown(PutTag(f.num, TypeOf(f.value)) + PutValue(f), num, typ)
  {
    var j := AtStart(f.num, TypeOf(f.value), PutValue(f));
    WrittenIsSkipped(f, PutTag(f.num, TypeOf(f.value)) + PutValue(f), j, DEPTH);
  }

  // ---- the loops ----

  method ReadStat(b: Bytes) returns (r: Option<Stat>)
    ensures r == ParseStat(b, 0, NO_STAT)
  {
    var s, i := NO_STAT, 0;
    while i < |b|
      invariant i <= |b| && ParseStat(b, i, s) == ParseStat(b, 0, NO_STAT)
      decreases |b| - i
    {
      var t := ReadTag(b, i);
      if t.None? {
        return None;
      }
      if t.value.num == NAME && t.value.typ == BYTES {
        var v := ReadBytes(b, t.value.end);
        if v.None? {
          return None;
        }
        s, i := s.(name := v.value.0), v.value.1;
      } else if t.value.num == VALUE && t.value.typ == VARINT {
        var v := ReadVarint(b, t.value.end, 0);
        if v.None? {
          return None;
        }
        s, i := s.(value := Int64(v.value.0)), v.value.1;
      } else {
        var n := SkipValue(t.value.num, t.value.typ, b, t.value.end, DEPTH);
        if n.None? {
          return None;
        }
        i := n.value;
      }
    }
    r := Some(s);
  }

  method ReadTable(b: Bytes) returns (r: Option<Table>)
    ensures r == ParseTable(b, 0, map[])
  {
    var m: Table, i := map[], 0;
    while i < |b|
      invariant i <= |b| && ParseTable(b, i, m) == ParseTable(b, 0, map[])
      decreases |b| - i
    {
      var t := ReadTag(b, i);
      if t.None? {
        return None;
      }
      if t.value.num != STAT || t.value.typ != BYTES {
        var n := SkipValue(t.value.num, t.value.typ, b, t.value.end, DEPTH);
        if n.None? {
          return None;
        }
        i := n.value;
      } else {
        var v := ReadBytes(b, t.value.end);
        if v.None? {
          return None;
        }
        var s := ReadStat(v.value.0);
        if s.None? {
          return None;
        }
        m, i := m[s.value.name := s.value.value], v.value.1;
      }
    }
    r := Some(m);
  }
}
