/**
 The Protocol Buffers wire format as far as Xray's statistics need it:
 varints, tags, length-delimited fields and the skipping of any field.
 Readers start at a position and give the position after what they read.
 */
module Wire {
  import opened Basics
  import opened Addresses

  type Bytes = seq<Byte>

  const MAX_INT32 := 0x7fff_ffff
  const DEPTH := 10000

  const VARINT := 0
  const FIXED64 := 1
  const BYTES := 2
  const START_GROUP := 3
  const END_GROUP := 4
  const FIXED32 := 5

  /** The piece s stands in b at position i. */
  predicate At(b: Bytes, i: nat, s: Bytes)
    decreases |s|
  {
    s == [] || (i < |b| && b[i] == s[0] && At(b, i + 1, s[1..]))
  }

  lemma {:induction false} AtParts(b: Bytes, i: nat, s: Bytes, t: Bytes)
    requires At(b, i, s + t)
    ensures At(b, i, s) && At(b, i + |s|, t)
    decreases |s|
  {
    if s == [] {
      assert s + t == t;
    } else {
      assert (s + t)[0] == s[0] && (s + t)[1..] == s[1..] + t;
      AtParts(b, i + 1, s[1..], t);
    }
  }

  lemma {:induction false} AtSlice(b: Bytes, i: nat, s: Bytes)
    requires i <= |b| && At(b, i, s)
    ensures i + |s| <= |b| && b[i..i + |s|] == s
    decreases |s|
  {
    if s != [] {
      AtSlice(b, i + 1, s[1..]);
      assert b[i..i + |s|] == [b[i]] + b[i + 1..i + |s|];
    }
  }

  lemma {:induction false} AtItself(a: Bytes, s: Bytes, t: Bytes)
    ensures At(a + s + t, |a|, s)
    decreases |s|
  {
    if s != [] {
      assert a + s + t == (a + [s[0]]) + s[1..] + t;
      AtItself(a + [s[0]], s[1..], t);
    }
  }

  // ---- varints ----

  /** What may still come when k bytes of a varint are read: 64 bits in all. */
  function Limit(k: nat): (n: nat)
    requires k <= 9
    ensures n >= 2
    decreases 9 - k
  {
    if k == 9 then 2 else 128 * Limit(k + 1)
  }

  /** A varint's value and its end, after k of its bytes. The tenth byte holds one bit. */
  function ReadVarint(b: Bytes, i: nat, k: nat): (r: Option<(nat, nat)>)
    requires i <= |b| && k <= 9
    ensures r.Some? ==> i < r.value.1 <= |b|
    decreases |b| - i
  {
    if i == |b| then None
    else if k == 9 then if b[i] < 2 then Some((b[i], i + 1)) else None
    else if b[i] < 128 then Some((b[i], i + 1))
    else
      var r := ReadVarint(b, i + 1, k + 1);
      if r.None? then None else Some((b[i] - 128 + 128 * r.value.0, r.value.1))
  }

  lemma {:induction false} VarintFits(b: Bytes, i: nat, k: nat)
    requires i <= |b| && k <= 9 && ReadVarint(b, i, k).Some?
    ensures ReadVarint(b, i, k).value.0 < Limit(k)
    decreases |b| - i
  {
    if k < 9 && b[i] >= 128 {
      VarintFits(b, i + 1, k + 1);
    }
  }

  function PutVarint(v: nat): (s: Bytes)
    ensures s != []
  {
    if v < 128 then [v] else [v % 128 + 128] + PutVarint(v / 128)
  }

  lemma {:induction false} VarintRoundTrip(v: nat, k: nat, b: Bytes, i: nat)
    requires i <= |b| && k <= 9 && v < Limit(k) && At(b, i, PutVarint(v))
    ensures ReadVarint(b, i, k) == Some((v, i + |PutVarint(v)|))
    decreases 9 - k
  {
    if v >= 128 {
      AtParts(b, i, [v % 128 + 128], PutVarint(v / 128));
      VarintRoundTrip(v / 128, k + 1, b, i + 1);
    }
  }

  lemma LimitIs64Bits()
    ensures Limit(0) == TWO64
  {
  }

  lemma {:induction false} VarintExtends(b: Bytes, i: nat, k: nat, more: Bytes)
    requires i <= |b| && k <= 9 && ReadVarint(b, i, k).Some?
    ensures ReadVarint(b + more, i, k) == ReadVarint(b, i, k)
    decreases |b| - i
  {
    if k < 9 && b[i] >= 128 {
      VarintExtends(b, i + 1, k + 1, more);
    }
  }

  // ---- tags and values ----

  datatype Tag = Tag(num: nat, typ: nat, end: nat)

  /** A field number from 1 to 2^31 - 1 and a type. */
  function ReadTag(b: Bytes, i: nat): (r: Option<Tag>)
    requires i <= |b|
    ensures r.Some? ==> i < r.value.end <= |b| && 1 <= r.value.num <= MAX_INT32 && r.value.typ < 8
  {
    var v := ReadVarint(b, i, 0);
    if v.None? || v.value.0 / 8 > MAX_INT32 || v.value.0 / 8 < 1 then None
    else Some(Tag(v.value.0 / 8, v.value.0 % 8, v.value.1))
  }

  function PutTag(num: nat, typ: nat): Bytes { PutVarint(8 * num + typ) }

  lemma TagRoundTrip(num: nat, typ: nat, b: Bytes, i: nat)
    requires i <= |b| && 1 <= num <= MAX_INT32 && typ < 8 && At(b, i, PutTag(num, typ))
    ensures ReadTag(b, i) == Some(Tag(num, typ, i + |PutTag(num, typ)|))
  {
    LimitIs64Bits();
    VarintRoundTrip(8 * num + typ, 0, b, i);
  }

  lemma TagExtends(b: Bytes, i: nat, more: Bytes)
    requires i <= |b| && ReadTag(b, i).Some?
    ensures ReadTag(b + more, i) == ReadTag(b, i)
  {
    VarintExtends(b, i, 0, more);
  }

  /** A length and that many bytes. */
  function ReadBytes(b: Bytes, i: nat): (r: Option<(Bytes, nat)>)
    requires i <= |b|
    ensures r.Some? ==> i < r.value.1 <= |b|
  {
    var v := ReadVarint(b, i, 0);
    if v.None? || v.value.0 > |b| - v.value.1 then None
    else Some((b[v.value.1..v.value.1 + v.value.0], v.value.1 + v.value.0))
  }

  function PutBytes(s: Bytes): Bytes { PutVarint(|s|) + s }

  lemma BytesRoundTrip(s: Bytes, b: Bytes, i: nat)
    requires i <= |b| && |s| < TWO64 && At(b, i, PutBytes(s))
    ensures ReadBytes(b, i) == Some((s, i + |PutBytes(s)|))
  {
    LimitIs64Bits();
    AtParts(b, i, PutVarint(|s|), s);
    VarintRoundTrip(|s|, 0, b, i);
    AtSlice(b, i + |PutVarint(|s|)|, s);
  }

  lemma BytesExtends(b: Bytes, i: nat, more: Bytes)
    requires i <= |b| && ReadBytes(b, i).Some?
    ensures ReadBytes(b + more, i) == ReadBytes(b, i)
  {
    VarintExtends(b, i, 0, more);
    var v := ReadVarint(b, i, 0).value;
    assert (b + more)[v.1..v.1 + v.0] == b[v.1..v.1 + v.0];
  }

  /** The end of a field's value; groups nest up to a depth. */
  function SkipValue(num: nat, typ: nat, b: Bytes, i: nat, depth: int): (r: Option<nat>)
    requires i <= |b|
    ensures r.Some? ==> i <= r.value <= |b|
    decreases |b| - i, 1
  {
    if typ == VARINT then
      var v := ReadVarint(b, i, 0);
      if v.None? then None else Some(v.value.1)
    else if typ == FIXED64 then if i + 8 > |b| then None else Some(i + 8)
    else if typ == FIXED32 then if i + 4 > |b| then None else Some(i + 4)
    else if typ == BYTES then
      var s := ReadBytes(b, i);
      if s.None? then None else Some(s.value.1)
    else if typ == START_GROUP && depth >= 0 then SkipGroup(num, b, i, depth)
    else None
  }

  /** The end of a group: its fields, up to and with the end tag of the same number. */
  function SkipGroup(num: nat, b: Bytes, i: nat, depth: int): (r: Option<nat>)
    requires i <= |b|
    ensures r.Some? ==> i <= r.value <= |b|
    decreases |b| - i, 0
  {
    var t := ReadTag(b, i);
    if t.None? then None
    else if t.value.typ == END_GROUP then if t.value.num == num then Some(t.value.end) else None
    else
      var v := SkipValue(t.value.num, t.value.typ, b, t.value.end, depth - 1);
      if v.None? then None else SkipGroup(num, b, v.value, depth)
  }

  lemma {:induction false} SkipValueExtends(num: nat, typ: nat, b: Bytes, i: nat, depth: int, more: Bytes)
    requires i <= |b| && SkipValue(num, typ, b, i, depth).Some?
    ensures SkipValue(num, typ, b + more, i, depth) == SkipValue(num, typ, b, i, depth)
    decreases |b| - i, 1
  {
    if typ == VARINT {
      VarintExtends(b, i, 0, more);
    } else if typ == BYTES {
      BytesExtends(b, i, more);
    } else if typ == START_GROUP {
      SkipGroupExtends(num, b, i, depth, more);
    }
  }

  lemma {:induction false} SkipGroupExtends(num: nat, b: Bytes, i: nat, depth: int, more: Bytes)
    requires i <= |b| && SkipGroup(num, b, i, depth).Some?
    ensures SkipGroup(num, b + more, i, depth) == SkipGroup(num, b, i, depth)
    decreases |b| - i, 0
  {
    TagExtends(b, i, more);
    var t := ReadTag(b, i).value;
    if t.typ != END_GROUP {
      SkipValueExtends(t.num, t.typ, b, t.end, depth - 1, more);
      var v := SkipValue(t.num, t.typ, b, t.end, depth - 1).value;
      SkipGroupExtends(num, b, v, depth, more);
    }
  }

  // ---- reading further along ----

  /** The bytes b are the end of c, from position n. */
  ghost predicate Tail(c: Bytes, n: nat, b: Bytes) {
    |c| == n + |b| && forall k :: 0 <= k < |b| ==> c[n + k] == b[k]
  }

  function Later(r: Option<nat>, n: nat): Option<nat> { if r.None? then None else Some(n + r.value) }

  lemma {:induction false} VarintShifts(c: Bytes, n: nat, b: Bytes, i: nat, k: nat)
    requires Tail(c, n, b) && i <= |b| && k <= 9
    ensures ReadVarint(c, n + i, k) ==
      if ReadVarint(b, i, k).None? then None
      else Some((ReadVarint(b, i, k).value.0, n + ReadVarint(b, i, k).value.1))
    decreases |b| - i
  {
    if i < |b| && k < 9 && b[i] >= 128 {
      VarintShifts(c, n, b, i + 1, k + 1);
    }
  }

  lemma TagShifts(c: Bytes, n: nat, b: Bytes, i: nat)
    requires Tail(c, n, b) && i <= |b|
    ensures ReadTag(c, n + i) ==
      if ReadTag(b, i).None? then None else Some(ReadTag(b, i).value.(end := n + ReadTag(b, i).value.end))
  {
    VarintShifts(c, n, b, i, 0);
  }

  lemma BytesShifts(c: Bytes, n: nat, b: Bytes, i: nat)
    requires Tail(c, n, b) && i <= |b|
    ensures ReadBytes(c, n + i) ==
      if ReadBytes(b, i).None? then None else Some((ReadBytes(b, i).value.0, n + ReadBytes(b, i).value.1))
  {
    VarintShifts(c, n, b, i, 0);
    if ReadBytes(b, i).Some? {
      var v := ReadVarint(b, i, 0).value;
      assert c[n + v.1..n + v.1 + v.0] == b[v.1..v.1 + v.0];
    }
  }

  lemma {:induction false} SkipValueShifts(num: nat, typ: nat, c: Bytes, n: nat, b: Bytes, i: nat, depth: int)
    requires Tail(c, n, b) && i <= |b|
    ensures SkipValue(num, typ, c, n + i, depth) == Later(SkipValue(num, typ, b, i, depth), n)
    decreases |b| - i, 1
  {
    if typ == VARINT {
      VarintShifts(c, n, b, i, 0);
    } else if typ == BYTES {
      BytesShifts(c, n, b, i);
    } else if typ == START_GROUP && depth >= 0 {
      SkipGroupShifts(num, c, n, b, i, depth);
    }
  }

  lemma GroupStep(num: nat, b: Bytes, i: nat, depth: int, t: Tag, v: nat)
    requires i <= |b| && ReadTag(b, i) == Some(t) && t.typ != END_GROUP
    requires SkipValue(t.num, t.typ, b, t.end, depth - 1) == Some(v)
    ensures SkipGroup(num, b, i, depth) == SkipGroup(num, b, v, depth)
  {
  }

  lemma GroupEnds(num: nat, b: Bytes, i: nat, depth: int, t: Tag)
    requires i <= |b| && ReadTag(b, i) == Some(t) && t.typ == END_GROUP
    ensures SkipGroup(num, b, i, depth) == if t.num == num then Some(t.end) else None
  {
  }

  lemma {:induction false} SkipGroupShifts(num: nat, c: Bytes, n: nat, b: Bytes, i: nat, depth: int)
    requires Tail(c, n, b) && i <= |b|
    ensures SkipGroup(num, c, n + i, depth) == Later(SkipGroup(num, b, i, depth), n)
    decreases |b| - i, 0
  {
    TagShifts(c, n, b, i);
    if ReadTag(b, i).Some? && ReadTag(b, i).value.typ != END_GROUP {
      var t := ReadTag(b, i).value;
      SkipValueShifts(t.num, t.typ, c, n, b, t.end, depth - 1);
      var v := SkipValue(t.num, t.typ, b, t.end, depth - 1);
      if v.Some? {
        GroupStep(num, b, i, depth, t, v.value);
        GroupStep(num, c, n + i, depth, t.(end := n + t.end), n + v.value);
        SkipGroupShifts(num, c, n, b, v.value, depth);
      }
    }
  }

  // ---- any field ----

  datatype Field = Field(num: nat, value: Value)

  datatype Value =
    | Scalar(v: nat)
    | Eight(s: Bytes)
    | Four(s: Bytes)
    | Blob(s: Bytes)
    | Group(fields: seq<Field>)

  function TypeOf(v: Value): nat {
    match v
    case Scalar(_) => VARINT
    case Eight(_) => FIXED64
    case Four(_) => FIXED32
    case Blob(_) => BYTES
    case Group(_) => START_GROUP
  }

  /** A field a well-behaved writer can produce, with groups nested no deeper than the limit. */
  predicate Writable(f: Field, depth: int)
    decreases f, 0
  {
    && 1 <= f.num <= MAX_INT32
    && match f.value
       case Scalar(v) => v < TWO64
       case Eight(s) => |s| == 8
       case Four(s) => |s| == 4
       case Blob(s) => |s| < TWO64
       case Group(fields) => depth >= 0 && AllWritable(fields, depth - 1)
  }

  predicate AllWritable(fields: seq<Field>, depth: int)
    decreases fields, 0
  {
    fields == [] || (Writable(fields[0], depth) && AllWritable(fields[1..], depth))
  }

  function PutValue(f: Field): Bytes
    decreases f, 0
  {
    match f.value
    case Scalar(v) => PutVarint(v)
    case Eight(s) => s
    case Four(s) => s
    case Blob(s) => PutBytes(s)
    case Group(fields) => PutFields(fields) + PutTag(f.num, END_GROUP)
  }

  function PutFields(fields: seq<Field>): Bytes
    decreases fields, 0
  {
    if fields == [] then []
    else PutTag(fields[0].num, TypeOf(fields[0].value)) + (PutValue(fields[0]) + PutFields(fields[1..]))
  }

  lemma WrittenPlainIsSkipped(f: Field, b: Bytes, i: nat, depth: int)
    requires i <= |b| && Writable(f, depth) && At(b, i, PutValue(f)) && !f.value.Group?
    ensures SkipValue(f.num, TypeOf(f.value), b, i, depth) == Some(i + |PutValue(f)|)
  {
    match f.value
    case Scalar(v) =>
      LimitIs64Bits();
      VarintRoundTrip(v, 0, b, i);
    case Eight(s) => AtSlice(b, i, s);
    case Four(s) => AtSlice(b, i, s);
    case Blob(s) => BytesRoundTrip(s, b, i);
  }

  lemma {:induction false} WrittenIsSkipped(f: Field, b: Bytes, i: nat, depth: int)
    requires i <= |b| && Writable(f, depth) && At(b, i, PutValue(f))
    ensures SkipValue(f.num, TypeOf(f.value), b, i, depth) == Some(i + |PutValue(f)|)
    decreases f, 0
  {
    if f.value.Group? {
      WrittenGroupIsSkipped(f.num, f.value.fields, PutTag(f.num, END_GROUP), b, i, depth);
    } else {
      WrittenPlainIsSkipped(f, b, i, depth);
    }
  }

  lemma ThreeAt(b: Bytes, i: nat, tag: Bytes, value: Bytes, rest: Bytes)
    requires i <= |b| && At(b, i, tag + (value + rest))
    ensures At(b, i, tag) && At(b, i + |tag|, value) && At(b, i + |tag| + |value|, rest)
    ensures i + |tag| + |value| <= |b|
  {
    AtParts(b, i, tag, value + rest);
    AtParts(b, i + |tag|, value, rest);
    AtSlice(b, i, tag);
    AtSlice(b, i + |tag|, value);
  }

  /** Where the parts of a list of fields stand. */
  lemma FieldsAt(fields: seq<Field>, end: Bytes, b: Bytes, i: nat) returns (j: nat, k: nat)
    requires i <= |b| && fields != [] && At(b, i, PutFields(fields) + end)
    ensures var f := fields[0];
            && At(b, i, PutTag(f.num, TypeOf(f.value))) && j == i + |PutTag(f.num, TypeOf(f.value))|
            && At(b, j, PutValue(f)) && k == j + |PutValue(f)|
            && At(b, k, PutFields(fields[1..]) + end) && j <= k <= |b|
            && k + |PutFields(fields[1..]) + end| == i + |PutFields(fields) + end|
  {
    var f := fields[0];
    var tag, value, rest := PutTag(f.num, TypeOf(f.value)), PutValue(f), PutFields(fields[1..]);
    assert PutFields(fields) + end == tag + (value + (rest + end));
    ThreeAt(b, i, tag, value, rest + end);
    j, k := i + |tag|, i + |tag| + |value|;
  }

  lemma {:induction false} WrittenFieldIsSkipped(
      num: nat, fields: seq<Field>, end: Bytes, b: Bytes, i: nat, depth: int) returns (k: nat)
    requires i <= |b| && fields != [] && Writable(fields[0], depth - 1) && At(b, i, PutFields(fields) + end)
    ensures k <= |b| && SkipGroup(num, b, i, depth) == SkipGroup(num, b, k, depth)
    ensures At(b, k, PutFields(fields[1..]) + end)
    ensures k + |PutFields(fields[1..]) + end| == i + |PutFields(fields) + end|
    decreases fields, 0
  {
    var f := fields[0];
    var j;
    j, k := FieldsAt(fields, end, b, i);
    TagRoundTrip(f.num, TypeOf(f.value), b, i);
    WrittenIsSkipped(f, b, j, depth - 1);
    GroupStep(num, b, i, depth, Tag(f.num, TypeOf(f.value), j), k);
  }

  lemma {:induction false} WrittenGroupIsSkipped(
      num: nat, fields: seq<Field>, end: Bytes, b: Bytes, i: nat, depth: int)
    requires 1 <= num <= MAX_INT32 && AllWritable(fields, depth - 1) && end == PutTag(num, END_GROUP)
    requires i <= |b| && At(b, i, PutFields(fields) + end)
    ensures SkipGroup(num, b, i, depth) == Some(i + |PutFields(fields) + end|)
    decreases fields, 1
  {
    if fields == [] {
      assert PutFields(fields) + end == end;
      TagRoundTrip(num, END_GROUP, b, i);
      GroupEnds(num, b, i, depth, Tag(num, END_GROUP, i + |end|));
    } else {
      var k := WrittenFieldIsSkipped(num, fields, end, b, i, depth);
      WrittenGroupIsSkipped(num, fields[1..], end, b, k, depth);
    }
  }
}
