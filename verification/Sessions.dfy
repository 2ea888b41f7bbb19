/**
 The session table: the rows the node keeps for the on-chain sessions it
 serves, the lookups the code makes in it, and the usage arithmetic.

 A lookup by example skips the zero fields of the example, so a lookup with
 subscription 0 matches by address alone.
 */
module Sessions {

  import opened Basics

  /** The chain numbers sessions from 1; a request for 0 finds no session. */
  type SessionId = n: nat | 0 < n witness 1

  /** Base64 of the peer data, which no service accepts empty. */
  type Key = k: string | k != "" witness "k"

  datatype Row = Row(
    id: SessionId,
    subscription: nat,
    key: Key,
    address: string,
    created: int,
    available: int,
    download: int,
    upload: int,
    baseDownload: int,
    baseUpload: int)

  /** What this node process moved for the session since it was admitted. */
  function ServedBytes(r: Row): int {
    Int64(Int64(r.download - r.baseDownload) + Int64(r.upload - r.baseUpload))
  }

  /** A peer's counters as the service reports them: bytes since it was added. */
  datatype Reading = Reading(key: Key, upload: int, download: int)

  datatype Usage = Usage(upload: int, download: int, moved: bool)

  /** Session totals for a reading. Only the upload decides whether it moved. */
  function ReportedUsage(r: Row, reading: Reading): Usage {
    var upload := Int64(r.baseUpload + reading.upload);
    Usage(upload, Int64(r.baseDownload + reading.download), upload != r.upload)
  }

  /** The fields of a row that no pass ever changes. */
  predicate SameRow(a: Row, b: Row) {
    a == b.(upload := a.upload, download := a.download)
  }

  predicate SameRows(a: seq<Row>, b: seq<Row>) {
    |a| == |b| && forall i :: 0 <= i < |a| ==> SameRow(a[i], b[i])
  }

  ghost predicate UniqueIds(rows: seq<Row>) {
    forall i, j :: 0 <= i < j < |rows| ==> rows[i].id != rows[j].id
  }

  ghost predicate UniqueKeys(rows: seq<Row>) {
    forall i, j :: 0 <= i < j < |rows| ==> rows[i].key != rows[j].key
  }

  ghost predicate HasKey(rows: seq<Row>, key: Key) {
    exists i :: 0 <= i < |rows| && rows[i].key == key
  }

  ghost predicate HasId(rows: seq<Row>, id: SessionId) {
    exists i :: 0 <= i < |rows| && rows[i].id == id
  }

  /** A lookup example on (subscription, address); zero fields match anything. */
  predicate Matches(subscription: nat, address: string, r: Row) {
    && (subscription == 0 || r.subscription == subscription)
    && (address == "" || r.address == address)
  }

  function Find(rows: seq<Row>, subscription: nat, address: string): (found: seq<Row>)
    ensures forall r :: r in found <==> r in rows && Matches(subscription, address, r)
  {
    if rows == [] then [] else
      var rest := Find(rows[1..], subscription, address);
      if Matches(subscription, address, rows[0]) then [rows[0]] + rest else rest
  }

  /** Every matching row is found as often as it is there, in table order. */
  lemma {:induction false} FindInOrder(a: seq<Row>, b: seq<Row>, subscription: nat, address: string, r: Row)
    ensures Find(a + b, subscription, address) == Find(a, subscription, address) + Find(b, subscription, address)
    ensures Find([r], subscription, address) == if Matches(subscription, address, r) then [r] else []
  {
    if a == [] {
      assert a + b == b;
    } else {
      assert (a + b)[1..] == a[1..] + b;
      FindInOrder(a[1..], b, subscription, address, r);
    }
  }

  /** The first row with the key. */
  function Lookup(rows: seq<Row>, key: Key): (found: Option<nat>)
    ensures found.Some? ==> found.value < |rows| && rows[found.value].key == key
    ensures found.None? <==> !HasKey(rows, key)
  {
    if rows == [] then None
    else if rows[0].key == key then assert HasKey(rows, key); Some(0)
    else
      var rest := Lookup(rows[1..], key);
      assert rest.None? ==> !HasKey(rows, key);
      if rest.None? then None else Some(rest.value + 1)
  }

  predicate IdTaken(rows: seq<Row>, id: SessionId)
    ensures IdTaken(rows, id) <==> HasId(rows, id)
  {
    assert forall i :: 0 <= i < |rows| ==> rows[i] in rows;
    exists r :: r in rows && r.id == id
  }

  /** The table after deleting the session's row. */
  function Without(rows: seq<Row>, id: SessionId): (left: seq<Row>)
    ensures forall r :: r in left <==> r in rows && r.id != id
  {
    if rows == [] then [] else
      var rest := Without(rows[1..], id);
      if rows[0].id == id then rest else [rows[0]] + rest
  }

  /** Deleting a session takes out its row alone and keeps the others in order; without one it changes nothing. */
  lemma {:induction false} WithoutInOrder(a: seq<Row>, r: Row, b: seq<Row>)
    requires UniqueIds(a + [r] + b)
    ensures Without(a + [r] + b, r.id) == a + b && Without(a + b, r.id) == a + b
  {
    var rows := a + [r] + b;
    forall i | 0 <= i < |a| + |b| ensures (a + b)[i].id != r.id {
      assert (a + b)[i] == rows[if i < |a| then i else i + 1] && rows[|a|] == r;
    }
    WithoutNone(a + b, r.id);
    if a == [] {
      assert rows[1..] == b && a + b == b;
    } else {
      assert rows[1..] == a[1..] + [r] + b && (a + b)[1..] == a[1..] + b && rows[0] == a[0] == (a + b)[0];
      WithoutInOrder(a[1..], r, b);
    }
  }

  lemma {:induction false} WithoutNone(rows: seq<Row>, id: SessionId)
    requires forall i :: 0 <= i < |rows| ==> rows[i].id != id
    ensures Without(rows, id) == rows
  {
    if rows != [] { WithoutNone(rows[1..], id); }
  }

  lemma {:induction false} WithoutKeepsIds(rows: seq<Row>, id: SessionId)
    requires UniqueIds(rows)
    ensures UniqueIds(Without(rows, id))
  {
    if rows != [] {
      var rest := Without(rows[1..], id);
      WithoutKeepsIds(rows[1..], id);
      forall i | 0 <= i < |rest| ensures rest[i].id != rows[0].id {
        assert rest[i] in rest;
        var j :| 0 <= j < |rows[1..]| && rows[1..][j] == rest[i];
        assert rows[j + 1] == rest[i];
      }
    }
  }

  lemma {:induction false} WithoutKeepsKeys(rows: seq<Row>, id: SessionId)
    requires UniqueKeys(rows)
    ensures UniqueKeys(Without(rows, id))
  {
    if rows != [] {
      var rest := Without(rows[1..], id);
      WithoutKeepsKeys(rows[1..], id);
      forall i | 0 <= i < |rest| ensures rest[i].key != rows[0].key {
        assert rest[i] in rest;
        var j :| 0 <= j < |rows[1..]| && rows[1..][j] == rest[i];
        assert rows[j + 1] == rest[i];
      }
    }
  }

  function Keys(rows: seq<Row>): (keys: set<Key>)
    ensures forall k :: k in keys <==> HasKey(rows, k)
  {
    set r | r in rows :: r.key
  }

  /** Saturating conversion of a chain integer to a 64-bit column. */
  function ClampInt64(v: int): (r: int)
    ensures 0 <= r <= MAX_INT64
    ensures 0 <= v <= MAX_INT64 ==> r == v
    ensures v < 0 ==> r == 0
    ensures v > MAX_INT64 ==> r == MAX_INT64
  {
    if v < 0 then 0 else if v <= MAX_INT64 then v else MAX_INT64
  }

  lemma KeepsIdentity(a: seq<Row>, b: seq<Row>)
    requires SameRows(a, b)
    ensures UniqueIds(a) ==> UniqueIds(b)
    ensures UniqueKeys(a) ==> UniqueKeys(b)
    ensures forall k :: HasKey(a, k) <==> HasKey(b, k)
    ensures forall id :: HasId(a, id) <==> HasId(b, id)
  {
  }
}
