/**
 The encodings peers and clients exchange: the canonical text of a UUID, the
 static key file and the framing of a client's certificate and key.
 */
module Encodings {
  import opened Basics
  import opened Addresses
  import opened Text

  // ---- UUIDs ----

  const UUID_LEN := 16

  type Uuid = b: seq<Byte> | |b| == UUID_LEN witness [0, 0, 0, 0, 0, 0, 0, 0, 0, 0, 0, 0, 0, 0, 0, 0]

  function FormatUuid(id: Uuid): string {
    var h := EncodeHex(id);
    h[..8] + "-" + h[8..12] + "-" + h[12..16] + "-" + h[16..20] + "-" + h[20..]
  }

  function ParseUuid(s: string): Option<Uuid> {
    var parts := Split(s, '-');
    if |parts| != 5 || |parts[0]| != 8 || |parts[1]| != 4 || |parts[2]| != 4 || |parts[3]| != 4 || |parts[4]| != 12
    then None
    else DecodeHex(parts[0] + parts[1] + parts[2] + parts[3] + parts[4])
  }

  /** Five pieces of the text of a UUID, put together. */
  function Dashed(p: seq<string>): string
    requires |p| == 5
  {
    p[0] + "-" + p[1] + "-" + p[2] + "-" + p[3] + "-" + p[4]
  }

  lemma DashedIsJoined(p: seq<string>)
    requires |p| == 5
    ensures Dashed(p) == Joined(p, '-')
  {
    assert p[1..][1..] == p[2..] && p[2..][1..] == p[3..] && p[3..][1..] == p[4..];
    assert Joined(p[4..], '-') == p[4];
    assert Joined(p[3..], '-') == p[3] + "-" + p[4];
    assert Joined(p[2..], '-') == p[2] + "-" + Joined(p[3..], '-');
    assert Joined(p[1..], '-') == p[1] + "-" + Joined(p[2..], '-');
    assert Dashed(p) == p[0] + "-" + Joined(p[1..], '-');
  }

  function Pieces(h: string): (p: seq<string>)
    requires |h| == 32
    ensures |p| == 5 && p[0] + p[1] + p[2] + p[3] + p[4] == h
  {
    [h[..8], h[8..12], h[12..16], h[16..20], h[20..]]
  }

  lemma ParseFormat(id: Uuid)
    ensures ParseUuid(FormatUuid(id)) == Some(id)
  {
    var h := EncodeHex(id);
    EncodedIsHex(id);
    var p := Pieces(h);
    DashedIsJoined(p);
    forall x | x in p ensures '-' !in x {
      assert forall c :: c in x ==> c in h;
    }
    SplitJoined(p, '-');
    HexRoundTrip(id);
  }

  /** A UUID is written in one way up to the case of its digits. */
  lemma FormatParse(s: string)
    requires ParseUuid(s).Some?
    ensures FormatUuid(ParseUuid(s).value) == LowerCase(s)
  {
    var p := Split(s, '-');
    JoinedSplit(s, '-');
    DashedIsJoined(p);
    var h := p[0] + p[1] + p[2] + p[3] + p[4];
    HexUnique(h);
    LowerPieces(p, h);
  }

  lemma LowerPieces(p: seq<string>, h: string)
    requires |p| == 5 && |p[0]| == 8 && |p[1]| == 4 && |p[2]| == 4 && |p[3]| == 4 && |p[4]| == 12
    requires h == p[0] + p[1] + p[2] + p[3] + p[4]
    ensures LowerCase(Dashed(p)) == Dashed(Pieces(LowerCase(h)))
  {
  }

  lemma FormatInjective(a: Uuid, b: Uuid)
    requires FormatUuid(a) == FormatUuid(b)
    ensures a == b
  {
    ParseFormat(a);
    ParseFormat(b);
  }

  // ---- certificate and key ----

  const TWO32 := 0x1_0000_0000

  /** A 32-bit length, big end first. */
  function BigEndian(n: nat): (b: seq<Byte>)
    ensures |b| == 4
  {
    var a: nat := n / 256;
    var b: nat := a / 256;
    var c: nat := b / 256;
    [c % 256, b % 256, a % 256, n % 256]
  }

  function FromBigEndian(b: seq<Byte>): nat
    requires |b| == 4
  {
    var w: nat, x: nat, y: nat, z: nat := b[0], b[1], b[2], b[3];
    256 * (256 * (256 * w + x) + y) + z
  }

  /** What adding a peer returns: the certificate's length, the certificate, the key. */
  function Frame(cert: seq<Byte>, key: seq<Byte>): seq<Byte> { BigEndian(|cert|) + cert + key }

  function Unframe(result: seq<Byte>): Option<(seq<Byte>, seq<Byte>)> {
    if |result| < 4 then None
    else
      var n := FromBigEndian(result[..4]);
      if n == 0 || 4 + n > |result| then None else Some((result[4..4 + n], result[4 + n..]))
  }

  /** The client gets its certificate and key back exactly when the certificate's length is from 1 to 2^32 - 1. */
  lemma FrameRoundTrip(cert: seq<Byte>, key: seq<Byte>)
    ensures Unframe(Frame(cert, key)) == Some((cert, key)) <==> 0 < |cert| < TWO32
  {
  }

  lemma BigEndianInverse(b: seq<Byte>)
    requires |b| == 4
    ensures BigEndian(FromBigEndian(b)) == b
  {
    var w: nat, x: nat, y: nat, z: nat := b[0], b[1], b[2], b[3];
    DividesOut(256 * (256 * w + x) + y, z);
    DividesOut(256 * w + x, y);
    DividesOut(w, x);
  }

  lemma DividesOut(q: nat, r: nat)
    requires r < 256
    ensures (256 * q + r) / 256 == q && (256 * q + r) % 256 == r
  {
  }

  /** Exactly the framed results are taken apart, into what was framed. */
  lemma UnframeIff(result: seq<Byte>, cert: seq<Byte>, key: seq<Byte>)
    ensures Unframe(result) == Some((cert, key)) <==> 0 < |cert| < TWO32 && result == Frame(cert, key)
  {
    FrameRoundTrip(cert, key);
    if Unframe(result) == Some((cert, key)) {
      BigEndianInverse(result[..4]);
      assert result == result[..4] + cert + key;
    }
  }

  // ---- the static key file ----

  const KEY_LEN := 256
  const LINE := 32
  const BLANK := "#"
  const TITLE := "# 2048 bit OpenVPN static key"
  const BEGIN := "-----BEGIN OpenVPN Static key V1-----"
  const END := "-----END OpenVPN Static key V1-----"

  predicate Space(c: char) { c == ' ' || 9 <= c as int <= 13 || c as int == 0x85 || c as int == 0xa0 }

  function TrimLeft(s: string): string { if s != "" && Space(s[0]) then TrimLeft(s[1..]) else s }

  function TrimRight(s: string): string {
    if s != "" && Space(s[|s| - 1]) then TrimRight(s[..|s| - 1]) else s
  }

  function Trim(s: string): string { TrimRight(TrimLeft(s)) }

  /** The text in lines of 32 characters. */
  function Chunks(h: string): seq<string>
    requires |h| % LINE == 0
  {
    if h == "" then [] else [h[..LINE]] + Chunks(h[LINE..])
  }

  function KeyLines(key: seq<Byte>): seq<string>
    requires |key| % UUID_LEN == 0
  {
    [BLANK, TITLE, BLANK, BEGIN] + Chunks(EncodeHex(key)) + [END, ""]
  }

  function KeyFile(key: seq<Byte>): string
    requires |key| % UUID_LEN == 0
  {
    Joined(KeyLines(key), '\n')
  }

  /** The digits between the markers, without blank lines and comments. */
  function Gather(lines: seq<string>, inside: bool): string {
    if lines == [] then ""
    else
      var line := Trim(lines[0]);
      if "-----BEGIN" <= line then Gather(lines[1..], true)
      else if "-----END" <= line then Gather(lines[1..], false)
      else (if inside && line != "" && !("#" <= line) then line else "") + Gather(lines[1..], inside)
  }

  function KeyOf(digits: string): Option<seq<Byte>> {
    var key := DecodeHex(digits);
    if key.None? || |key.value| != KEY_LEN then None else key
  }

  function ParseKeyFile(data: string): Option<seq<Byte>> { KeyOf(Gather(Split(data, '\n'), false)) }

  lemma TrimClean(line: string)
    requires line == "" || (!Space(line[0]) && !Space(line[|line| - 1]))
    ensures Trim(line) == line
  {
  }

  const BLANKS := " \t\n\U{0B}\U{0C}\r\U{85}\U{A0}"

  lemma BlanksAreSpace(c: char)
    ensures c in BLANKS <==> Space(c)
  {
    var all := BLANKS;
    assert all[0] == ' ' && all[1] == 9 as char && all[2] == 10 as char && all[3] == 11 as char;
    assert all[4] == 12 as char && all[5] == 13 as char && all[6] == 0x85 as char && all[7] == 0xa0 as char;
  }

  lemma {:induction false} TrimBehind(line: string, b: string)
    requires (line == "" || !Space(line[|line| - 1])) && forall c :: c in b ==> Space(c)
    ensures TrimRight(line + b) == line
  {
    if b == "" {
      assert line + b == line;
    } else {
      assert b[|b| - 1] in b;
      assert (line + b)[..|line + b| - 1] == line + b[..|b| - 1];
      TrimBehind(line, b[..|b| - 1]);
    }
  }

  lemma {:induction false} TrimBefore(a: string, rest: string)
    requires (rest == "" || !Space(rest[0])) && forall c :: c in a ==> Space(c)
    ensures TrimLeft(a + rest) == rest
  {
    if a == "" {
      assert a + rest == rest;
    } else {
      assert a[0] in a;
      assert (a + rest)[1..] == a[1..] + rest;
      TrimBefore(a[1..], rest);
    }
  }

  /** Blanks around a line do not matter. */
  lemma TrimPadded(a: string, line: string, b: string)
    requires line != "" && line[0] !in BLANKS && line[|line| - 1] !in BLANKS
    requires forall c :: c in a + b ==> c in BLANKS
    ensures Trim(a + (line + b)) == line
  {
    BlanksAreSpace(line[0]);
    BlanksAreSpace(line[|line| - 1]);
    forall c | c in a || c in b ensures Space(c) {
      assert c in a + b;
      BlanksAreSpace(c);
    }
    assert (line + b)[0] == line[0];
    TrimBefore(a, line + b);
    TrimBehind(line, b);
  }

  /** A file is read as a key of 256 bytes or not at all. */
  lemma KeyLength(data: string)
    ensures ParseKeyFile(data).Some? ==> |ParseKeyFile(data).value| == 256
  {
  }

  /** A line of digits as it is, with no mark or comment. */
  predicate Plain(line: string) {
    line != "" && line[0] != '-' && line[0] != '#' && Trim(line) == line && '\n' !in line
  }

  lemma HexLine(line: string)
    requires line != "" && IsHex(line)
    ensures Plain(line)
  {
    assert line[0] in line && line[|line| - 1] in line;
    TrimClean(line);
  }

  lemma GatherPlain(line: string, rest: seq<string>)
    requires Plain(line)
    ensures Gather([line] + rest, true) == line + Gather(rest, true)
  {
  }

  function Concat(lines: seq<string>): string { if lines == [] then "" else lines[0] + Concat(lines[1..]) }

  lemma {:induction false} GatherLines(lines: seq<string>, rest: seq<string>)
    requires forall l :: l in lines ==> Plain(l)
    ensures Gather(lines + rest, true) == Concat(lines) + Gather(rest, true)
  {
    if lines == [] {
      assert lines + rest == rest;
    } else {
      assert lines[0] in lines;
      assert lines + rest == [lines[0]] + (lines[1..] + rest);
      GatherPlain(lines[0], lines[1..] + rest);
      GatherLines(lines[1..], rest);
    }
  }

  lemma {:induction false} ChunksWhole(h: string)
    requires |h| % LINE == 0
    ensures Concat(Chunks(h)) == h
    decreases |h|
  {
    if h != "" {
      ChunksWhole(h[LINE..]);
      assert Chunks(h)[1..] == Chunks(h[LINE..]) && h[..LINE] + h[LINE..] == h;
    }
  }

  lemma {:induction false} ChunksPlain(h: string)
    requires |h| % LINE == 0 && IsHex(h)
    ensures forall l :: l in Chunks(h) ==> Plain(l)
    decreases |h|
  {
    if h != "" {
      HexLine(h[..LINE]);
      ChunksPlain(h[LINE..]);
    }
  }

  lemma GatherComment(line: string, rest: seq<string>)
    requires "#" <= line && !Space(line[|line| - 1])
    ensures Gather([line] + rest, false) == Gather(rest, false)
  {
  }

  lemma GatherMark(line: string, rest: seq<string>, inside: bool)
    requires "-----BEGIN" <= line || "-----END" <= line
    requires !Space(line[|line| - 1])
    ensures Gather([line] + rest, inside) == Gather(rest, "-----BEGIN" <= line)
  {
  }

  lemma GatherHeader(a: string, b: string, c: string, d: string, rest: seq<string>)
    requires "#" <= a && "#" <= b && "#" <= c && "-----BEGIN" <= d
    requires !Space(a[|a| - 1]) && !Space(b[|b| - 1]) && !Space(c[|c| - 1]) && !Space(d[|d| - 1])
    ensures Gather([a, b, c, d] + rest, false) == Gather(rest, true)
  {
    assert [a, b, c, d] + rest == [a] + ([b] + ([c] + ([d] + rest)));
    GatherComment(a, [b] + ([c] + ([d] + rest)));
    GatherComment(b, [c] + ([d] + rest));
    GatherComment(c, [d] + rest);
    GatherMark(d, rest, false);
  }

  lemma GatherFooter(line: string)
    requires "-----END" <= line && !Space(line[|line| - 1])
    ensures Gather([line, ""], true) == ""
  {
    assert [line, ""] == [line] + [""];
    GatherMark(line, [""], true);
    assert Trim("") == "";
  }

  /** Comments and marks around plain lines leave their text. */
  lemma GatherFile(a: string, b: string, c: string, d: string, lines: seq<string>, e: string)
    requires "#" <= a && "#" <= b && "#" <= c && "-----BEGIN" <= d && "-----END" <= e
    requires !Space(a[|a| - 1]) && !Space(b[|b| - 1]) && !Space(c[|c| - 1])
    requires !Space(d[|d| - 1]) && !Space(e[|e| - 1])
    requires forall l :: l in lines ==> Plain(l)
    ensures Gather([a, b, c, d] + lines + [e, ""], false) == Concat(lines)
  {
    assert [a, b, c, d] + lines + [e, ""] == [a, b, c, d] + (lines + [e, ""]);
    GatherHeader(a, b, c, d, lines + [e, ""]);
    GatherLines(lines, [e, ""]);
    GatherFooter(e);
    assert Concat(lines) + "" == Concat(lines);
  }

  predicate Comment(line: string) { "#" <= line && !Space(line[|line| - 1]) && '\n' !in line }

  predicate Mark(mark: string, line: string) {
    mark <= line && line != "" && !Space(line[|line| - 1]) && '\n' !in line
  }

  /** The digits of a key between a header and a footer. */
  lemma DigitsBack(a: string, b: string, c: string, d: string, e: string, h: string)
    requires Comment(a) && Comment(b) && Comment(c) && Mark("-----BEGIN", d) && Mark("-----END", e)
    requires |h| % LINE == 0 && IsHex(h)
    ensures Gather([a, b, c, d] + Chunks(h) + [e, ""], false) == h
    ensures forall l :: l in Chunks(h) ==> '\n' !in l
  {
    ChunksPlain(h);
    GatherFile(a, b, c, d, Chunks(h), e);
    ChunksWhole(h);
  }

  lemma NoBreaks(a: string, b: string, c: string, d: string, lines: seq<string>, e: string)
    requires '\n' !in a && '\n' !in b && '\n' !in c && '\n' !in d && '\n' !in e
    requires forall l :: l in lines ==> '\n' !in l
    ensures forall l :: l in [a, b, c, d] + lines + [e, ""] ==> '\n' !in l
  {
  }

  lemma FileRoundTrip(a: string, b: string, c: string, d: string, e: string, key: seq<Byte>)
    requires Comment(a) && Comment(b) && Comment(c) && Mark("-----BEGIN", d) && Mark("-----END", e)
    requires |key| == KEY_LEN
    ensures ParseKeyFile(Joined([a, b, c, d] + Chunks(EncodeHex(key)) + [e, ""], '\n')) == Some(key)
  {
    var h := EncodeHex(key);
    EncodedIsHex(key);
    DigitsBack(a, b, c, d, e, h);
    NoBreaks(a, b, c, d, Chunks(h), e);
    SplitJoined([a, b, c, d] + Chunks(h) + [e, ""], '\n');
    HexRoundTrip(key);
  }

  lemma HeaderIsClean()
    ensures Comment(BLANK) && Comment(TITLE)
  {
  }

  lemma BeginIsClean()
    ensures Mark("-----BEGIN", BEGIN)
  {
  }

  lemma EndIsClean()
    ensures Mark("-----END", END)
  {
  }

  /** A written key file reads back as the key. */
  lemma KeyFileRoundTrip(key: seq<Byte>)
    requires |key| == KEY_LEN
    ensures ParseKeyFile(KeyFile(key)) == Some(key)
  {
    HeaderIsClean();
    BeginIsClean();
    EndIsClean();
    FileRoundTrip(BLANK, TITLE, BLANK, BEGIN, END, key);
  }

  /** The lines of digits, one after the other. */
  method WriteDigits(h: string) returns (lines: seq<string>)
    requires |h| % LINE == 0
    ensures lines == Chunks(h)
  {
    lines := [];
    var i := 0;
    assert h[0..] == h;
    while i < |h|
      invariant 0 <= i <= |h| && i % LINE == 0
      invariant lines + Chunks(h[i..]) == Chunks(h)
    {
      NextChunk(h, i);
      lines := lines + [h[i..i + LINE]];
      i := i + LINE;
    }
    assert h[i..] == "";
  }

  /** Writes the key file, each line ended by a line break. */
  method WriteKeyFile(key: seq<Byte>) returns (text: string)
    requires |key| % UUID_LEN == 0
    ensures text == KeyFile(key)
  {
    var lines := WriteDigits(EncodeHex(key));
    text := Joined([BLANK, TITLE, BLANK, BEGIN] + lines + [END, ""], '\n');
  }

  lemma NextChunk(h: string, i: nat)
    requires i < |h| && |h| % LINE == 0 && i % LINE == 0
    ensures i + LINE <= |h| && Chunks(h[i..]) == [h[i..i + LINE]] + Chunks(h[i + LINE..])
  {
    assert h[i..][..LINE] == h[i..i + LINE] && h[i..][LINE..] == h[i + LINE..];
  }

  lemma GatherUnroll(lines: seq<string>, i: nat, inside: bool)
    requires i < |lines|
    ensures var line := Trim(lines[i]);
            Gather(lines[i..], inside) ==
            if "-----BEGIN" <= line then Gather(lines[i + 1..], true)
            else if "-----END" <= line then Gather(lines[i + 1..], false)
            else (if inside && line != "" && !("#" <= line) then line else "") + Gather(lines[i + 1..], inside)
  {
  }

  /** Reads a key file line by line, keeping whether it is between the marks. */
  method ReadKeyFile(data: string) returns (key: Option<seq<Byte>>)
    ensures key == ParseKeyFile(data)
  {
    var lines := Split(data, '\n');
    var h, inside := "", false;
    Regroup("", "", Gather(lines, false));
    assert lines[0..] == lines;
    for i := 0 to |lines|
      invariant h + Gather(lines[i..], inside) == Gather(lines, false)
    {
      var line := Trim(lines[i]);
      GatherUnroll(lines, i, inside);
      Regroup(h, line, Gather(lines[i + 1..], inside));
      Regroup(h, "", Gather(lines[i + 1..], inside));
      if "-----BEGIN" <= line {
        inside := true;
      } else if "-----END" <= line {
        inside := false;
      } else if inside && line != "" && !("#" <= line) {
        h := h + line;
      }
    }
    assert lines[|lines|..] == [] && h + "" == h;
    key := KeyOf(h);
  }
}
