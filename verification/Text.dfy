/** Text as the programs handle it: cutting, splitting and hexadecimal. */
module Text {
  import opened Basics
  import opened Addresses

  /** The text before and after the first separator, and whether there is one. */
  function Cut(s: string, sep: char): (r: (string, string, bool))
    ensures r.2 ==> s == r.0 + [sep] + r.1
    ensures !r.2 ==> r.0 == s && r.1 == ""
    ensures sep !in r.0 && (r.2 <==> sep in s)
  {
    if s == "" then ("", "", false)
    else if s[0] == sep then ("", s[1..], true)
    else
      var r := Cut(s[1..], sep);
      ([s[0]] + r.0, r.1, r.2)
  }

  /** Cutting what was joined at its first separator gives the two pieces back. */
  lemma {:induction false} CutJoined(a: string, sep: char, b: string)
    requires sep !in a
    ensures Cut(a + [sep] + b, sep) == (a, b, true)
  {
    var s := a + [sep] + b;
    if a == "" {
      assert s[0] == sep && s[1..] == b;
    } else {
      assert s[0] == a[0] && s[1..] == a[1..] + [sep] + b && [a[0]] + a[1..] == a;
      CutJoined(a[1..], sep, b);
    }
  }

  lemma {:induction false} CutNone(a: string, sep: char)
    requires sep !in a
    ensures Cut(a, sep) == (a, "", false)
  {
  }

  /** The pieces between separators; one piece when there is none. */
  function Split(s: string, sep: char): (parts: seq<string>)
    ensures parts != []
    decreases |s|
  {
    var (before, after, found) := Cut(s, sep);
    if found then [before] + Split(after, sep) else [s]
  }

  function Joined(parts: seq<string>, sep: char): string
    requires parts != []
  {
    if |parts| == 1 then parts[0] else parts[0] + [sep] + Joined(parts[1..], sep)
  }

  lemma {:induction false} SplitJoined(parts: seq<string>, sep: char)
    requires parts != [] && forall p :: p in parts ==> sep !in p
    ensures Split(Joined(parts, sep), sep) == parts
  {
    assert parts[0] in parts;
    if |parts| == 1 {
      CutNone(parts[0], sep);
    } else {
      CutJoined(parts[0], sep, Joined(parts[1..], sep));
      SplitJoined(parts[1..], sep);
    }
  }

  lemma {:induction false} JoinedSplit(s: string, sep: char)
    ensures Joined(Split(s, sep), sep) == s
    ensures forall p :: p in Split(s, sep) ==> sep !in p
    decreases |s|
  {
    var (before, after, found) := Cut(s, sep);
    if found {
      JoinedSplit(after, sep);
      assert Split(s, sep)[1..] == Split(after, sep);
    }
  }

  // ---- hexadecimal ----

  type Nibble = n: nat | n < 16

  function HexDigit(n: Nibble): char { if n < 10 then (48 + n) as char else (87 + n) as char }

  /** A digit's value in either case. */
  function HexValue(c: char): Option<Nibble> {
    var x := c as int;
    if 48 <= x <= 57 then Some(x - 48)
    else if 97 <= x <= 102 then Some(x - 87)
    else if 65 <= x <= 70 then Some(x - 55)
    else None
  }

  function Lower(c: char): char { if 65 <= c as int <= 90 then (c as int + 32) as char else c }

  function LowerCase(s: string): (r: string)
    ensures |r| == |s| && forall i :: 0 <= i < |s| ==> r[i] == Lower(s[i])
  {
    seq(|s|, i requires 0 <= i < |s| => Lower(s[i]))
  }

  const DIGITS := "0123456789abcdef"
  const CAPITAL_DIGITS := "0123456789ABCDEF"

  /** Exactly the sixteen digits have a value, in either case, and it is their place. */
  lemma HexValues(c: char, n: Nibble)
    ensures HexValue(c) == Some(n) <==> c == DIGITS[n] || c == CAPITAL_DIGITS[n]
    ensures HexDigit(n) == DIGITS[n]
  {
    var small, large := DIGITS, CAPITAL_DIGITS;
    assert forall i: Nibble :: small[i] == (if i < 10 then 48 + i else 87 + i) as char;
    assert forall i: Nibble :: large[i] == (if i < 10 then 48 + i else 55 + i) as char;
  }

  const CAPITALS := "ABCDEFGHIJKLMNOPQRSTUVWXYZ"
  const LETTERS := "abcdefghijklmnopqrstuvwxyz"

  /** Lowering turns each capital letter into its small one and leaves everything else. */
  lemma LowerMeans(c: char, i: nat)
    requires i < 26
    ensures Lower(CAPITALS[i]) == LETTERS[i]
    ensures c !in CAPITALS ==> Lower(c) == c
  {
    var large, small := CAPITALS, LETTERS;
    assert forall j :: 0 <= j < 26 ==> large[j] == (65 + j) as char && small[j] == (97 + j) as char;
    assert 65 <= c as int <= 90 ==> large[c as int - 65] == c;
  }

  lemma DigitInverse(n: Nibble)
    ensures HexValue(HexDigit(n)) == Some(n)
  {
  }

  lemma ValueInverse(c: char)
    requires HexValue(c).Some?
    ensures HexDigit(HexValue(c).value) == Lower(c) && c != '-'
  {
  }

  function EncodeHex(bytes: seq<Byte>): (s: string)
    ensures |s| == 2 * |bytes|
  {
    if bytes == [] then "" else [HexDigit(bytes[0] / 16), HexDigit(bytes[0] % 16)] + EncodeHex(bytes[1..])
  }

  /** Nothing for an odd length or a character that is no digit. */
  function DecodeHex(s: string): (r: Option<seq<Byte>>)
    ensures r.Some? ==> |s| == 2 * |r.value|
  {
    if s == "" then Some([])
    else if |s| == 1 then None
    else
      var high, low, rest := HexValue(s[0]), HexValue(s[1]), DecodeHex(s[2..]);
      if high.None? || low.None? || rest.None? then None
      else Some([16 * high.value + low.value] + rest.value)
  }

  lemma {:induction false} HexRoundTrip(bytes: seq<Byte>)
    ensures DecodeHex(EncodeHex(bytes)) == Some(bytes)
  {
    if bytes != [] {
      var s := EncodeHex(bytes);
      assert s[2..] == EncodeHex(bytes[1..]);
      DigitInverse(bytes[0] / 16);
      DigitInverse(bytes[0] % 16);
      HexRoundTrip(bytes[1..]);
      assert 16 * (bytes[0] / 16) + bytes[0] % 16 == bytes[0] && [bytes[0]] + bytes[1..] == bytes;
    }
  }

  lemma {:induction false} HexUnique(s: string)
    requires DecodeHex(s).Some?
    ensures EncodeHex(DecodeHex(s).value) == LowerCase(s)
    decreases |s|
  {
    if s != "" {
      ValueInverse(s[0]);
      ValueInverse(s[1]);
      HexUnique(s[2..]);
      var bytes := DecodeHex(s).value;
      assert bytes[1..] == DecodeHex(s[2..]).value;
      assert EncodeHex(bytes) == [Lower(s[0]), Lower(s[1])] + LowerCase(s[2..]);
    }
  }

  predicate IsHex(s: string) { forall c :: c in s ==> HexValue(c).Some? && Lower(c) == c }

  lemma {:induction false} EncodedIsHex(bytes: seq<Byte>)
    ensures IsHex(EncodeHex(bytes))
  {
    if bytes != [] {
      EncodedIsHex(bytes[1..]);
      DigitInverse(bytes[0] / 16);
      DigitInverse(bytes[0] % 16);
    }
  }
}
