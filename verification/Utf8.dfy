/** UTF-8, as strict decoding and decoding with replacement read it. */
module Utf8 {
  import opened Prelude

  type Byte = x: int | 0 <= x < 256

  const REPLACEMENT: char := '\U{FFFD}'

  function EncodeChar(c: char): (b: seq<Byte>)
    ensures 1 <= |b| <= 4
  {
    var n := c as int;
    if n < 0x80 then [n]
    else if n < 0x800 then [0xC0 + n / 64, Last(n)]
    else if n < 0x1_0000 then [0xE0 + n / 64 / 64, Last(n / 64), Last(n)]
    else [0xF0 + n / 64 / 64 / 64, Last(n / 64 / 64), Last(n / 64), Last(n)]
  }

  /** A continuation byte with the last six bits of a number. */
  function Last(n: nat): Byte {
    0x80 + n % 64
  }

  function Encode(s: string): seq<Byte> {
    if s == "" then [] else EncodeChar(s[0]) + Encode(s[1..])
  }

  predicate Continues(b: Byte) {
    0x80 <= b < 0xC0
  }

  /** The second byte rules out overlong forms, surrogates and numbers beyond the last character. */
  predicate Follows(lead: Byte, b: Byte) {
    && (if lead == 0xE0 then 0xA0 <= b else if lead == 0xF0 then 0x90 <= b else 0x80 <= b)
    && (if lead == 0xED then b < 0xA0 else if lead == 0xF4 then b < 0x90 else b < 0xC0)
  }

  /** Six more bits of a number, taken from a continuation byte. */
  function Joined(high: int, b: int): int {
    high * 64 + (b - 0x80)
  }

  /** The first character, or nothing where it is malformed, and how many bytes that takes up. */
  function First(b: seq<Byte>): (r: (Option<char>, nat))
    requires b != []
    ensures 1 <= r.1 <= |b|
  {
    if b[0] < 0x80 then (Some(b[0] as char), 1)
    else if 0xC2 <= b[0] <= 0xDF then
      if |b| < 2 || !Continues(b[1]) then (None, 1)
      else (Some(Joined(b[0] - 0xC0, b[1]) as char), 2)
    else if 0xE0 <= b[0] <= 0xEF then
      if |b| < 2 || !Follows(b[0], b[1]) then (None, 1)
      else if |b| < 3 || !Continues(b[2]) then (None, 2)
      else (Some(Joined(Joined(b[0] - 0xE0, b[1]), b[2]) as char), 3)
    else if 0xF0 <= b[0] <= 0xF4 then
      if |b| < 2 || !Follows(b[0], b[1]) then (None, 1)
      else if |b| < 3 || !Continues(b[2]) then (None, 2)
      else if |b| < 4 || !Continues(b[3]) then (None, 3)
      else (Some(Joined(Joined(Joined(b[0] - 0xF0, b[1]), b[2]), b[3]) as char), 4)
    else (None, 1)
  }

  /** Strict decoding: nothing unless every character is well formed. */
  function Decode(b: seq<Byte>): Option<string> {
    if b == [] then Some("")
    else
      var (c, n) := First(b);
      var rest := Decode(b[n..]);
      if c.Some? && rest.Some? then Some([c.value] + rest.value) else None
  }

  /** Decoding that puts the replacement character for each malformed part. */
  function DecodeReplacing(b: seq<Byte>): string {
    if b == [] then ""
    else
      var (c, n) := First(b);
      [if c.Some? then c.value else REPLACEMENT] + DecodeReplacing(b[n..])
  }

  lemma JoinedLast(n: nat)
    ensures Joined(n / 64, Last(n)) == n && Continues(Last(n))
  {
  }

  lemma FirstOfChar(c: char, rest: seq<Byte>)
    ensures First(EncodeChar(c) + rest) == (Some(c), |EncodeChar(c)|)
  {
    var n := c as int;
    JoinedLast(n);
    if n >= 0x1_0000 {
      FirstOfLong(c, rest);
    } else if n >= 0x800 {
      JoinedLast(n / 64);
    }
  }

  lemma FirstOfLong(c: char, rest: seq<Byte>)
    requires c as int >= 0x1_0000
    ensures First(EncodeChar(c) + rest) == (Some(c), 4)
  {
    var n := c as int;
    JoinedLast(n);
    JoinedLast(n / 64);
    JoinedLast(n / 64 / 64);
  }

  /** Both decodings undo the encoding of any text. */
  lemma {:induction false} EncodingIsUndone(s: string)
    ensures Decode(Encode(s)) == Some(s) && DecodeReplacing(Encode(s)) == s
  {
    if s != "" {
      FirstOfChar(s[0], Encode(s[1..]));
      EncodingIsUndone(s[1..]);
      assert Encode(s)[|EncodeChar(s[0])|..] == Encode(s[1..]);
      assert [s[0]] + s[1..] == s;
    }
  }

  lemma Rejoin<T>(a: seq<T>, b: seq<T>, c: seq<T>)
    ensures a + (b + c) == a + b + c
  {
  }

  lemma {:induction false} EncodeJoins(a: string, b: string)
    ensures Encode(a + b) == Encode(a) + Encode(b)
  {
    if a == "" {
      assert a + b == b;
    } else {
      assert (a + b)[1..] == a[1..] + b && (a + b)[0] == a[0];
      EncodeJoins(a[1..], b);
      Rejoin(EncodeChar(a[0]), Encode(a[1..]), Encode(b));
    }
  }

  lemma EncodeOne(c: char)
    ensures Encode([c]) == EncodeChar(c)
  {
    assert Encode([c]) == EncodeChar(c) + Encode([]);
  }
}
