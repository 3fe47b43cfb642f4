/** Base64 (section 5 of RFC 4648 and the older alphabet of its section 4), read leniently as to alphabet and padding. */
module Base64 {
  import opened Prelude
  import opened Utf8

  function Digit(n: int, urlSafe: bool): char
    requires 0 <= n < 64
  {
    if n < 26 then 'A' + n as char
    else if n < 52 then 'a' + (n - 26) as char
    else if n < 62 then '0' + (n - 52) as char
    else if n == 62 then if urlSafe then '-' else '+'
    else if urlSafe then '_' else '/'
  }

  /** The value of a digit of either alphabet. */
  function Value(c: char): (v: Option<int>)
    ensures v.Some? ==> 0 <= v.value < 64
  {
    if 'A' <= c <= 'Z' then Some(c as int - 'A' as int)
    else if 'a' <= c <= 'z' then Some(c as int - 'a' as int + 26)
    else if '0' <= c <= '9' then Some(c as int - '0' as int + 52)
    else if c == '-' || c == '+' then Some(62)
    else if c == '_' || c == '/' then Some(63)
    else None
  }

  /** The digits of three bytes. */
  function Group(b0: Byte, b1: Byte, b2: Byte, urlSafe: bool): (s: string)
    ensures |s| == 4
  {
    [Digit(b0 / 4, urlSafe), Digit(b0 % 4 * 16 + b1 / 16, urlSafe), Digit(b1 % 16 * 4 + b2 / 64, urlSafe), Digit(b2 % 64, urlSafe)]
  }

  function Print(b: seq<Byte>, urlSafe: bool, padded: bool): string {
    if b == [] then ""
    else if |b| == 1 then
      [Digit(b[0] / 4, urlSafe), Digit(b[0] % 4 * 16, urlSafe)] + if padded then "==" else ""
    else if |b| == 2 then
      [Digit(b[0] / 4, urlSafe), Digit(b[0] % 4 * 16 + b[1] / 16, urlSafe), Digit(b[1] % 16 * 4, urlSafe)] + if padded then "=" else ""
    else
      Group(b[0], b[1], b[2], urlSafe) + Print(b[3..], urlSafe, padded)
  }

  function Padding(length: nat): (p: string)
    ensures |p| < 4 && (length + |p|) % 4 == 0 && forall c :: c in p ==> c == '='
  {
    if length % 4 == 0 then "" else if length % 4 == 1 then "===" else if length % 4 == 2 then "==" else "="
  }

  /** The bytes of four digits. */
  function Bytes(v0: int, v1: int, v2: int, v3: int): seq<Byte>
    requires 0 <= v0 < 64 && 0 <= v1 < 64 && 0 <= v2 < 64 && 0 <= v3 < 64
  {
    [v0 * 4 + v1 / 16, v1 % 16 * 16 + v2 / 4, v2 % 4 * 64 + v3]
  }

  /** Reads groups of four digits; only the last group may be padded, and by no more than two signs. */
  function ReadPadded(s: string): Option<seq<Byte>> {
    if s == "" then Some([])
    else if |s| < 4 then None
    else
      var v0, v1, v2, v3 := Value(s[0]), Value(s[1]), Value(s[2]), Value(s[3]);
      if v0.None? || v1.None? then None
      else if |s| == 4 && s[2] == '=' && s[3] == '=' then Some([v0.value * 4 + v1.value / 16])
      else if v2.None? then None
      else if |s| == 4 && s[3] == '=' then Some([v0.value * 4 + v1.value / 16, v1.value % 16 * 16 + v2.value / 4])
      else if v3.None? then None
      else
        var rest := ReadPadded(s[4..]);
        if rest.None? then None
        else Some(Bytes(v0.value, v1.value, v2.value, v3.value) + rest.value)
  }

  /** Reads digits, with the padding that is missing put on first. */
  function Read(s: string): Option<seq<Byte>> {
    ReadPadded(s + Padding(|s|))
  }

  lemma ValueOfDigit(n: int, urlSafe: bool)
    requires 0 <= n < 64
    ensures Value(Digit(n, urlSafe)) == Some(n) && Digit(n, urlSafe) != '='
  {
  }

  lemma ReadDigits(s: string, tail: string, v0: int, v1: int, v2: int, v3: int)
    requires |s| == 4 && Value(s[0]) == Some(v0) && Value(s[1]) == Some(v1) && Value(s[2]) == Some(v2) && Value(s[3]) == Some(v3)
    ensures ReadPadded(s + tail) == if ReadPadded(tail).None? then None else Some(Bytes(v0, v1, v2, v3) + ReadPadded(tail).value)
  {
    assert (s + tail)[4..] == tail;
  }

  /** Two values below 4 and 16, or 16 and 4, that were put into one digit are taken out of it again. */
  lemma SplitDigit(high: nat, low: nat, n: nat)
    requires n == 16 || n == 4
    requires low < n
    ensures (high * n + low) / n == high && (high * n + low) % n == low
  {
  }

  lemma BytesOfDigits(b0: Byte, b1: Byte, b2: Byte)
    ensures Bytes(b0 / 4, b0 % 4 * 16 + b1 / 16, b1 % 16 * 4 + b2 / 64, b2 % 64) == [b0, b1, b2]
  {
    SplitDigit(b0 % 4, b1 / 16, 16);
    SplitDigit(b1 % 16, b2 / 64, 4);
  }

  lemma ReadGroup(tail: string, b0: Byte, b1: Byte, b2: Byte, urlSafe: bool)
    ensures ReadPadded(Group(b0, b1, b2, urlSafe) + tail) == if ReadPadded(tail).None? then None else Some([b0, b1, b2] + ReadPadded(tail).value)
  {
    var v0, v1, v2, v3 := b0 / 4, b0 % 4 * 16 + b1 / 16, b1 % 16 * 4 + b2 / 64, b2 % 64;
    ValueOfDigit(v0, urlSafe);
    ValueOfDigit(v1, urlSafe);
    ValueOfDigit(v2, urlSafe);
    ValueOfDigit(v3, urlSafe);
    ReadDigits(Group(b0, b1, b2, urlSafe), tail, v0, v1, v2, v3);
    BytesOfDigits(b0, b1, b2);
  }

  lemma ReadThreeDigits(s: string, v0: int, v1: int, v2: int)
    requires |s| == 4 && Value(s[0]) == Some(v0) && Value(s[1]) == Some(v1) && Value(s[2]) == Some(v2) && s[3] == '='
    ensures ReadPadded(s) == Some([v0 * 4 + v1 / 16, v1 % 16 * 16 + v2 / 4])
  {
  }

  lemma TwoBytesOfDigits(b0: Byte, b1: Byte)
    ensures var v0, v1, v2 := b0 / 4, b0 % 4 * 16 + b1 / 16, b1 % 16 * 4;
      v0 * 4 + v1 / 16 == b0 && v1 % 16 * 16 + v2 / 4 == b1
  {
  }

  lemma ReadLastTwo(s: string, b0: Byte, b1: Byte, urlSafe: bool)
    requires s == [Digit(b0 / 4, urlSafe), Digit(b0 % 4 * 16 + b1 / 16, urlSafe), Digit(b1 % 16 * 4, urlSafe), '=']
    ensures ReadPadded(s) == Some([b0, b1])
  {
    var v0, v1, v2 := b0 / 4, b0 % 4 * 16 + b1 / 16, b1 % 16 * 4;
    ValueOfDigit(v0, urlSafe);
    ValueOfDigit(v1, urlSafe);
    ValueOfDigit(v2, urlSafe);
    ReadThreeDigits(s, v0, v1, v2);
    TwoBytesOfDigits(b0, b1);
  }

  lemma ReadLastOne(s: string, b0: Byte, urlSafe: bool)
    requires s == [Digit(b0 / 4, urlSafe), Digit(b0 % 4 * 16, urlSafe), '=', '=']
    ensures ReadPadded(s) == Some([b0])
  {
    ValueOfDigit(b0 / 4, urlSafe);
    ValueOfDigit(b0 % 4 * 16, urlSafe);
  }

  /** A printed text is read back, whatever alphabet it was printed in and whether or not it was padded. */
  lemma {:induction false} PrintedIsRead(b: seq<Byte>, urlSafe: bool, padded: bool)
    ensures Read(Print(b, urlSafe, padded)) == Some(b)
    decreases |b|
  {
    var s := Print(b, urlSafe, padded);
    if |b| < 3 {
      LastIsRead(b, urlSafe, padded);
    } else {
      var tail := Print(b[3..], urlSafe, padded);
      PrintedIsRead(b[3..], urlSafe, padded);
      GroupIsRead(b, tail, urlSafe);
      assert s == Group(b[0], b[1], b[2], urlSafe) + tail;
    }
  }

  lemma GroupIsRead(b: seq<Byte>, tail: string, urlSafe: bool)
    requires |b| >= 3 && Read(tail) == Some(b[3..])
    ensures Read(Group(b[0], b[1], b[2], urlSafe) + tail) == Some(b)
  {
    ReadGroup(tail + Padding(|tail|), b[0], b[1], b[2], urlSafe);
    PaddedAfter(Group(b[0], b[1], b[2], urlSafe), tail);
    assert [b[0], b[1], b[2]] + b[3..] == b;
  }

  /** A whole group in front does not change the padding. */
  lemma PaddedAfter(group: string, tail: string)
    requires |group| == 4
    ensures group + tail + Padding(|group + tail|) == group + (tail + Padding(|tail|))
  {
    assert |group + tail| % 4 == |tail| % 4;
    Rejoin(group, tail, Padding(|tail|));
  }

  lemma LastIsRead(b: seq<Byte>, urlSafe: bool, padded: bool)
    requires |b| < 3
    ensures Read(Print(b, urlSafe, padded)) == Some(b)
  {
    var s := Print(b, urlSafe, padded);
    if |b| == 1 {
      ReadLastOne(s + Padding(|s|), b[0], urlSafe);
      assert b == [b[0]];
    } else if |b| == 2 {
      ReadLastTwo(s + Padding(|s|), b[0], b[1], urlSafe);
      assert b == [b[0], b[1]];
    }
  }

  predicate IsDigit(c: char) {
    Value(c).Some? || c == '='
  }

  lemma GroupDigits(b0: Byte, b1: Byte, b2: Byte, urlSafe: bool)
    ensures forall c :: c in Group(b0, b1, b2, urlSafe) ==> IsDigit(c)
  {
    ValueOfDigit(b0 / 4, urlSafe);
    ValueOfDigit(b0 % 4 * 16 + b1 / 16, urlSafe);
    ValueOfDigit(b1 % 16 * 4 + b2 / 64, urlSafe);
    ValueOfDigit(b2 % 64, urlSafe);
  }

  lemma {:induction false} PrintedDigits(b: seq<Byte>, urlSafe: bool, padded: bool)
    ensures forall c :: c in Print(b, urlSafe, padded) ==> IsDigit(c)
    decreases |b|
  {
    if |b| >= 3 {
      PrintedDigits(b[3..], urlSafe, padded);
      GroupDigits(b[0], b[1], b[2], urlSafe);
    } else if |b| == 2 {
      ValueOfDigit(b[0] / 4, urlSafe);
      ValueOfDigit(b[0] % 4 * 16 + b[1] / 16, urlSafe);
      ValueOfDigit(b[1] % 16 * 4, urlSafe);
    } else if |b| == 1 {
      ValueOfDigit(b[0] / 4, urlSafe);
      ValueOfDigit(b[0] % 4 * 16, urlSafe);
    }
  }
}
