/** Percent-encoding (section 2.1 of RFC 3986) and its decoding. */
module Percent {
  import opened Prelude
  import opened Utf8

  function HexValue(c: char): (v: Option<int>)
    ensures v.Some? ==> 0 <= v.value < 16
  {
    if '0' <= c <= '9' then Some(c as int - '0' as int)
    else if 'A' <= c <= 'F' then Some(c as int - 'A' as int + 10)
    else if 'a' <= c <= 'f' then Some(c as int - 'a' as int + 10)
    else None
  }

  function HexDigit(n: int, upper: bool): char
    requires 0 <= n < 16
  {
    if n < 10 then '0' + n as char else if upper then 'A' + (n - 10) as char else 'a' + (n - 10) as char
  }

  predicate IsEscape(s: string) {
    |s| >= 3 && s[0] == '%' && HexValue(s[1]).Some? && HexValue(s[2]).Some?
  }

  /**
   * Decodes a text. The bytes of each stretch of ASCII characters, escapes among them, are decoded together;
   * the pending ones are those of the stretch that the rest continues.
   */
  function UnquoteFrom(s: string, pending: seq<Byte>): string
    decreases |s|
  {
    if s == "" then DecodeReplacing(pending)
    else if s[0] as int >= 0x80 then DecodeReplacing(pending) + [s[0]] + UnquoteFrom(s[1..], [])
    else if IsEscape(s) then UnquoteFrom(s[3..], pending + [HexValue(s[1]).value * 16 + HexValue(s[2]).value])
    else UnquoteFrom(s[1..], pending + [s[0] as int])
  }

  function Unquote(s: string): string {
    UnquoteFrom(s, [])
  }

  // How a character is spelled: as it is, or escaped with upper or lower case digits.
  datatype Spelling = Raw | Upper | Lower

  function Escape(b: Byte, upper: bool): string {
    ['%', HexDigit(b / 16, upper), HexDigit(b % 16, upper)]
  }

  function EscapeAll(b: seq<Byte>, upper: bool): string {
    if b == [] then "" else Escape(b[0], upper) + EscapeAll(b[1..], upper)
  }

  function SpellChar(c: char, how: Spelling): string {
    if how == Raw then [c] else EscapeAll(EncodeChar(c), how == Upper)
  }

  function Spell(text: string, how: seq<Spelling>): string
    requires |how| == |text|
  {
    if text == "" then "" else SpellChar(text[0], how[0]) + Spell(text[1..], how[1..])
  }

  /** Percent signs are escaped. */
  predicate Escaped(text: string, how: seq<Spelling>)
    requires |how| == |text|
  {
    forall i :: 0 <= i < |text| && text[i] == '%' ==> how[i] != Raw
  }

  lemma {:induction false} UnquoteEscapes(b: seq<Byte>, upper: bool, rest: string, pending: seq<Byte>)
    ensures UnquoteFrom(EscapeAll(b, upper) + rest, pending) == UnquoteFrom(rest, pending + b)
    decreases |b|
  {
    if b == [] {
      assert EscapeAll(b, upper) + rest == rest && pending + b == pending;
    } else {
      UnquoteEscapes(b[1..], upper, rest, pending + [b[0]]);
      UnquoteOne(b[0], upper, EscapeAll(b[1..], upper) + rest, pending);
      Rejoin(Escape(b[0], upper), EscapeAll(b[1..], upper), rest);
      assert pending + [b[0]] + b[1..] == pending + b;
    }
  }

  lemma UnquoteOne(b: Byte, upper: bool, rest: string, pending: seq<Byte>)
    ensures UnquoteFrom(Escape(b, upper) + rest, pending) == UnquoteFrom(rest, pending + [b])
  {
    var s := Escape(b, upper) + rest;
    assert HexValue(HexDigit(b / 16, upper)) == Some(b / 16) && HexValue(HexDigit(b % 16, upper)) == Some(b % 16);
    assert s[3..] == rest;
  }

  lemma UnquoteRaw(c: char, rest: string, before: string)
    requires c != '%'
    ensures UnquoteFrom([c] + rest, Encode(before)) ==
            if c as int >= 0x80 then before + [c] + UnquoteFrom(rest, []) else UnquoteFrom(rest, Encode(before + [c]))
  {
    EncodingIsUndone(before);
    EncodeJoins(before, [c]);
    EncodeOne(c);
    assert ([c] + rest)[1..] == rest;
  }

  lemma UnquoteEscaped(c: char, upper: bool, rest: string, before: string)
    ensures UnquoteFrom(EscapeAll(EncodeChar(c), upper) + rest, Encode(before)) == UnquoteFrom(rest, Encode(before + [c]))
  {
    UnquoteEscapes(EncodeChar(c), upper, rest, Encode(before));
    EncodeJoins(before, [c]);
    EncodeOne(c);
  }

  /** Every way of escaping a text is undone. */
  lemma {:induction false} SpellingIsUndone(text: string, how: seq<Spelling>, before: string)
    requires |how| == |text| && Escaped(text, how)
    ensures UnquoteFrom(Spell(text, how), Encode(before)) == before + text
    decreases |text|
  {
    if text == "" {
      EncodingIsUndone(before);
    } else {
      var c, rest := text[0], Spell(text[1..], how[1..]);
      assert before + [c] + text[1..] == before + text;
      if how[0] != Raw {
        UnquoteEscaped(c, how[0] == Upper, rest, before);
        SpellingIsUndone(text[1..], how[1..], before + [c]);
      } else {
        UnquoteRaw(c, rest, before);
        if c as int >= 0x80 {
          SpellingIsUndone(text[1..], how[1..], "");
          assert "" + text[1..] == text[1..];
        } else {
          SpellingIsUndone(text[1..], how[1..], before + [c]);
        }
      }
    }
  }

  lemma SpelledIsUnquoted(text: string, how: seq<Spelling>)
    requires |how| == |text| && Escaped(text, how)
    ensures Unquote(Spell(text, how)) == text
  {
    SpellingIsUndone(text, how, "");
  }

  /** A text without percent signs is left as it is. */
  lemma {:induction false} PlainIsKept(text: string)
    requires '%' !in text
    ensures Unquote(text) == text
  {
    var how := seq(|text|, _ => Raw);
    SpellRaw(text, how);
    SpellingIsUndone(text, how, "");
  }

  lemma {:induction false} SpellRaw(text: string, how: seq<Spelling>)
    requires |how| == |text| && forall i :: 0 <= i < |how| ==> how[i] == Raw
    ensures Spell(text, how) == text
    decreases |text|
  {
    if text != "" {
      SpellRaw(text[1..], how[1..]);
      assert [text[0]] + text[1..] == text;
    }
  }
}
