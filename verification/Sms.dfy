/** Numbers and amounts in bank messages (payments/sms_parser.py). */
module Sms {
  import opened Prelude
  import opened Text

  const RIAL: string := "\U{631}\U{6cc}\U{627}\U{644}"
  const BALANCE: string := "\U{645}\U{648}\U{62c}\U{648}\U{62f}\U{6cc}"

  // The words of a deposit: "deposit", "settled", "to account", "your account".
  const DEPOSIT_KEYWORDS: seq<string> := [
    "\U{648}\U{627}\U{631}\U{6cc}\U{632}",
    "\U{646}\U{634}\U{633}\U{62a}",
    "\U{628}\U{647} \U{62d}\U{633}\U{627}\U{628}",
    "\U{62d}\U{633}\U{627}\U{628} \U{634}\U{645}\U{627}"
  ]

  // ---------- Normalisation ----------

  function TranslateChar(c: char): string {
    if '\U{6f0}' <= c <= '\U{6f9}' then ['0' + (c as int - 0x6f0) as char]
    else if '\U{660}' <= c <= '\U{669}' then ['0' + (c as int - 0x660) as char]
    else if c == '\U{64a}' then "\U{6cc}"
    else if c == '\U{643}' then "\U{6a9}"
    else if c == '\U{66c}' || c == '\U{60c}' then ","
    else if c == '\U{200c}' then " "
    else if c == '\U{200e}' || c == '\U{200f}' then ""
    else [c]
  }

  function Normalize(s: string): string {
    if s == "" then "" else TranslateChar(s[0]) + Normalize(s[1..])
  }

  lemma Rejoin(a: string, b: string, c: string)
    ensures a + (b + c) == a + b + c
  {
  }

  lemma {:induction false} NormalizeJoins(a: string, b: string)
    ensures Normalize(a + b) == Normalize(a) + Normalize(b)
    decreases |a|
  {
    if a == "" {
      assert a + b == b;
    } else {
      assert (a + b)[1..] == a[1..] + b && (a + b)[0] == a[0];
      NormalizeJoins(a[1..], b);
      Rejoin(TranslateChar(a[0]), Normalize(a[1..]), Normalize(b));
    }
  }

  lemma TranslatedOnce(c: char)
    ensures Normalize(TranslateChar(c)) == TranslateChar(c)
  {
    var t := TranslateChar(c);
    if t != "" {
      assert TranslateChar(t[0]) == t && t[1..] == "";
    }
  }

  /** Normalising twice is normalising once. */
  lemma {:induction false} NormalizeIsIdempotent(s: string)
    ensures Normalize(Normalize(s)) == Normalize(s)
    decreases |s|
  {
    if s != "" {
      NormalizeJoins(TranslateChar(s[0]), Normalize(s[1..]));
      TranslatedOnce(s[0]);
      NormalizeIsIdempotent(s[1..]);
    }
  }

  // ---------- Numbers ----------

  // The decimal digits of the scripts that normalisation leaves alone, each with the digit that it stands for: a table of the
  // interpreter's Unicode version. None of them is white space or belongs to the blocks up to Arabic.
  type Decimals = m: map<char, char> | forall c :: c in m ==> IsDigit(m[c]) && c as int >= 0x700 && !IsSpace(c) witness map[]

  function DecimalDigit(c: char, others: Decimals): (d: Option<char>)
    ensures d.Some? ==> IsDigit(d.value)
  {
    if IsDigit(c) then Some(c) else if c in others then Some(others[c]) else None
  }

  function Digits(s: string, others: Decimals): (d: string)
    ensures AllDigits(d)
  {
    if s == "" then "" else (if DecimalDigit(s[0], others).Some? then [DecimalDigit(s[0], others).value] else "") + Digits(s[1..], others)
  }

  /** The number in a text, or nothing where the text has no digit. */
  function NormalizeNumber(s: string, others: Decimals): Option<nat> {
    var digits := Digits(Normalize(s), others);
    if digits == "" then None else Some(Number(digits))
  }

  datatype Script = Latin | Persian | Arabic

  function InScript(digit: char, script: Script): char
    requires IsDigit(digit)
  {
    var n := digit as int - '0' as int;
    match script
    case Latin => digit
    case Persian => (0x6f0 + n) as char
    case Arabic => (0x660 + n) as char
  }

  /** Digits, each in a script of its own and followed by a separator, which may be empty. */
  function Written(digits: string, scripts: seq<Script>, separators: seq<string>): string
    requires AllDigits(digits) && |scripts| == |separators| == |digits|
  {
    if digits == "" then ""
    else [InScript(digits[0], scripts[0])] + separators[0] + Written(digits[1..], scripts[1..], separators[1..])
  }

  /** The decimal digits of a number. */
  function Decimal(n: nat): (d: string)
    ensures d != "" && AllDigits(d)
  {
    if n < 10 then ['0' + n as char] else Decimal(n / 10) + ['0' + (n % 10) as char]
  }

  lemma {:induction false} DecimalIsRead(n: nat)
    ensures Number(Decimal(n)) == n
  {
    var d := Decimal(n);
    if n < 10 {
      assert d[..|d| - 1] == "";
    } else {
      DecimalIsRead(n / 10);
      assert d[..|d| - 1] == Decimal(n / 10);
    }
  }

  /** A text that carries no decimal digit in any script. */
  predicate Digitless(s: string, others: Decimals) {
    Digits(Normalize(s), others) == ""
  }

  lemma {:induction false} DigitsJoin(a: string, b: string, others: Decimals)
    ensures Digits(a + b, others) == Digits(a, others) + Digits(b, others)
    decreases |a|
  {
    if a == "" {
      assert a + b == b;
    } else {
      assert (a + b)[1..] == a[1..] + b && (a + b)[0] == a[0];
      DigitsJoin(a[1..], b, others);
      Rejoin(if DecimalDigit(a[0], others).Some? then [DecimalDigit(a[0], others).value] else "", Digits(a[1..], others), Digits(b, others));
    }
  }

  lemma DigitIsRead(digit: char, script: Script)
    requires IsDigit(digit)
    ensures Normalize([InScript(digit, script)]) == [digit]
  {
    var c := InScript(digit, script);
    assert TranslateChar(c) == [digit] && [c][1..] == "";
  }

  lemma OneDigit(digit: char, others: Decimals)
    requires IsDigit(digit)
    ensures Digits([digit], others) == [digit]
  {
    assert Digits([digit][1..], others) == "";
  }

  /** A digit in any script, with a separator behind it, in front of normalised text. */
  lemma DigitAndSeparator(digit: char, script: Script, separator: string, others: Decimals)
    requires IsDigit(digit) && Digitless(separator, others)
    ensures Digits(Normalize([InScript(digit, script)] + separator), others) == [digit]
  {
    DigitIsRead(digit, script);
    OneDigit(digit, others);
    NormalizeJoins([InScript(digit, script)], separator);
    DigitsJoin([digit], Normalize(separator), others);
  }

  lemma DigitsOfBoth(a: string, b: string, others: Decimals)
    ensures Digits(Normalize(a + b), others) == Digits(Normalize(a), others) + Digits(Normalize(b), others)
  {
    NormalizeJoins(a, b);
    DigitsJoin(Normalize(a), Normalize(b), others);
  }

  lemma {:induction false} WrittenDigits(digits: string, scripts: seq<Script>, separators: seq<string>, others: Decimals)
    requires AllDigits(digits) && |scripts| == |separators| == |digits|
    requires forall i :: 0 <= i < |separators| ==> Digitless(separators[i], others)
    ensures Digits(Normalize(Written(digits, scripts, separators)), others) == digits
    decreases |digits|
  {
    if digits != "" {
      var rest := Written(digits[1..], scripts[1..], separators[1..]);
      WrittenDigits(digits[1..], scripts[1..], separators[1..], others);
      DigitAndSeparator(digits[0], scripts[0], separators[0], others);
      DigitsOfBoth([InScript(digits[0], scripts[0])] + separators[0], rest, others);
      assert [digits[0]] + digits[1..] == digits;
    }
  }

  /** Every number is read back from its digits, in whatever scripts and with whatever separators they are written. */
  lemma WrittenNumberIsRead(n: nat, scripts: seq<Script>, separators: seq<string>, lead: string, others: Decimals)
    requires |scripts| == |separators| == |Decimal(n)| && Digitless(lead, others)
    requires forall i :: 0 <= i < |separators| ==> Digitless(separators[i], others)
    ensures NormalizeNumber(lead + Written(Decimal(n), scripts, separators), others) == Some(n)
  {
    var written := Written(Decimal(n), scripts, separators);
    WrittenDigits(Decimal(n), scripts, separators, others);
    DigitsOfBoth(lead, written, others);
    assert "" + Decimal(n) == Decimal(n);
    DecimalIsRead(n);
  }

  // ---------- Amounts ----------

  predicate InAmount(c: char) {
    IsDigit(c) || c == ',' || IsSpace(c)
  }

  /** The length of the longest prefix of digits, commas and white space. */
  function Run(s: string): (n: nat)
    ensures n <= |s| && (n < |s| ==> !InAmount(s[n]))
    ensures forall i :: 0 <= i < n ==> InAmount(s[i])
  {
    if s == "" || !InAmount(s[0]) then 0 else 1 + Run(s[1..])
  }

  /** The first amount in rials. */
  function RialAmount(s: string): Option<string> {
    if s == "" then None
    else if IsDigit(s[0]) && StartsWith(s[Run(s)..], RIAL) then Some(s[..Run(s)])
    else RialAmount(s[1..])
  }

  /** The pattern: a digit, then digits, commas and white space up to k, then white space and the currency. */
  ghost predicate Matches(s: string, i: nat, k: nat) {
    && i < k <= |s| && IsDigit(s[i]) && (forall j :: i < j < k ==> InAmount(s[j]))
    && exists m :: k <= m <= |s| && Spaces(s, k, m) && StartsWith(s[m..], RIAL)
  }

  ghost predicate Spaces(s: string, k: nat, m: nat)
    requires k <= m <= |s|
  {
    forall j :: k <= j < m ==> IsSpace(s[j])
  }

  lemma RunEnds(s: string, m: nat)
    requires m < |s| && !InAmount(s[m]) && forall i :: 0 <= i < m ==> InAmount(s[i])
    ensures Run(s) == m
  {
  }

  lemma MatchEndsRun(s: string, k: nat)
    requires Matches(s, 0, k)
    ensures k <= Run(s) && StartsWith(s[Run(s)..], RIAL)
  {
    var m :| k <= m <= |s| && Spaces(s, k, m) && StartsWith(s[m..], RIAL);
    assert s[m] == s[m..][0] == RIAL[0];
    assert forall i :: 0 <= i < m ==> InAmount(s[i]);
    RunEnds(s, m);
  }

  lemma {:induction false} MatchShifts(s: string, i: nat, k: nat)
    requires s != ""
    ensures Matches(s, i + 1, k + 1) <==> Matches(s[1..], i, k)
  {
    var t := s[1..];
    if Matches(s, i + 1, k + 1) {
      var m :| k + 1 <= m <= |s| && Spaces(s, k + 1, m) && StartsWith(s[m..], RIAL);
      assert t[m - 1..] == s[m..];
      assert Spaces(t, k, m - 1);
    }
    if Matches(t, i, k) {
      var m :| k <= m <= |t| && Spaces(t, k, m) && StartsWith(t[m..], RIAL);
      assert s[m + 1..] == t[m..];
      assert Spaces(s, k + 1, m + 1);
    }
  }

  /** The leftmost match of the pattern, as long as it can be made. */
  ghost predicate IsFirstMatch(s: string, i: nat, k: nat) {
    && Matches(s, i, k) && (forall j: nat :: Matches(s, i, j) ==> j <= k)
    && forall h: nat, j: nat :: h < i ==> !Matches(s, h, j)
  }

  /** Nothing else matches than in the rest of a text whose first place does not match. */
  lemma MatchesShift(s: string, t: string, h: nat, j: nat)
    requires s != "" && t == s[1..] && forall k: nat :: !Matches(s, 0, k)
    ensures Matches(s, h, j) ==> h > 0 && j > 0 && Matches(t, h - 1, j - 1)
  {
    if Matches(s, h, j) {
      MatchShifts(s, h - 1, j - 1);
    }
  }

  lemma FirstMatchShifts(s: string, t: string, i: nat, k: nat)
    requires s != "" && t == s[1..] && (forall j: nat :: !Matches(s, 0, j)) && IsFirstMatch(t, i, k)
    ensures IsFirstMatch(s, i + 1, k + 1)
  {
    MatchShifts(s, i, k);
    forall h: nat, j: nat | Matches(s, h, j)
      ensures h >= i + 1 && (h == i + 1 ==> j <= k + 1)
    {
      MatchesShift(s, t, h, j);
    }
  }

  lemma NoMatchAtStart(s: string)
    requires s != "" && !(IsDigit(s[0]) && StartsWith(s[Run(s)..], RIAL))
    ensures forall k: nat :: !Matches(s, 0, k)
  {
    forall k: nat | Matches(s, 0, k)
      ensures false
    {
      MatchEndsRun(s, k);
    }
  }

  lemma MatchAtStart(s: string)
    requires s != "" && IsDigit(s[0]) && StartsWith(s[Run(s)..], RIAL)
    ensures IsFirstMatch(s, 0, Run(s))
  {
    assert Spaces(s, Run(s), Run(s));
    forall j: nat | Matches(s, 0, j)
      ensures j <= Run(s)
    {
      MatchEndsRun(s, j);
    }
  }

  ghost predicate NoMatch(s: string) {
    forall h: nat, j: nat :: !Matches(s, h, j)
  }

  lemma NoMatchShifts(s: string, t: string)
    requires s != "" && t == s[1..] && (forall k: nat :: !Matches(s, 0, k)) && NoMatch(t)
    ensures NoMatch(s)
  {
    forall h: nat, j: nat
      ensures !Matches(s, h, j)
    {
      MatchesShift(s, t, h, j);
    }
  }

  lemma LaterPart(s: string, t: string, i: nat, k: nat)
    requires s != "" && t == s[1..] && i <= k <= |t|
    ensures t[i..k] == s[i + 1..k + 1]
  {
  }

  /** What is found is the first match, from i to k, and where nothing is found there is no match. */
  ghost predicate FoundAt(found: Option<string>, s: string, i: nat, k: nat) {
    match found
    case None => NoMatch(s)
    case Some(amount) => IsFirstMatch(s, i, k) && amount == s[i..k]
  }

  lemma FoundLater(found: Option<string>, s: string, t: string, i: nat, k: nat)
    requires s != "" && t == s[1..] && (forall j: nat :: !Matches(s, 0, j)) && FoundAt(found, t, i, k)
    ensures FoundAt(found, s, i + 1, k + 1)
  {
    if found.Some? {
      FirstMatchShifts(s, t, i, k);
      LaterPart(s, t, i, k);
    } else {
      NoMatchShifts(s, t);
    }
  }

  lemma NoneInEmpty(s: string)
    requires s == ""
    ensures FoundAt(RialAmount(s), s, 0, 0)
  {
  }

  lemma FoundAtStart(s: string)
    requires s != "" && IsDigit(s[0]) && StartsWith(s[Run(s)..], RIAL)
    ensures FoundAt(RialAmount(s), s, 0, Run(s))
  {
    MatchAtStart(s);
  }

  lemma NotAtStart(s: string, t: string, i: nat, k: nat)
    requires s != "" && t == s[1..] && !(IsDigit(s[0]) && StartsWith(s[Run(s)..], RIAL)) && FoundAt(RialAmount(t), t, i, k)
    ensures FoundAt(RialAmount(s), s, i + 1, k + 1)
  {
    NoMatchAtStart(s);
    FoundLater(RialAmount(t), s, t, i, k);
    assert RialAmount(s) == RialAmount(t);
  }

  /** The scan finds an amount exactly where the pattern search does. */
  lemma {:induction false} AmountIsFirstMatch(s: string)
    ensures exists i: nat, k: nat :: FoundAt(RialAmount(s), s, i, k)
    decreases |s|
  {
    if s == "" {
      NoneInEmpty(s);
    } else if IsDigit(s[0]) && StartsWith(s[Run(s)..], RIAL) {
      FoundAtStart(s);
    } else {
      AmountIsFirstMatch(s[1..]);
      var i: nat, k: nat :| FoundAt(RialAmount(s[1..]), s[1..], i, k);
      NotAtStart(s, s[1..], i, k);
    }
  }

  // ---------- Deposits ----------

  predicate Keyworded(line: string) {
    exists w :: w in DEPOSIT_KEYWORDS && Contains(line, w)
  }

  predicate HasAmount(line: string) {
    !Contains(line, BALANCE) && RialAmount(line).Some?
  }

  predicate NamesDeposit(line: string) {
    HasAmount(line) && Keyworded(line)
  }

  /** The line that gives the deposit: the first one with an amount and a keyword, or else the first one with an amount. */
  ghost predicate IsDepositLine(lines: seq<string>, i: nat) {
    && i < |lines| && HasAmount(lines[i])
    && (Keyworded(lines[i]) || forall j :: 0 <= j < |lines| ==> !NamesDeposit(lines[j]))
    && forall j :: 0 <= j < i ==> if Keyworded(lines[i]) then !NamesDeposit(lines[j]) else !HasAmount(lines[j])
  }

  lemma DepositLineIsUnique(lines: seq<string>, i: nat, j: nat)
    requires IsDepositLine(lines, i) && IsDepositLine(lines, j)
    ensures i == j
  {
    assert NamesDeposit(lines[i]) <==> Keyworded(lines[i]);
    assert NamesDeposit(lines[j]) <==> Keyworded(lines[j]);
  }

  lemma {:induction false} AmountStarts(s: string)
    ensures RialAmount(s).Some? ==> RialAmount(s).value != "" && IsDigit(RialAmount(s).value[0])
    decreases |s|
  {
    if s != "" {
      AmountStarts(s[1..]);
      assert IsDigit(s[0]) ==> Run(s) > 0;
    }
  }

  lemma DigitIsKept(a: string, others: Decimals)
    requires a != "" && IsDigit(a[0])
    ensures NormalizeNumber(a, others).Some?
  {
    assert TranslateChar(a[0]) == [a[0]];
    assert Normalize(a)[0] == a[0];
  }

  lemma AmountHasDigits(s: string, others: Decimals)
    ensures RialAmount(s).Some? ==> NormalizeNumber(RialAmount(s).value, others).Some?
  {
    AmountStarts(s);
    if RialAmount(s).Some? {
      DigitIsKept(RialAmount(s).value, others);
    }
  }

  /** The deposit that the lines of a message give, or nothing where no line outside the balance has an amount. */
  method ExtractDepositAmount(lines: seq<string>, others: Decimals) returns (amount: Option<nat>, ghost at: nat)
    ensures amount.None? ==> forall i :: 0 <= i < |lines| ==> !HasAmount(lines[i])
    ensures amount.Some? ==> IsDepositLine(lines, at) && amount == NormalizeNumber(RialAmount(lines[at]).value, others)
  {
    var fallback: Option<string> := None;
    at := 0;
    for n := 0 to |lines|
      invariant forall j :: 0 <= j < n ==> !NamesDeposit(lines[j])
      invariant fallback.Some? ==> at < n && HasAmount(lines[at]) && fallback == RialAmount(lines[at])
      invariant forall j :: 0 <= j < (if fallback.None? then n else at) ==> !HasAmount(lines[j])
    {
      var line := lines[n];
      if Contains(line, BALANCE) {
        continue;
      }
      var found := RialAmount(line);
      if found.None? {
        continue;
      }
      if fallback.None? {
        fallback, at := found, n;
      }
      if Keyworded(line) {
        at := n;
        amount := NormalizeNumber(found.value, others);
        AmountHasDigits(line, others);
        return;
      }
    }
    if fallback.Some? {
      amount := NormalizeNumber(fallback.value, others);
      AmountHasDigits(lines[at], others);
      return;
    }
    return None, 0;
  }

  // ---------- Printed amounts ----------

  /** Separators that an amount may have after a digit: once normalised, commas and white space. */
  predicate Separates(s: string) {
    forall i :: 0 <= i < |Normalize(s)| ==> InAmount(Normalize(s)[i]) && !IsDigit(Normalize(s)[i])
  }

  lemma {:induction false} NoDigits(s: string, others: Decimals)
    requires forall i :: 0 <= i < |s| ==> InAmount(s[i]) && !IsDigit(s[i])
    ensures Digits(s, others) == ""
    decreases |s|
  {
    if s != "" {
      NoDigits(s[1..], others);
    }
  }

  /** A text without the digits that an amount begins with. */
  predicate NoLatinDigit(s: string) {
    forall i :: 0 <= i < |s| ==> !IsDigit(s[i])
  }

  lemma {:induction false} SkipDigitless(before: string, rest: string)
    requires NoLatinDigit(before)
    ensures RialAmount(before + rest) == RialAmount(rest)
    decreases |before|
  {
    if before == "" {
      assert before + rest == rest;
    } else {
      assert (before + rest)[1..] == before[1..] + rest;
      SkipDigitless(before[1..], rest);
    }
  }

  lemma {:induction false} RunOf(a: string, rest: string)
    requires (forall i :: 0 <= i < |a| ==> InAmount(a[i])) && rest != "" && !InAmount(rest[0])
    ensures Run(a + rest) == |a|
  {
    var s := a + rest;
    assert s[|a|] == rest[0];
    forall i | 0 <= i < |a|
      ensures InAmount(s[i])
    {
      assert s[i] == a[i];
    }
  }

  lemma {:induction false} WrittenIsAmount(digits: string, scripts: seq<Script>, separators: seq<string>)
    requires AllDigits(digits) && |scripts| == |separators| == |digits|
    requires forall i :: 0 <= i < |separators| ==> Separates(separators[i])
    ensures var w := Normalize(Written(digits, scripts, separators));
      (forall i :: 0 <= i < |w| ==> InAmount(w[i])) && (digits != "" ==> w != "" && IsDigit(w[0]))
    decreases |digits|
  {
    if digits != "" {
      var first, rest := [InScript(digits[0], scripts[0])], Written(digits[1..], scripts[1..], separators[1..]);
      WrittenIsAmount(digits[1..], scripts[1..], separators[1..]);
      DigitIsRead(digits[0], scripts[0]);
      NormalizeJoins(first + separators[0], rest);
      NormalizeJoins(first, separators[0]);
    }
  }

  lemma AmountIsScanned(before: string, amount: string, after: string)
    requires NoLatinDigit(before) && amount != "" && IsDigit(amount[0]) && forall i :: 0 <= i < |amount| ==> InAmount(amount[i])
    ensures RialAmount(before + (amount + (RIAL + after))) == Some(amount)
  {
    var s := amount + (RIAL + after);
    SkipDigitless(before, s);
    RunOf(amount, RIAL + after);
    assert s[|amount|..] == RIAL + after && s[..|amount|] == amount;
  }

  lemma WrittenIsNumber(n: nat, scripts: seq<Script>, separators: seq<string>, others: Decimals)
    requires |scripts| == |separators| == |Decimal(n)| && forall i :: 0 <= i < |separators| ==> Separates(separators[i])
    ensures NormalizeNumber(Normalize(Written(Decimal(n), scripts, separators)), others) == Some(n)
  {
    forall i | 0 <= i < |separators|
      ensures Digitless(separators[i], others)
    {
      NoDigits(Normalize(separators[i]), others);
    }
    NormalizeIsIdempotent(Written(Decimal(n), scripts, separators));
    WrittenDigits(Decimal(n), scripts, separators, others);
    DecimalIsRead(n);
  }

  /** An amount that follows text without a digit of the three scripts is read back from its line, in any scripts and with any separators. */
  lemma PrintedAmountIsRead(before: string, n: nat, scripts: seq<Script>, separators: seq<string>, currency: string, after: string, others: Decimals)
    requires |scripts| == |separators| == |Decimal(n)| && NoLatinDigit(Normalize(before)) && Normalize(currency) == RIAL
    requires forall i :: 0 <= i < |separators| ==> Separates(separators[i])
    ensures var line := Normalize(before + (Written(Decimal(n), scripts, separators) + (currency + after)));
      RialAmount(line).Some? && NormalizeNumber(RialAmount(line).value, others) == Some(n)
  {
    var written := Written(Decimal(n), scripts, separators);
    NormalizeJoins(before, written + (currency + after));
    NormalizeJoins(written, currency + after);
    NormalizeJoins(currency, after);
    WrittenIsAmount(Decimal(n), scripts, separators);
    AmountIsScanned(Normalize(before), Normalize(written), Normalize(after));
    WrittenIsNumber(n, scripts, separators, others);
  }

  // ---------- Balances ----------

  function SkipSpaces(s: string): (r: string)
    ensures |r| <= |s|
  {
    if s != "" && IsSpace(s[0]) then SkipSpaces(s[1..]) else s
  }

  /** What follows white space, at most one colon, and white space. */
  function SkipColon(s: string): string {
    var t := SkipSpaces(s);
    if t != "" && t[0] in {':', '\U{ff1a}'} then SkipSpaces(t[1..]) else t
  }

  /** The amount behind the first balance word that has one right behind it. */
  function BalanceAmount(s: string): Option<string> {
    if s == "" then None
    else
      var t := if StartsWith(s, BALANCE) then SkipColon(s[|BALANCE|..]) else "";
      if t != "" && IsDigit(t[0]) && StartsWith(t[Run(t)..], RIAL) then Some(t[..Run(t)]) else BalanceAmount(s[1..])
  }

  function ExtractBalance(text: string, others: Decimals): Option<nat> {
    if BalanceAmount(text).None? then None else NormalizeNumber(BalanceAmount(text).value, others)
  }

  lemma {:induction false} SkipTo(s: string, i: nat)
    requires i <= |s| && forall j :: 0 <= j < i ==> !StartsWith(s[j..], BALANCE)
    ensures BalanceAmount(s) == BalanceAmount(s[i..])
    decreases i
  {
    if i == 0 {
      assert s[0..] == s;
    } else {
      assert s[0..] == s;
      forall j | 0 <= j < i - 1
        ensures !StartsWith(s[1..][j..], BALANCE)
      {
        assert s[1..][j..] == s[j + 1..];
      }
      SkipTo(s[1..], i - 1);
      assert s[1..][i - 1..] == s[i..];
    }
  }

  lemma {:induction false} SpacesSkipped(gap: string, rest: string)
    requires (forall i :: 0 <= i < |gap| ==> IsSpace(gap[i])) && rest != "" && !IsSpace(rest[0])
    ensures SkipSpaces(gap + rest) == rest
    decreases |gap|
  {
    if gap == "" {
      assert gap + rest == rest;
    } else {
      assert (gap + rest)[1..] == gap[1..] + rest;
      SpacesSkipped(gap[1..], rest);
    }
  }

  lemma ColonSkipped(gap: string, colon: string, more: string, rest: string)
    requires (forall i :: 0 <= i < |gap| ==> IsSpace(gap[i])) && forall i :: 0 <= i < |more| ==> IsSpace(more[i])
    requires colon == "" || colon == ":" || colon == "\U{ff1a}"
    requires rest != "" && IsDigit(rest[0])
    ensures SkipColon(gap + (colon + (more + rest))) == rest
  {
    if colon == "" {
      SpacesSkipped(gap + more, rest);
      assert gap + (colon + (more + rest)) == gap + more + rest;
    } else {
      SpacesSkipped(gap, colon + (more + rest));
      SpacesSkipped(more, rest);
      assert (colon + (more + rest))[1..] == more + rest;
    }
  }

  predicate Blank(s: string) {
    forall i :: 0 <= i < |s| ==> IsSpace(s[i])
  }

  predicate IsToken(amount: string) {
    amount != "" && IsDigit(amount[0]) && forall i :: 0 <= i < |amount| ==> InAmount(amount[i])
  }

  predicate IsColon(colon: string) {
    colon == "" || colon == ":" || colon == "\U{ff1a}"
  }

  /** The parts of the pattern, put together. */
  function Phrase(gap: string, colon: string, more: string, amount: string, spaces: string, after: string): string {
    BALANCE + (gap + (colon + (more + (amount + (spaces + (RIAL + after))))))
  }

  /** The pattern matches at place p and captures the amount. */
  ghost predicate BalanceAt(s: string, p: nat, amount: string) {
    && p <= |s| && IsToken(amount)
    && exists gap, colon, more, spaces, after ::
         Blank(gap) && IsColon(colon) && Blank(more) && Blank(spaces) && s[p..] == Phrase(gap, colon, more, amount, spaces, after)
  }

  predicate HasBalanceAtStart(s: string) {
    && StartsWith(s, BALANCE)
    && var t := SkipColon(s[|BALANCE|..]); t != "" && IsDigit(t[0]) && StartsWith(t[Run(t)..], RIAL)
  }

  lemma PhraseIsRead(gap: string, colon: string, more: string, amount: string, spaces: string, after: string)
    requires Blank(gap) && IsColon(colon) && Blank(more) && IsToken(amount) && Blank(spaces)
    ensures var s := Phrase(gap, colon, more, amount, spaces, after);
      HasBalanceAtStart(s) && BalanceAmount(s) == Some(amount + spaces)
  {
    var s := Phrase(gap, colon, more, amount, spaces, after);
    var rest := amount + (spaces + (RIAL + after));
    ColonSkipped(gap, colon, more, rest);
    assert s[|BALANCE|..] == gap + (colon + (more + rest));
    assert rest == amount + spaces + (RIAL + after);
    RunOf(amount + spaces, RIAL + after);
    assert rest[|amount + spaces|..] == RIAL + after && rest[..|amount + spaces|] == amount + spaces;
  }

  lemma BlankLonger(c: char, gap: string)
    requires IsSpace(c) && Blank(gap)
    ensures Blank([c] + gap)
  {
  }

  lemma {:induction false} SpacesSplit(s: string) returns (gap: string)
    ensures Blank(gap) && s == gap + SkipSpaces(s)
    decreases |s|
  {
    gap := "";
    if s != "" && IsSpace(s[0]) {
      var rest := SpacesSplit(s[1..]);
      gap := [s[0]] + rest;
      BlankLonger(s[0], rest);
      Rejoin([s[0]], rest, SkipSpaces(s));
      assert s == [s[0]] + s[1..];
    }
  }

  lemma ColonSplit(s: string) returns (gap: string, colon: string, more: string)
    ensures Blank(gap) && IsColon(colon) && Blank(more) && s == gap + (colon + (more + SkipColon(s)))
  {
    gap := SpacesSplit(s);
    colon, more := "", "";
    var t := SkipSpaces(s);
    if t != "" && t[0] in {':', '\U{ff1a}'} {
      colon := [t[0]];
      more := SpacesSplit(t[1..]);
      assert t == colon + t[1..];
    }
  }

  lemma PhraseAtStart(s: string, gap: string, colon: string, more: string, amount: string, after: string)
    requires Blank(gap) && IsColon(colon) && Blank(more) && IsToken(amount)
    requires s == Phrase(gap, colon, more, amount, "", after)
    ensures BalanceAt(s, 0, amount)
  {
    assert s[0..] == s && Blank("");
  }

  /** A word that the text starts with, taken off and put back. */
  lemma TakenOff(s: string, word: string)
    requires StartsWith(s, word)
    ensures s == word + s[|word|..]
  {
  }

  lemma ColonRead(s: string)
    requires HasBalanceAtStart(s)
    ensures var t := SkipColon(s[|BALANCE|..]);
      BalanceAmount(s) == Some(t[..Run(t)]) && IsToken(t[..Run(t)]) && t == t[..Run(t)] + (RIAL + t[Run(t)..][|RIAL|..])
  {
    var t := SkipColon(s[|BALANCE|..]);
    TakenOff(t[Run(t)..], RIAL);
  }

  lemma StartIsPhrase(s: string)
    requires HasBalanceAtStart(s)
    ensures BalanceAmount(s).Some? && BalanceAt(s, 0, BalanceAmount(s).value)
  {
    var behind := s[|BALANCE|..];
    var t := SkipColon(behind);
    var gap, colon, more := ColonSplit(behind);
    var amount, after := t[..Run(t)], t[Run(t)..][|RIAL|..];
    ColonRead(s);
    TakenOff(s, BALANCE);
    assert "" + (RIAL + after) == RIAL + after;
    PhraseAtStart(s, gap, colon, more, amount, after);
  }

  /** The leftmost match of the balance pattern, with the longest amount. */
  ghost predicate IsFirstBalance(s: string, p: nat, amount: string) {
    && BalanceAt(s, p, amount) && (forall b :: BalanceAt(s, p, b) ==> b <= amount)
    && forall q: nat, b :: q < p ==> !BalanceAt(s, q, b)
  }

  lemma StartDecides(s: string, b: string)
    requires BalanceAt(s, 0, b)
    ensures HasBalanceAtStart(s) && BalanceAmount(s).Some? && b <= BalanceAmount(s).value
  {
    var gap, colon, more, spaces, after :| Blank(gap) && IsColon(colon) && Blank(more) && Blank(spaces)
                                           && s[0..] == Phrase(gap, colon, more, b, spaces, after);
    assert s[0..] == s;
    PhraseIsRead(gap, colon, more, b, spaces, after);
  }

  lemma BalanceShifts(s: string, p: nat, b: string)
    requires s != ""
    ensures BalanceAt(s, p + 1, b) <==> BalanceAt(s[1..], p, b)
  {
    if p + 1 <= |s| {
      assert s[1..][p..] == s[p + 1..];
    }
  }

  /** The scan finds a balance exactly where the pattern search does. */
  lemma {:induction false} BalanceIsFirstMatch(s: string) returns (p: nat)
    ensures BalanceAmount(s).None? ==> forall q: nat, b :: !BalanceAt(s, q, b)
    ensures BalanceAmount(s).Some? ==> IsFirstBalance(s, p, BalanceAmount(s).value)
    decreases |s|
  {
    p := 0;
    if HasBalanceAtStart(s) {
      StartIsPhrase(s);
      forall b | BalanceAt(s, 0, b)
        ensures b <= BalanceAmount(s).value
      {
        StartDecides(s, b);
      }
    } else {
      forall b
        ensures !BalanceAt(s, 0, b)
      {
        if BalanceAt(s, 0, b) {
          StartDecides(s, b);
        }
      }
      if s != "" {
        p := BalanceIsFirstMatch(s[1..]);
        BalanceComesLater(s, p);
        p := p + 1;
      }
    }
  }

  lemma BalanceComesLater(s: string, p: nat)
    requires s != "" && forall b :: !BalanceAt(s, 0, b)
    ensures (forall q: nat, b :: !BalanceAt(s[1..], q, b)) ==> forall q: nat, b :: !BalanceAt(s, q, b)
    ensures forall amount :: IsFirstBalance(s[1..], p, amount) ==> IsFirstBalance(s, p + 1, amount)
  {
    forall q: nat, b
      ensures q > 0 ==> (BalanceAt(s, q, b) <==> BalanceAt(s[1..], q - 1, b))
    {
      if q > 0 {
        BalanceShifts(s, q - 1, b);
      }
    }
  }

  lemma NormalizedPhrase(before: string, word: string, gap: string, colon: string, more: string, written: string, currency: string, after: string)
    requires Normalize(word) == BALANCE && Normalize(currency) == RIAL
    ensures Normalize(before + (word + (gap + (colon + (more + (written + (currency + after)))))))
         == Normalize(before) + Phrase(Normalize(gap), Normalize(colon), Normalize(more), Normalize(written), "", Normalize(after))
  {
    NormalizeJoins(before, word + (gap + (colon + (more + (written + (currency + after))))));
    NormalizeJoins(word, gap + (colon + (more + (written + (currency + after)))));
    NormalizeJoins(gap, colon + (more + (written + (currency + after))));
    NormalizeJoins(colon, more + (written + (currency + after)));
    NormalizeJoins(more, written + (currency + after));
    NormalizeJoins(written, currency + after);
    NormalizeJoins(currency, after);
    assert "" + (RIAL + Normalize(after)) == RIAL + Normalize(after);
  }

  /** A printed balance is read back behind the first balance word, with or without a colon, in any scripts and with any separators. */
  lemma PrintedBalanceIsRead(before: string, word: string, gap: string, colon: string, more: string, n: nat, scripts: seq<Script>, separators: seq<string>,
                             currency: string, after: string, others: Decimals)
    requires Normalize(word) == BALANCE && Normalize(currency) == RIAL
    requires Blank(Normalize(gap)) && IsColon(Normalize(colon)) && Blank(Normalize(more))
    requires |scripts| == |separators| == |Decimal(n)| && forall i :: 0 <= i < |separators| ==> Separates(separators[i])
    requires var text := Normalize(before + (word + (gap + (colon + (more + (Written(Decimal(n), scripts, separators) + (currency + after)))))));
      forall j :: 0 <= j < |Normalize(before)| && j <= |text| ==> !StartsWith(text[j..], BALANCE)
    ensures ExtractBalance(Normalize(before + (word + (gap + (colon + (more + (Written(Decimal(n), scripts, separators) + (currency + after))))))), others)
         == Some(n)
  {
    var written := Written(Decimal(n), scripts, separators);
    var amount := Normalize(written);
    NormalizedPhrase(before, word, gap, colon, more, written, currency, after);
    WrittenIsAmount(Decimal(n), scripts, separators);
    BalanceIsPhrase(Normalize(before), Normalize(gap), Normalize(colon), Normalize(more), amount, Normalize(after));
    WrittenIsNumber(n, scripts, separators, others);
  }

  lemma BalanceIsPhrase(before: string, gap: string, colon: string, more: string, amount: string, after: string)
    requires Blank(gap) && IsColon(colon) && Blank(more) && IsToken(amount)
    requires var text := before + Phrase(gap, colon, more, amount, "", after);
      forall j :: 0 <= j < |before| ==> !StartsWith(text[j..], BALANCE)
    ensures BalanceAmount(before + Phrase(gap, colon, more, amount, "", after)) == Some(amount)
  {
    var phrase := Phrase(gap, colon, more, amount, "", after);
    PhraseIsRead(gap, colon, more, amount, "", after);
    SkipTo(before + phrase, |before|);
    assert (before + phrase)[|before|..] == phrase && amount + "" == amount;
  }
}
