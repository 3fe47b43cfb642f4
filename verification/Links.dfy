/** The credential in a Shadowsocks link (customer_activity/mapping.py). */
module Links {
  import opened Prelude
  import opened Text
  import opened Utf8
  import Base64
  import Percent

  // ---------- Cutting strings ----------

  /** The position of the first c, or the length. */
  function Find(s: string, c: char): (i: nat)
    ensures i <= |s| && (i < |s| ==> s[i] == c)
    ensures forall j :: 0 <= j < i ==> s[j] != c
  {
    if s == "" || s[0] == c then 0 else 1 + Find(s[1..], c)
  }

  /** The position after the last c, or 0. */
  function FindLast(s: string, c: char): (i: nat)
    ensures i <= |s| && (i > 0 ==> s[i - 1] == c)
    ensures forall j :: i <= j < |s| ==> s[j] != c
  {
    if s == "" || s[|s| - 1] == c then |s| else FindLast(s[..|s| - 1], c)
  }

  lemma FindAt(a: string, c: char, b: string)
    requires c !in a
    ensures Find(a + [c] + b, c) == |a|
  {
    var s := a + [c] + b;
    assert s[|a|] == c;
    forall j | 0 <= j < |a|
      ensures s[j] != c
    {
      assert s[j] == a[j];
    }
  }

  lemma FindLastIs(s: string, c: char, p: nat)
    requires p < |s| && s[p] == c && forall j :: p < j < |s| ==> s[j] != c
    ensures FindLast(s, c) == p + 1
  {
  }

  lemma Behind(a: string, c: char, b: string, j: int)
    requires |a| < j < |a + [c] + b|
    ensures (a + [c] + b)[j] == b[j - |a| - 1] && (a + [c] + b)[j] in b
  {
    assert b[j - |a| - 1] in b;
  }

  lemma FindLastAt(a: string, c: char, b: string)
    requires c !in b
    ensures FindLast(a + [c] + b, c) == |a| + 1
  {
    var s, n := a + [c] + b, |a|;
    forall j | n < j < |s|
      ensures s[j] != c
    {
      Behind(a, c, b, j);
    }
    FindLastIs(s, c, n);
  }

  lemma FindNone(s: string, c: char)
    requires c !in s
    ensures Find(s, c) == |s| && FindLast(s, c) == 0
  {
  }

  // ---------- Addresses ----------

  /** The text without the control characters that URL parsing drops. */
  function Cleaned(s: string): string {
    if s == "" then "" else (if s[0] in {'\t', '\n', '\r'} then "" else [s[0]]) + Cleaned(s[1..])
  }

  /** The host and the port of a network location; an address in brackets is a host. */
  function HostAndPort(netloc: string): (string, string) {
    if '[' in netloc then
      var bracketed := netloc[Find(netloc, '[') + 1..];
      var end := Find(bracketed, ']');
      var after := if end < |bracketed| then bracketed[end + 1..] else "";
      (bracketed[..end], After(after, ':'))
    else (netloc[..Find(netloc, ':')], After(netloc, ':'))
  }

  function After(s: string, c: char): string {
    if Find(s, c) < |s| then s[Find(s, c) + 1..] else ""
  }

  predicate IsPort(port: string) {
    port != "" && AllDigits(port) && 1 <= Number(port) <= 65535
  }

  /** The text behind the credential names a host and a port that is not zero. */
  predicate IsAddress(server: string) {
    var url := Cleaned(server);
    var netloc := url[..Find(url[..Find(url[..Find(url, '#')], '?')], '/')];
    var (host, port) := HostAndPort(netloc);
    ('[' in netloc <==> ']' in netloc) && host != "" && IsPort(port)
  }

  // ---------- Credentials ----------

  // A credential, a rejected link, or a link of another kind, which another parser reads.
  datatype Reading = Credential(password: string) | Rejected | Elsewhere(link: string)

  predicate IsShadowsocks(raw: string) {
    |raw| >= 5 && raw[0] in {'s', 'S'} && raw[1] in {'s', 'S'} && raw[2..5] == "://"
  }

  function Text64(s: string): Option<string> {
    var bytes := Base64.Read(s);
    if bytes.None? then None else Decode(bytes.value)
  }

  /** What a link is read as once it is cut into the text before the last at sign and the server behind it. */
  function Judge(userinfo: string, server: string): Reading {
    var colon := Find(userinfo, ':');
    if colon == |userinfo| then Rejected
    else
      var cipher, password := userinfo[..colon], userinfo[colon + 1..];
      if cipher == "" || password == "" || !IsAddress(server) then Rejected else Credential(password)
  }

  /** Reads the part of a link between the scheme and the query or the fragment. */
  function FromBody(body: string): Reading {
    var at := FindLast(body, '@');
    if at > 0 then
      var userinfo := Percent.Unquote(body[..at - 1]);
      if ':' in userinfo then Judge(userinfo, body[at..])
      else
        var decoded := Text64(userinfo);
        if decoded.None? then Rejected else Judge(decoded.value, body[at..])
    else
      var decoded := Text64(body);
      if decoded.None? then Rejected
      else
        var text := decoded.value;
        var last := FindLast(text, '@');
        if last == 0 then Rejected else Judge(text[..last - 1], text[last..])
  }

  function Body(rest: string): string {
    var before := rest[..Find(rest, '#')];
    before[..Find(before, '?')]
  }

  function CredentialFromLink(rawLink: string): Reading {
    var raw := Strip(rawLink);
    if IsShadowsocks(raw) then FromBody(Body(raw[5..])) else Elsewhere(raw)
  }

  // ---------- Printed links ----------

  // The three forms a client prints a credential in.
  datatype Form =
    | Encoded(urlSafe: bool, padded: bool)
    | Escaped(how: seq<Percent.Spelling>)
    | Legacy(urlSafe: bool, padded: bool)

  predicate Fits(form: Form, userinfo: string) {
    form.Escaped? ==> |form.how| == |userinfo| && Percent.Escaped(userinfo, form.how)
                      && forall i :: 0 <= i < |userinfo| && userinfo[i] in {'#', '?'} ==> form.how[i] != Percent.Raw
  }

  function Printed(form: Form, userinfo: string, server: string): string
    requires Fits(form, userinfo)
  {
    match form
    case Encoded(urlSafe, padded) => Base64.Print(Encode(userinfo), urlSafe, padded) + "@" + server
    case Escaped(how) => Percent.Spell(userinfo, how) + "@" + server
    case Legacy(urlSafe, padded) => Base64.Print(Encode(userinfo + "@" + server), urlSafe, padded)
  }

  /** A server text that a printed link may carry: no sign that ends it or splits it off, no white space at its end. */
  predicate IsServer(server: string) {
    '@' !in server && '#' !in server && '?' !in server && (server == "" || !IsSpace(server[|server| - 1]))
  }

  // A character that ends, splits or escapes nothing.
  predicate IsPlain(c: char) {
    !IsSpace(c) && c != '@' && c != ':' && c != '#' && c != '?' && c != '%'
  }

  lemma DigitIsPlain(c: char)
    ensures Base64.IsDigit(c) ==> IsPlain(c)
  {
  }

  /** Base64 digits are none of the signs that a link is cut at. */
  lemma DigitsArePlain(b: seq<Byte>, urlSafe: bool, padded: bool)
    ensures forall c :: c in Base64.Print(b, urlSafe, padded) ==> IsPlain(c)
  {
    Base64.PrintedDigits(b, urlSafe, padded);
    forall c | c in Base64.Print(b, urlSafe, padded)
      ensures IsPlain(c)
    {
      DigitIsPlain(c);
    }
  }

  lemma TextIsRead(text: string, urlSafe: bool, padded: bool)
    ensures Text64(Base64.Print(Encode(text), urlSafe, padded)) == Some(text)
  {
    Base64.PrintedIsRead(Encode(text), urlSafe, padded);
    EncodingIsUndone(text);
  }

  lemma BodyWithServer(printed: string, server: string)
    requires '@' !in server
    ensures var userinfo := Percent.Unquote(printed);
      && (':' in userinfo ==> FromBody(printed + "@" + server) == Judge(userinfo, server))
      && (':' !in userinfo && Text64(userinfo).Some? ==> FromBody(printed + "@" + server) == Judge(Text64(userinfo).value, server))
  {
    var body := printed + ['@'] + server;
    FindLastAt(printed, '@', server);
    assert body[..|printed|] == printed && body[|printed| + 1..] == server;
  }

  lemma BodyWithoutServer(printed: string, userinfo: string, server: string)
    requires '@' !in printed && '@' !in server && Text64(printed) == Some(userinfo + "@" + server)
    ensures FromBody(printed) == Judge(userinfo, server)
  {
    var text := userinfo + ['@'] + server;
    FindNone(printed, '@');
    FindLastAt(userinfo, '@', server);
    assert text[..|userinfo|] == userinfo && text[|userinfo| + 1..] == server;
  }

  lemma EncodedIsRead(userinfo: string, server: string, urlSafe: bool, padded: bool)
    requires '@' !in server
    ensures FromBody(Base64.Print(Encode(userinfo), urlSafe, padded) + "@" + server) == Judge(userinfo, server)
  {
    var printed := Base64.Print(Encode(userinfo), urlSafe, padded);
    DigitsArePlain(Encode(userinfo), urlSafe, padded);
    Percent.PlainIsKept(printed);
    TextIsRead(userinfo, urlSafe, padded);
    BodyWithServer(printed, server);
  }

  lemma EscapedIsRead(userinfo: string, server: string, how: seq<Percent.Spelling>)
    requires '@' !in server && |how| == |userinfo| && Percent.Escaped(userinfo, how) && ':' in userinfo
    ensures FromBody(Percent.Spell(userinfo, how) + "@" + server) == Judge(userinfo, server)
  {
    var spelled := Percent.Spell(userinfo, how);
    Percent.SpelledIsUnquoted(userinfo, how);
    BodyWithServer(spelled, server);
  }

  lemma LegacyIsRead(userinfo: string, server: string, urlSafe: bool, padded: bool)
    requires '@' !in server
    ensures FromBody(Base64.Print(Encode(userinfo + "@" + server), urlSafe, padded)) == Judge(userinfo, server)
  {
    var text := userinfo + "@" + server;
    DigitsArePlain(Encode(text), urlSafe, padded);
    TextIsRead(text, urlSafe, padded);
    BodyWithoutServer(Base64.Print(Encode(text), urlSafe, padded), userinfo, server);
  }

  /** In each form, the body of a link is cut into the printed text and server again. */
  lemma BodyIsRead(form: Form, userinfo: string, server: string)
    requires IsServer(server) && Fits(form, userinfo) && ':' in userinfo
    ensures FromBody(Printed(form, userinfo, server)) == Judge(userinfo, server)
  {
    match form
    case Encoded(urlSafe, padded) => EncodedIsRead(userinfo, server, urlSafe, padded);
    case Escaped(how) => EscapedIsRead(userinfo, server, how);
    case Legacy(urlSafe, padded) => LegacyIsRead(userinfo, server, urlSafe, padded);
  }

  /** The judgement of cipher:password at a server. */
  lemma JudgeSplits(cipher: string, password: string, server: string)
    requires ':' !in cipher
    ensures Judge(cipher + ":" + password, server) ==
            if cipher == "" || password == "" || !IsAddress(server) then Rejected else Credential(password)
  {
    var text := cipher + ":" + password;
    FindAt(cipher, ':', password);
    assert text[..|cipher|] == cipher && text[|cipher| + 1..] == password;
  }

  // ---------- The whole link ----------

  predicate Unmarked(s: string) {
    '#' !in s && '?' !in s
  }

  lemma SpellingIsUnmarked(text: string, how: seq<Percent.Spelling>)
    requires Fits(Escaped(how), text)
    ensures Unmarked(Percent.Spell(text, how))
    decreases |text|
  {
    if text != "" {
      assert Unmarked(Percent.SpellChar(text[0], how[0])) by {
        if how[0] != Percent.Raw {
          EscapesAreUnmarked(EncodeChar(text[0]), how[0] == Percent.Upper);
        }
      }
      SpellingIsUnmarked(text[1..], how[1..]);
    }
  }

  lemma {:induction false} EscapesAreUnmarked(b: seq<Byte>, upper: bool)
    ensures Unmarked(Percent.EscapeAll(b, upper))
    decreases |b|
  {
    if b != [] {
      EscapesAreUnmarked(b[1..], upper);
      assert Unmarked(Percent.Escape(b[0], upper));
    }
  }

  /** What follows the body: nothing, or a query or a fragment with any text in it. */
  predicate IsSuffix(suffix: string) {
    suffix == "" || suffix[0] == '#' || suffix[0] == '?'
  }

  lemma BodyIsCut(body: string, suffix: string)
    requires Unmarked(body) && IsSuffix(suffix)
    ensures Body(body + suffix) == body
  {
    if suffix == "" {
      FindNone(body, '#');
      FindNone(body, '?');
      assert body + suffix == body && body[..|body|] == body;
    } else if suffix[0] == '#' {
      assert body + suffix == body + ['#'] + suffix[1..];
      FindAt(body, '#', suffix[1..]);
      assert (body + suffix)[..|body|] == body;
      FindNone(body, '?');
    } else {
      var cut := Find(body + suffix, '#');
      assert cut > |body| by {
        assert forall j :: 0 <= j < |body| ==> (body + suffix)[j] == body[j];
      }
      var before := (body + suffix)[..cut];
      assert before == body + ['?'] + before[|body| + 1..];
      FindAt(body, '?', before[|body| + 1..]);
      assert before[..|body|] == body;
    }
  }

  lemma {:induction false} StripRightKeeps(body: string, tail: string)
    requires body != "" && !IsSpace(body[|body| - 1])
    ensures StripRight(body + tail) == body + StripRight(tail)
    decreases |tail|
  {
    if tail == "" {
      assert body + tail == body;
    } else {
      var n := |tail| - 1;
      assert (body + tail)[..|body + tail| - 1] == body + tail[..n];
      if IsSpace(tail[n]) {
        StripRightKeeps(body, tail[..n]);
      }
    }
  }

  lemma {:induction false} StripLeftDrops(lead: string, body: string)
    requires (forall c :: c in lead ==> IsSpace(c)) && body != "" && !IsSpace(body[0])
    ensures StripLeft(lead + body) == body
    decreases |lead|
  {
    if lead == "" {
      assert lead + body == body;
    } else {
      assert (lead + body)[1..] == lead[1..] + body;
      StripLeftDrops(lead[1..], body);
    }
  }

  lemma {:induction false} StripRightEmpties(s: string)
    requires forall c :: c in s ==> IsSpace(c)
    ensures StripRight(s) == ""
    decreases |s|
  {
    if s != "" {
      StripRightEmpties(s[..|s| - 1]);
    }
  }

  lemma SuffixStaysSuffix(suffix: string, trail: string)
    requires IsSuffix(suffix) && forall c :: c in trail ==> IsSpace(c)
    ensures IsSuffix(StripRight(suffix + trail))
  {
    if suffix == "" {
      assert suffix + trail == trail;
      StripRightEmpties(trail);
    } else {
      var first := suffix[..1];
      assert suffix + trail == first + (suffix[1..] + trail);
      StripRightKeeps(first, suffix[1..] + trail);
    }
  }

  lemma PrintedEndsPlain(form: Form, userinfo: string, server: string)
    requires Fits(form, userinfo) && IsServer(server)
    ensures var s := Printed(form, userinfo, server);
      Unmarked(s) && (s == "" || !IsSpace(s[|s| - 1]))
  {
    match form
    case Encoded(urlSafe, padded) =>
      DigitsArePlain(Encode(userinfo), urlSafe, padded);
    case Escaped(how) =>
      SpellingIsUnmarked(userinfo, how);
    case Legacy(urlSafe, padded) =>
      DigitsArePlain(Encode(userinfo + "@" + server), urlSafe, padded);
      var s := Printed(form, userinfo, server);
      assert s != "" ==> s[|s| - 1] in s;
  }

  predicate Blank(s: string) {
    forall c :: c in s ==> IsSpace(c)
  }

  lemma LinkIsStripped(lead: string, core: string, tail: string)
    requires Blank(lead) && core != "" && !IsSpace(core[0]) && !IsSpace(core[|core| - 1])
    ensures Strip(lead + (core + tail)) == core + StripRight(tail)
  {
    StripLeftDrops(lead, core + tail);
    StripRightKeeps(core, tail);
  }

  lemma SchemeIsCut(scheme: string, body: string, rest: string)
    requires |scheme| == 5 && IsShadowsocks(scheme) && Unmarked(body) && IsSuffix(rest)
    ensures var raw := scheme + body + rest;
      IsShadowsocks(raw) && Body(raw[5..]) == body
  {
    var raw := scheme + body + rest;
    assert raw[..5] == scheme && raw[5..] == body + rest;
    assert raw[2..5] == raw[..5][2..5];
    BodyIsCut(body, rest);
  }

  lemma LinkIsCut(lead: string, scheme: string, body: string, suffix: string, trail: string)
    requires Blank(lead) && Blank(trail) && |scheme| == 5 && IsShadowsocks(scheme)
    requires Unmarked(body) && (body == "" || !IsSpace(body[|body| - 1])) && IsSuffix(suffix)
    ensures CredentialFromLink(lead + (scheme + body + (suffix + trail))) == FromBody(body)
  {
    assert scheme[4] == scheme[2..5][2] == '/';
    LinkIsStripped(lead, scheme + body, suffix + trail);
    SuffixStaysSuffix(suffix, trail);
    SchemeIsCut(scheme, body, StripRight(suffix + trail));
  }

  /**
   * A printed link gives back its password, in each of the three forms, whatever signs are in the password, whatever
   * query or fragment follows and however the scheme is written; it is rejected exactly when the cipher or the password
   * is empty or the server has no host or no usable port.
   */
  lemma PrintedLinkIsRead(lead: string, scheme: string, form: Form, cipher: string, password: string, server: string, suffix: string, trail: string)
    requires Blank(lead) && Blank(trail) && |scheme| == 5 && IsShadowsocks(scheme)
    requires ':' !in cipher && Fits(form, cipher + ":" + password) && IsServer(server) && IsSuffix(suffix)
    ensures CredentialFromLink(lead + (scheme + Printed(form, cipher + ":" + password, server) + (suffix + trail)))
         == if cipher == "" || password == "" || !IsAddress(server) then Rejected else Credential(password)
  {
    var userinfo := cipher + ":" + password;
    PrintedEndsPlain(form, userinfo, server);
    LinkIsCut(lead, scheme, Printed(form, userinfo, server), suffix, trail);
    assert userinfo[|cipher|] == ':';
    BodyIsRead(form, userinfo, server);
    JudgeSplits(cipher, password, server);
  }
}
