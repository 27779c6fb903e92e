/**
 * The canonical HMAC message of an attestation request (src/session.rs): a
 * printer whose fields are not length-prefixed, and a parser that inverts it.
 * JSON strings follow section 7 of RFC 8259.
 */
module CanonicalMessage {
  import opened Common
  import opened Decimal

  datatype Authorizer = Authorizer(format: string, keyId: string, timestamp: nat, nonce: string)

  datatype Request = Request(timestamp: nat, verb: string, path: string, dobDays: int, authorizer: Authorizer)

  // ----- Printer -----

  function HexDigit(d: nat): char
    requires d < 16
  {
    if d < 10 then DigitChar(d) else 'a' + (d - 10) as char
  }

  /** serde_json's escapes: the two mandatory ones, five short forms, `\u00xx` for other controls. */
  function Escape(c: char): string {
    if c == '\"' then ['\\', '\"']
    else if c == '\\' then ['\\', '\\']
    else if c as int == 8 then ['\\', 'b']
    else if c as int == 9 then ['\\', 't']
    else if c as int == 10 then ['\\', 'n']
    else if c as int == 12 then ['\\', 'f']
    else if c as int == 13 then ['\\', 'r']
    else if c as int < 32 then ['\\', 'u', '0', '0', HexDigit(c as int / 16), HexDigit(c as int % 16)]
    else [c]
  }

  function EscapeAll(s: string): string {
    if s == "" then "" else Escape(s[0]) + EscapeAll(s[1..])
  }

  function JsonString(s: string): string { "\"" + EscapeAll(s) + "\"" }

  function PrintInt(n: int): string { if n < 0 then "-" + Print(-n) else Print(n) }

  // The fixed text between the payload's fields.

  function DobDaysTag(): (s: string) ensures Lacks(s, '{') { "\"dob_days\":" }
  function AuthorizerTag(): (s: string) ensures Lacks(s, '{') && |s| > 0 && !IsDigit(s[0]) { ",\"authorizer\":" }
  function FormatTag(): (s: string) ensures Lacks(s, '{') { "\"format\":" }
  function KeyIdTag(): (s: string) ensures Lacks(s, '{') { ",\"key_id\":" }
  function TimestampTag(): (s: string) ensures Lacks(s, '{') { ",\"timestamp\":" }
  function Closing(): (s: string) ensures Lacks(s, '{') && |s| > 0 && !IsDigit(s[0]) { "}}:" }

  /** The payload is `{` Outer `{` Inner; Inner runs on to the end of the message. */
  function Outer(dobDays: int): string { DobDaysTag() + PrintInt(dobDays) + AuthorizerTag() }

  function Inner(a: Authorizer): string {
    FormatTag() + JsonString(a.format) + KeyIdTag() + JsonString(a.keyId) + TimestampTag() + Print(a.timestamp)
    + Closing() + a.nonce
  }

  function Canonical(r: Request): string {
    Print(r.timestamp) + ":" + r.verb + ":" + r.path + ":{" + Outer(r.dobDays) + "{" + Inner(r.authorizer)
  }

  // ----- Parser -----

  type Parse<T> = Option<(T, string)>

  function ReadLiteral(literal: string, s: string): Option<string> {
    if literal <= s then Some(s[|literal|..]) else None
  }

  function ReadNat(s: string): Parse<nat> {
    var k := DigitRun(s);
    if k == 0 then None else Some((Value(s[..k]), s[k..]))
  }

  function ReadInt(s: string): Parse<int> {
    if s != "" && s[0] == '-' then
      match ReadNat(s[1..])
      case Some((n, rest)) => Some((-(n as int), rest))
      case None => None
    else
      match ReadNat(s)
      case Some((n, rest)) => Some((n, rest))
      case None => None
  }

  /** The text before the first colon. */
  function ReadToColon(s: string): Parse<string> {
    if s == "" then None
    else if s[0] == ':' then Some(("", s[1..]))
    else
      match ReadToColon(s[1..])
      case Some((text, rest)) => Some(([s[0]] + text, rest))
      case None => None
  }

  function HexValue(c: char): Option<nat> {
    if IsDigit(c) then Some(DigitValue(c))
    else if 'a' <= c <= 'f' then Some(10 + (c - 'a') as nat)
    else if 'A' <= c <= 'F' then Some(10 + (c - 'A') as nat)
    else None
  }

  /** Four hexadecimal digits naming a character; surrogates name none. */
  function ReadHex4(s: string): Parse<char> {
    if |s| < 4 then None
    else
      match (HexValue(s[0]), HexValue(s[1]), HexValue(s[2]), HexValue(s[3]))
      case (Some(a), Some(b), Some(c), Some(d)) =>
        var n := ((a * 16 + b) * 16 + c) * 16 + d;
        if n < 0xD800 || 0xE000 <= n < 0x1_0000 then Some((n as char, s[4..])) else None
      case _ => None
  }

  /** What follows a backslash. */
  function ReadEscape(s: string): Parse<char> {
    if s == "" then None
    else
      match s[0]
      case '\"' => Some(('\"', s[1..]))
      case '\\' => Some(('\\', s[1..]))
      case '/' => Some(('/', s[1..]))
      case 'b' => Some((8 as char, s[1..]))
      case 't' => Some((9 as char, s[1..]))
      case 'n' => Some((10 as char, s[1..]))
      case 'f' => Some((12 as char, s[1..]))
      case 'r' => Some((13 as char, s[1..]))
      case 'u' => ReadHex4(s[1..])
      case _ => None
  }

  function ReadChar(s: string): (r: Parse<char>)
    requires s != ""
    ensures r.Some? ==> |r.value.1| < |s|
  {
    if s[0] == '\\' then ReadEscape(s[1..])
    else if s[0] as int < 32 || s[0] == '\"' then None
    else Some((s[0], s[1..]))
  }

  /** The rest of a JSON string after its opening quote. */
  function ReadStringBody(s: string): Parse<string>
    decreases |s|
  {
    if s == "" then None
    else if s[0] == '\"' then Some(("", s[1..]))
    else
      match ReadChar(s)
      case None => None
      case Some((c, rest)) =>
        match ReadStringBody(rest)
        case Some((text, rest')) => Some(([c] + text, rest'))
        case None => None
  }

  function ReadString(s: string): Parse<string> {
    match ReadLiteral("\"", s)
    case Some(rest) => ReadStringBody(rest)
    case None => None
  }

  function ReadOuter(s: string): Parse<int> {
    match ReadLiteral(DobDaysTag(), s) case None => None case Some(s1) =>
    match ReadInt(s1) case None => None case Some((dobDays, s2)) =>
    match ReadLiteral(AuthorizerTag(), s2) case None => None case Some(s3) =>
    Some((dobDays, s3))
  }

  function ReadInner(s: string): Option<Authorizer> {
    match ReadLiteral(FormatTag(), s) case None => None case Some(s1) =>
    match ReadString(s1) case None => None case Some((format, s2)) =>
    match ReadLiteral(KeyIdTag(), s2) case None => None case Some(s3) =>
    match ReadString(s3) case None => None case Some((keyId, s4)) =>
    match ReadLiteral(TimestampTag(), s4) case None => None case Some(s5) =>
    match ReadNat(s5) case None => None case Some((timestamp, s6)) =>
    match ReadLiteral(Closing(), s6) case None => None case Some(nonce) =>
    Some(Authorizer(format, keyId, timestamp, nonce))
  }

  function ReadRequest(s: string): Option<Request> {
    match ReadNat(s) case None => None case Some((timestamp, s1)) =>
    match ReadLiteral(":", s1) case None => None case Some(s2) =>
    match ReadToColon(s2) case None => None case Some((verb, s3)) =>
    match ReadToColon(s3) case None => None case Some((path, s4)) =>
    match ReadLiteral("{", s4) case None => None case Some(s5) =>
    match ReadOuter(s5) case None => None case Some((dobDays, s6)) =>
    match ReadLiteral("{", s6) case None => None case Some(s7) =>
    match ReadInner(s7) case None => None case Some(authorizer) =>
    Some(Request(timestamp, verb, path, dobDays, authorizer))
  }

  // ----- Reading back what was printed -----

  lemma LiteralBack(literal: string, rest: string)
    ensures ReadLiteral(literal, literal + rest) == Some(rest)
  {
  }

  lemma NatBack(n: nat, rest: string)
    requires rest == "" || !IsDigit(rest[0])
    ensures ReadNat(Print(n) + rest) == Some((n, rest))
  {
    DigitRunOfPrint(n, rest);
    ValueOfPrint(n);
    assert (Print(n) + rest)[..|Print(n)|] == Print(n);
  }

  lemma IntBack(n: int, rest: string)
    requires rest == "" || !IsDigit(rest[0])
    ensures ReadInt(PrintInt(n) + rest) == Some((n, rest))
  {
    hide Print, ReadNat;
    if n < 0 {
      NatBack(-n, rest);
      assert (PrintInt(n) + rest)[1..] == Print(-n) + rest;
    } else {
      NatBack(n, rest);
      assert IsDigit((Print(n) + rest)[0]);
    }
  }

  lemma {:induction false} ToColonBack(text: string, rest: string)
    requires ':' !in text
    ensures ReadToColon(text + ":" + rest) == Some((text, rest))
  {
    if text != "" {
      assert (text + ":" + rest)[1..] == text[1..] + ":" + rest;
      ToColonBack(text[1..], rest);
      assert text == [text[0]] + text[1..];
    }
  }

  lemma CharBack(c: char, rest: string)
    ensures Escape(c) != "" && Escape(c)[0] != '\"'
    ensures ReadChar(Escape(c) + rest) == Some((c, rest))
  {
    var s := Escape(c) + rest;
    if |Escape(c)| == 6 {
      assert s[1..][1..] == Escape(c)[2..] + rest;
      assert s[1..][1..][4..] == rest;
    } else if |Escape(c)| == 2 {
      assert s[1..][1..] == rest;
    } else {
      assert s[1..] == rest;
    }
  }

  lemma BodyStep(c: char, tail: string, text: string, rest: string)
    requires ReadStringBody(tail) == Some((text, rest))
    ensures ReadStringBody(Escape(c) + tail) == Some(([c] + text, rest))
  {
    hide Escape, ReadChar;
    CharBack(c, tail);
    assert (Escape(c) + tail)[0] == Escape(c)[0];
  }

  lemma {:induction false} StringBodyBack(text: string, rest: string)
    ensures ReadStringBody(EscapeAll(text) + "\"" + rest) == Some((text, rest))
  {
    if text == "" {
      assert (EscapeAll(text) + "\"" + rest)[1..] == rest;
    } else {
      var tail := EscapeAll(text[1..]) + "\"" + rest;
      assert EscapeAll(text) + "\"" + rest == Escape(text[0]) + tail;
      StringBodyBack(text[1..], rest);
      BodyStep(text[0], tail, text[1..], rest);
      assert text == [text[0]] + text[1..];
    }
  }

  lemma StringBack(text: string, rest: string)
    ensures ReadString(JsonString(text) + rest) == Some((text, rest))
  {
    assert JsonString(text) + rest == "\"" + (EscapeAll(text) + "\"" + rest);
    StringBodyBack(text, rest);
  }

  lemma OuterBack(dobDays: int, rest: string)
    ensures ReadOuter(Outer(dobDays) + rest) == Some((dobDays, rest))
  {
    hide ReadInt, PrintInt, ReadLiteral, DobDaysTag, AuthorizerTag;
    var s2 := AuthorizerTag() + rest;
    var s1 := PrintInt(dobDays) + s2;
    assert Outer(dobDays) + rest == DobDaysTag() + s1;
    LiteralBack(DobDaysTag(), s1);
    IntBack(dobDays, s2);
    LiteralBack(AuthorizerTag(), rest);
  }

  lemma InnerBack(a: Authorizer)
    ensures ReadInner(Inner(a)) == Some(a)
  {
    hide ReadNat, Print, ReadLiteral, ReadString, JsonString, FormatTag, KeyIdTag, TimestampTag, Closing;
    var s6 := Closing() + a.nonce;
    var s5 := Print(a.timestamp) + s6;
    var s4 := TimestampTag() + s5;
    var s3 := JsonString(a.keyId) + s4;
    var s2 := KeyIdTag() + s3;
    var s1 := JsonString(a.format) + s2;
    assert Inner(a) == FormatTag() + s1;
    LiteralBack(FormatTag(), s1);
    StringBack(a.format, s2);
    LiteralBack(KeyIdTag(), s3);
    StringBack(a.keyId, s4);
    LiteralBack(TimestampTag(), s5);
    NatBack(a.timestamp, s6);
    LiteralBack(Closing(), a.nonce);
  }

  /** The parser inverts the printer, whatever the key id, format and nonce hold. */
  lemma RequestBack(r: Request)
    requires ':' !in r.verb && ':' !in r.path
    ensures ReadRequest(Canonical(r)) == Some(r)
  {
    hide ReadNat, Print, ReadLiteral, ReadToColon, ReadOuter, ReadInner, Outer, Inner;
    var s7 := Inner(r.authorizer);
    var s6 := "{" + s7;
    var s5 := Outer(r.dobDays) + s6;
    var s4 := "{" + s5;
    var s3 := r.path + ":" + s4;
    var s2 := r.verb + ":" + s3;
    var s1 := ":" + s2;
    assert Canonical(r) == Print(r.timestamp) + s1;
    NatBack(r.timestamp, s1);
    LiteralBack(":", s2);
    ToColonBack(r.verb, s3);
    ToColonBack(r.path, s4);
    LiteralBack("{", s5);
    OuterBack(r.dobDays, s6);
    LiteralBack("{", s7);
    InnerBack(r.authorizer);
  }

  /** Two requests with colon-free method and path never share a message. */
  lemma CanonicalInjective(r: Request, q: Request)
    requires ':' !in r.verb && ':' !in r.path && ':' !in q.verb && ':' !in q.path
    requires Canonical(r) == Canonical(q)
    ensures r == q
  {
    RequestBack(r);
    RequestBack(q);
  }

  // ----- Validated authorizers, any method and path -----

  predicate Alphanumeric(c: char) { IsDigit(c) || 'a' <= c <= 'z' || 'A' <= c <= 'Z' }

  predicate ValidIdentifier(id: string) {
    id != "" && forall i | 0 <= i < |id| :: Alphanumeric(id[i]) || id[i] in "-_:./@"
  }

  predicate ValidHex(s: string) {
    s != "" && forall i | 0 <= i < |s| :: HexValue(s[i]).Some?
  }

  predicate Validated(a: Authorizer) {
    && (a.format == "yubikey" || a.format == "client")
    && |a.keyId| <= 128 && ValidIdentifier(a.keyId)
    && |a.nonce| == 64 && ValidHex(a.nonce)
  }

  /**
   * The validators, by the characters they allow: letters, digits and seven
   * marks in a key id of 1 to 128 characters; 64 hexadecimal digits of either
   * case in a nonce; two formats.
   */
  lemma ValidatedIff(a: Authorizer)
    ensures Validated(a) <==>
              && a.format in {"yubikey", "client"}
              && 1 <= |a.keyId| <= 128 && (forall i | 0 <= i < |a.keyId| :: InIdentifier(a.keyId[i]))
              && |a.nonce| == 64 && (forall i | 0 <= i < |a.nonce| :: InHex(a.nonce[i]))
  {
  }

  predicate InIdentifier(c: char) {
    || 48 <= c as int <= 57 || 65 <= c as int <= 90 || 97 <= c as int <= 122
    || c == '-' || c == '_' || c == ':' || c == '.' || c == '/' || c == '@'
  }

  predicate InHex(c: char) { 48 <= c as int <= 57 || 65 <= c as int <= 70 || 97 <= c as int <= 102 }

  const HEX: string := "0123456789abcdef"

  /** The serializer's choice among the escapes that JSON allows, character by character. */
  lemma EscapesAreCanonical(c: char)
    ensures c == '\"' ==> Escape(c) == "\\\""
    ensures c == '\\' ==> Escape(c) == "\\\\"
    ensures c as int == 8 ==> Escape(c) == "\\b"
    ensures c as int == 9 ==> Escape(c) == "\\t"
    ensures c as int == 10 ==> Escape(c) == "\\n"
    ensures c as int == 12 ==> Escape(c) == "\\f"
    ensures c as int == 13 ==> Escape(c) == "\\r"
    ensures c as int < 32 && c as int !in {8, 9, 10, 12, 13} ==>
              Escape(c) == "\\u00" + [HEX[c as int / 16], HEX[c as int % 16]]
    ensures c as int >= 32 && c != '\"' && c != '\\' ==> Escape(c) == [c]
  {
  }

  lemma {:induction false} PlainText(s: string)
    requires forall i | 0 <= i < |s| :: s[i] as int >= 32 && s[i] != '\"' && s[i] != '\\'
    ensures EscapeAll(s) == s
  {
    if s != "" {
      PlainText(s[1..]);
    }
  }

  lemma PlainJson(s: string)
    requires EscapeAll(s) == s && Lacks(s, '{')
    ensures Lacks(JsonString(s), '{')
  {
  }

  /** A validated authorizer's text needs no escape, so the only braces are the payload's own. */
  lemma InnerHasNoBrace(a: Authorizer)
    requires Validated(a)
    ensures Lacks(Inner(a), '{')
  {
    hide Print, EscapeAll, FormatTag, KeyIdTag, TimestampTag, Closing;
    PlainText(a.format);
    PlainText(a.keyId);
    PlainJson(a.format);
    PlainJson(a.keyId);
  }

  /** The documented wire text of a validated request: nothing in it is escaped. */
  lemma DocumentedLayout(r: Request)
    requires Validated(r.authorizer)
    ensures Canonical(r) ==
            Print(r.timestamp) + ":" + r.verb + ":" + r.path + ":"
            + "{\"dob_days\":" + PrintInt(r.dobDays)
            + ",\"authorizer\":{\"format\":\"" + r.authorizer.format
            + "\",\"key_id\":\"" + r.authorizer.keyId
            + "\",\"timestamp\":" + Print(r.authorizer.timestamp)
            + "}}:" + r.authorizer.nonce
  {
    hide Print, PrintInt, EscapeAll;
    PlainText(r.authorizer.format);
    PlainText(r.authorizer.keyId);
    assert ":{" == ":" + "{";
    assert "{" + DobDaysTag() == "{\"dob_days\":";
    assert AuthorizerTag() + "{" + FormatTag() + "\"" == ",\"authorizer\":{\"format\":\"";
    assert "\"" + KeyIdTag() + "\"" == "\",\"key_id\":\"";
    assert "\"" + TimestampTag() == "\",\"timestamp\":";
    Regroup(Print(r.timestamp) + ":" + r.verb + ":" + r.path, DobDaysTag(), PrintInt(r.dobDays), AuthorizerTag(),
            FormatTag(), r.authorizer.format, KeyIdTag(), r.authorizer.keyId, TimestampTag(),
            Print(r.authorizer.timestamp), Closing(), r.authorizer.nonce);
  }

  lemma Regroup(head: string, t1: string, d: string, t2: string, t3: string, f: string, t4: string, k: string,
                t5: string, ts: string, t6: string, n: string)
    ensures head + (":" + "{") + (t1 + d + t2)
            + "{" + (t3 + ("\"" + f + "\"") + t4 + ("\"" + k + "\"") + t5 + ts + t6 + n) ==
            head + ":" + ("{" + t1) + d + (t2 + "{" + t3 + "\"") + f
            + ("\"" + t4 + "\"") + k + ("\"" + t5) + ts + t6 + n
  {
  }

  lemma OuterHasNoBrace(dobDays: int)
    ensures Lacks(Outer(dobDays), '{')
  {
    hide Print, DobDaysTag, AuthorizerTag;
    assert Lacks(PrintInt(dobDays), '{');
  }

  /** Everything before the payload's opening brace. */
  function Head(r: Request): string { Print(r.timestamp) + ":" + (r.verb + ":" + r.path + ":") }

  lemma CanonicalSplit(r: Request)
    ensures Canonical(r) == (Head(r) + ['{'] + Outer(r.dobDays)) + ['{'] + Inner(r.authorizer)
  {
    hide Print, Outer, Inner;
    assert ":{" == ":" + ['{'];
  }

  lemma HeadFixes(r: Request, q: Request)
    requires Head(r) == Head(q)
    ensures r.timestamp == q.timestamp && r.verb + ":" + r.path == q.verb + ":" + q.path
  {
    hide Print;
    SplitAtFirst(Print(r.timestamp), r.verb + ":" + r.path + ":", Print(q.timestamp), q.verb + ":" + q.path + ":", ':');
    PrintInjective(r.timestamp, q.timestamp);
    var both, both' := r.verb + ":" + r.path, q.verb + ":" + q.path;
    assert both == (both + ":")[..|both|] && both' == (both' + ":")[..|both'|];
  }

  lemma OuterFixes(d: int, e: int)
    requires Outer(d) == Outer(e)
    ensures d == e
  {
    hide Outer, ReadOuter;
    OuterBack(d, "");
    OuterBack(e, "");
  }

  /**
   * With validated authorizers and any method and path at all, the message
   * fixes everything except where the method ends and the path begins.
   */
  lemma MessageFixesAllButTheMethodPathSplit(r: Request, q: Request)
    requires Validated(r.authorizer) && Validated(q.authorizer)
    ensures Canonical(r) == Canonical(q) <==>
              && r.timestamp == q.timestamp && r.dobDays == q.dobDays && r.authorizer == q.authorizer
              && r.verb + ":" + r.path == q.verb + ":" + q.path
  {
    hide Outer, Inner, Canonical, Print, Validated, ReadInner;
    CanonicalSplit(r);
    CanonicalSplit(q);
    if Canonical(r) == Canonical(q) {
      InnerHasNoBrace(r.authorizer);
      InnerHasNoBrace(q.authorizer);
      OuterHasNoBrace(r.dobDays);
      OuterHasNoBrace(q.dobDays);
      SplitAtLast(Head(r) + ['{'] + Outer(r.dobDays), Inner(r.authorizer),
                  Head(q) + ['{'] + Outer(q.dobDays), Inner(q.authorizer), '{');
      SplitAtLast(Head(r), Outer(r.dobDays), Head(q), Outer(q.dobDays), '{');
      HeadFixes(r, q);
      OuterFixes(r.dobDays, q.dobDays);
      InnerBack(r.authorizer);
      InnerBack(q.authorizer);
    }
  }

  /** So a colon-free method is enough: the path may hold colons. */
  lemma ColonFreeMethodSuffices(r: Request, q: Request)
    requires Validated(r.authorizer) && Validated(q.authorizer)
    requires Lacks(r.verb, ':') && Lacks(q.verb, ':')
    requires Canonical(r) == Canonical(q)
    ensures r == q
  {
    MessageFixesAllButTheMethodPathSplit(r, q);
    SplitAtFirst(r.verb, r.path, q.verb, q.path, ':');
  }

  /** And it is needed: a colon in a method is taken for the separator. */
  lemma ColonInMethodCollides(timestamp: nat, dobDays: int, a: Authorizer, x: string, y: string, z: string)
    ensures Canonical(Request(timestamp, x + ":" + y, z, dobDays, a)) ==
            Canonical(Request(timestamp, x, y + ":" + z, dobDays, a))
  {
    assert (x + ":" + y) + ":" + z == x + ":" + (y + ":" + z);
  }
}
