/**
 Detached JWS signatures with an unencoded payload (RFC 7797).  Text stands for its UTF-8 bytes; RSA
 is a pair of functions, and where a result needs verification to undo signing it says so.
 */
module Jws {
  import opened Base64Url
  import opened BigEndian
  import opened JsonReader
  import opened Octets
  import opened Wrappers

  datatype PublicKey = PublicKey(n: nat, e: nat)

  /** RSASSA-PKCS1-v1_5 with SHA-256, and the key numbers the library agrees to build a key from. */
  datatype Rsa = Rsa(
    sign: (nat, string) -> Bytes,
    verify: (PublicKey, string, Bytes) -> bool,
    usable: PublicKey -> bool)

  /** A signer's key pair: its private key, by handle, and the public numbers. */
  datatype Signer = Signer(kid: string, privateKey: nat, publicKey: PublicKey)

  /** What the signer makes with its private key, its public key verifies. */
  ghost predicate Correct(rsa: Rsa, signer: Signer) {
    rsa.usable(signer.publicKey) &&
    forall m :: rsa.verify(signer.publicKey, m, rsa.sign(signer.privateKey, m))
  }

  /** The fields of a public JWK that hold key material. */
  datatype Jwk = Jwk(kid: string, n: string, e: string)

  // ------------------------------------------------------------------------------------------
  // Header
  // ------------------------------------------------------------------------------------------

  function HexDigit(n: int): (c: char)
    requires 0 <= n < 16
    ensures c < 128 as char
  {
    if n < 10 then '0' + n as char else 'a' + (n - 10) as char
  }

  function HexEscape(unit: int): (t: string)
    requires 0 <= unit < 0x10000
    ensures Ascii(t)
  {
    ['\\', 'u', HexDigit(unit / 4096), HexDigit(unit / 256 % 16), HexDigit(unit / 16 % 16), HexDigit(unit % 16)]
  }

  /** `json.dumps` of one character: ASCII out, everything else as UTF-16 escapes. */
  function DumpChar(c: char): (t: string)
    ensures Ascii(t)
  {
    var u := c as int;
    if c == '\"' then ['\\', '\"']
    else if c == '\\' then ['\\', '\\']
    else if c == '\n' then ['\\', 'n']
    else if c == '\r' then ['\\', 'r']
    else if c == '\t' then ['\\', 't']
    else if u == 8 then ['\\', 'b']
    else if u == 12 then ['\\', 'f']
    else if 32 <= u < 127 then [c]
    else if u < 0x10000 then HexEscape(u)
    else HexEscape(0xD800 + (u - 0x10000) / 1024) + HexEscape(0xDC00 + (u - 0x10000) % 1024)
  }

  function DumpChars(s: string): (t: string)
    ensures Ascii(t)
  {
    if s == "" then "" else DumpChar(s[0]) + DumpChars(s[1..])
  }

  /** `json.dumps` of a string. */
  function Dump(s: string): (t: string)
    ensures Ascii(t)
  {
    "\"" + DumpChars(s) + "\""
  }

  /** A member, its name dumped: a space after the colon, and one after the comma before it. */
  function Member(first: bool, name: string, value: string, rest: string): (t: string)
    ensures Ascii(name) && Ascii(value) && Ascii(rest) ==> Ascii(t)
  {
    (if first then "" else ", ") + (name + (": " + (value + rest)))
  }

  /** The protected header as `json.dumps` writes it. */
  function HeaderText(kid: string): (t: string)
    ensures Ascii(t)
  {
    InBraces(Member(true, Dump("alg"), Dump("RS256"), FromKid(kid)))
  }

  function InBraces(members: string): (t: string)
    ensures Ascii(members) ==> Ascii(t)
  {
    ['{'] + members
  }

  function FromKid(kid: string): (t: string)
    ensures Ascii(t)
  {
    Member(false, Dump("kid"), Dump(kid), FromB64())
  }

  function FromB64(): (t: string)
    ensures Ascii(t)
  {
    Member(false, Dump("b64"), False(), FromCrit())
  }

  function False(): (t: string)
    ensures Ascii(t)
  {
    "false"
  }

  function FromCrit(): (t: string)
    ensures Ascii(t)
  {
    Member(false, Dump("crit"), Listed(Dump("b64")), "}")
  }

  function Listed(item: string): (t: string)
    ensures Ascii(item) ==> Ascii(t)
  {
    "[" + item + "]"
  }

  function AsciiBytes(t: string): (b: Bytes)
    requires Ascii(t)
    ensures |b| == |t| && forall i :: 0 <= i < |t| ==> b[i] == t[i] as int
  {
    seq(|t|, i requires 0 <= i < |t| => t[i] as int)
  }

  function Header(kid: string): Bytes {
    AsciiBytes(HeaderText(kid))
  }

  /** What is printable ASCII is written as it is, but for quote and backslash; everything else is escaped. */
  lemma DumpShape(c: char)
    ensures |DumpChar(c)| ==
      if c == '\"' || c == '\\' || c as int in {8, 9, 10, 12, 13} then 2
      else if ' ' <= c <= '~' then 1 else if c as int < 0x10000 then 6 else 12
    ensures forall i :: 2 <= i < |DumpChar(c)| ==>
      '0' <= DumpChar(c)[i] <= '9' || 'a' <= DumpChar(c)[i] <= 'f' || (i == 6 && DumpChar(c)[i] == '\\') ||
      (i == 7 && DumpChar(c)[i] == 'u')
  {
  }

  lemma HexDigitReadsBack(n: int)
    requires 0 <= n < 16
    ensures HexValue(HexDigit(n)) == Some(n)
  {
  }

  lemma FourDigits(unit: int)
    requires 0 <= unit < 0x10000
    ensures 0 <= unit / 4096 < 16
    ensures ((unit / 4096 * 16 + unit / 256 % 16) * 16 + unit / 16 % 16) * 16 + unit % 16 == unit
  {
    assert unit / 256 == unit / 4096 * 16 + unit / 256 % 16;
    assert unit / 16 == unit / 256 * 16 + unit / 16 % 16;
  }

  lemma FourRead(a: int, b: int, c: int, d: int, u: string)
    requires 0 <= a < 16 && 0 <= b < 16 && 0 <= c < 16 && 0 <= d < 16
    ensures CodeUnit([HexDigit(a), HexDigit(b), HexDigit(c), HexDigit(d)] + u) == Some(((a * 16 + b) * 16 + c) * 16 + d)
  {
    var t := [HexDigit(a), HexDigit(b), HexDigit(c), HexDigit(d)] + u;
    HexDigitReadsBack(a);
    HexDigitReadsBack(b);
    HexDigitReadsBack(c);
    HexDigitReadsBack(d);
    assert t[0] == HexDigit(a) && t[1] == HexDigit(b) && t[2] == HexDigit(c) && t[3] == HexDigit(d);
  }

  lemma HexReadsBack(unit: int, u: string)
    requires 0 <= unit < 0x10000
    ensures CodeUnit(HexEscape(unit)[2..] + u) == Some(unit)
  {
    FourDigits(unit);
    FourRead(unit / 4096, unit / 256 % 16, unit / 16 % 16, unit % 16, u);
    assert HexEscape(unit)[2..] ==
      [HexDigit(unit / 4096), HexDigit(unit / 256 % 16), HexDigit(unit / 16 % 16), HexDigit(unit % 16)];
  }

  lemma EscapedUnitReadsBack(unit: int, u: string)
    requires 0 <= unit < 0xD800 || 0xE000 <= unit < 0x10000
    ensures ReadChar(HexEscape(unit) + u) == Reads(unit as char, u)
  {
    var t := HexEscape(unit) + u;
    HexReadsBack(unit, u);
    assert t[2..] == HexEscape(unit)[2..] + u && t[2..][4..] == u;
  }

  lemma PairIsRead(t: string, high: int, low: int, u: string)
    requires 0xD800 <= high < 0xDC00 && 0xDC00 <= low < 0xE000
    requires CodeUnit(t) == Some(high) && |t| >= 10 && t[4] == '\\' && t[5] == 'u' && CodeUnit(t[6..]) == Some(low)
    requires t[10..] == u
    ensures ReadUnicode(t) == Reads((0x10000 + (high - 0xD800) * 0x400 + (low - 0xDC00)) as char, u)
  {
  }

  lemma UnicodeEscapeReads(t: string)
    ensures ReadChar(['\\', 'u'] + t) == ReadUnicode(t)
  {
    assert (['\\', 'u'] + t)[2..] == t;
  }

  lemma PairReadsBack(c: char, u: string)
    requires c as int >= 0x10000
    ensures ReadChar(DumpChar(c) + u) == Reads(c, u)
  {
    var high, low := 0xD800 + (c as int - 0x10000) / 1024, 0xDC00 + (c as int - 0x10000) % 1024;
    HexReadsBack(high, HexEscape(low) + u);
    HexReadsBack(low, u);
    PairText(c, high, low, u);
    PairParts(HexEscape(high), HexEscape(low), high, low, u);
  }

  lemma PairParts(x: string, y: string, high: int, low: int, u: string)
    requires 0xD800 <= high < 0xDC00 && 0xDC00 <= low < 0xE000
    requires |x| == |y| == 6 && y[0] == '\\' && y[1] == 'u'
    requires CodeUnit(x[2..] + (y + u)) == Some(high) && CodeUnit(y[2..] + u) == Some(low)
    ensures ReadChar(['\\', 'u'] + (x[2..] + (y + u))) ==
      Reads((0x10000 + (high - 0xD800) * 0x400 + (low - 0xDC00)) as char, u)
  {
    var t := x[2..] + (y + u);
    assert t[6..] == y[2..] + u && t[10..] == u && t[4] == y[0] && t[5] == y[1];
    PairIsRead(t, high, low, u);
    UnicodeEscapeReads(t);
  }

  lemma PairText(c: char, high: int, low: int, u: string)
    requires c as int >= 0x10000
    requires high == 0xD800 + (c as int - 0x10000) / 1024 && low == 0xDC00 + (c as int - 0x10000) % 1024
    ensures DumpChar(c) + u == ['\\', 'u'] + (HexEscape(high)[2..] + (HexEscape(low) + u))
    ensures 0x10000 + (high - 0xD800) * 0x400 + (low - 0xDC00) == c as int
  {
    assert HexEscape(high) == ['\\', 'u'] + HexEscape(high)[2..];
  }

  lemma ShortReadsBack(d: string, c: char, u: string)
    requires |d| == 1 ==> d[0] == c && c >= ' ' && c != '\\'
    requires |d| == 2 ==> d[0] == '\\' && d[1] != 'u' && ReadChar(d) == Reads(c, "")
    requires |d| == 1 || |d| == 2
    ensures ReadChar(d + u) == Reads(c, u)
  {
    var t := d + u;
    assert t[0] == d[0] && (|d| == 1 ==> t[1..] == u) && (|d| == 2 ==> t[1] == d[1] && t[2..] == u);
    assert |d| == 2 ==> d[2..] == "";
  }

  lemma DumpedCharReadsBack(c: char, u: string)
    ensures DumpChar(c) != "" && DumpChar(c)[0] != '\"' && ReadChar(DumpChar(c) + u) == Reads(c, u)
  {
    if c as int >= 0x10000 {
      PairReadsBack(c, u);
    } else if |DumpChar(c)| == 6 {
      EscapedUnitReadsBack(c as int, u);
    } else {
      ShortReadsBack(DumpChar(c), c, u);
    }
  }

  lemma CharThenString(d: string, c: char, rest: string, s: string, u: string)
    requires d != "" && d[0] != '\"' && ReadChar(d + rest) == Reads(c, rest) && ReadString(rest) == Reads(s, u)
    ensures ReadString(d + rest) == Reads([c] + s, u)
  {
    assert (d + rest)[0] == d[0];
  }

  lemma {:induction false} DumpedReadsBack(s: string, u: string)
    ensures ReadString(DumpChars(s) + (['\"'] + u)) == Reads(s, u)
  {
    if s == "" {
      assert DumpChars(s) + (['\"'] + u) == ['\"'] + u && (['\"'] + u)[1..] == u;
    } else {
      var rest := DumpChars(s[1..]) + (['\"'] + u);
      DumpedCharReadsBack(s[0], rest);
      DumpedReadsBack(s[1..], u);
      CharThenString(DumpChar(s[0]), s[0], rest, s[1..], u);
      FirstDumped(s, ['\"'] + u);
      assert [s[0]] + s[1..] == s;
    }
  }

  lemma FirstDumped(s: string, u: string)
    requires s != ""
    ensures DumpChars(s) + u == DumpChar(s[0]) + (DumpChars(s[1..]) + u)
  {
  }

  /** A dumped string is quoted, and read back up to its closing quote. */
  predicate ReadsAs(text: string, s: string, u: string) {
    text != "" && text[0] == '\"' && ReadString((text + u)[1..]) == Reads(s, u)
  }

  lemma DumpReadsAs(s: string, u: string)
    ensures ReadsAs(Dump(s), s, u)
  {
    DumpedReadsBack(s, u);
    QuotesAround(DumpChars(s), u);
  }

  lemma QuotesAround(d: string, u: string)
    ensures ("\"" + d + "\"" + u)[1..] == d + (['\"'] + u)
  {
  }

  lemma StringValue(text: string, s: string, u: string)
    requires ReadsAs(text, s, u)
    ensures ReadValue(text + u) == Reads(Str(s), u)
  {
    assert (text + u)[0] == '\"' && Skip(text + u) == text + u;
  }

  lemma SpaceIsSkipped(t: string)
    ensures Skip([' '] + t) == Skip(t) && ReadValue([' '] + t) == ReadValue(t)
  {
    assert ([' '] + t)[1..] == t;
  }

  lemma MemberReads(
      first: bool, name: string, k: string, value: string, v: Json, rest: string, members: map<string, Json>,
      u: string)
    requires ReadsAs(name, k, [':'] + ([' '] + (value + rest)))
    requires ReadValue(value + rest) == Reads(v, rest) && ReadMembers(rest, false) == Reads(members, u)
    ensures ReadMembers(Member(first, name, value, rest), first) == Reads(map[k := v] + members, u)
  {
    var afterColon := [' '] + (value + rest);
    var quoted := name + ([':'] + afterColon);
    SpaceIsSkipped(value + rest);
    QuotedMemberReads(first, quoted, k, afterColon, v, rest, members, u);
    assert ": " + (value + rest) == [':'] + afterColon;
    assert Member(first, name, value, rest) == if first then quoted else [','] + ([' '] + quoted);
  }

  lemma QuotedMemberReads(
      first: bool, quoted: string, k: string, value: string, v: Json, rest: string, members: map<string, Json>,
      u: string)
    requires quoted != "" && quoted[0] == '\"' && ReadString(quoted[1..]) == Reads(k, [':'] + value)
    requires ReadValue(value) == Reads(v, rest) && ReadMembers(rest, false) == Reads(members, u)
    ensures ReadMembers(if first then quoted else [','] + ([' '] + quoted), first) == Reads(map[k := v] + members, u)
  {
    var t := if first then quoted else [','] + ([' '] + quoted);
    SpaceIsSkipped(quoted);
    assert Skip(quoted) == quoted && Skip(t) == t;
    assert !first ==> t[1..] == [' '] + quoted;
    assert Skip([':'] + value) == [':'] + value && ([':'] + value)[1..] == value;
  }

  lemma ListValue(text: string, s: string, u: string)
    requires ReadsAs(text, s, "]" + u)
    ensures ReadValue(Listed(text) + u) == Reads(Arr([Str(s)]), u)
  {
    var t, items, last := Listed(text) + u, text + ("]" + u), "]" + u;
    assert t == ['['] + items && t[1..] == items && Skip(t) == t;
    StringValue(text, s, last);
    assert items[0] == '\"' && Skip(items) == items;
    assert Skip(last) == last && last[1..] == u;
    assert ReadItems(last, false) == Reads([], u);
    assert [Str(s)] + [] == [Str(s)];
  }

  lemma FalseReadsBack(u: string)
    ensures ReadValue("false" + u) == Reads(Bool(false), u)
  {
    var t := "false" + u;
    assert t[0] == 'f' && Skip(t) == t && t[5..] == u;
  }

  lemma BraceReads(t: string, members: map<string, Json>)
    requires ReadMembers(t, true) == Reads(members, "")
    ensures ReadValue(InBraces(t)) == Reads(Obj(members), "")
  {
    assert Skip(InBraces(t)) == InBraces(t) && InBraces(t)[1..] == t;
  }

  lemma CritReadsBack()
    ensures ReadMembers(FromCrit(), false) == Reads(map["crit" := Arr([Str("b64")])] + map[], "")
  {
    DumpReadsAs("b64", "]" + "}");
    ListValue(Dump("b64"), "b64", "}");
    assert "}"[1..] == "" && ReadMembers("}", false) == Reads(map[], "");
    DumpReadsAs("crit", [':'] + ([' '] + (Listed(Dump("b64")) + "}")));
    MemberReads(false, Dump("crit"), "crit", Listed(Dump("b64")), Arr([Str("b64")]), "}", map[], "");
  }

  lemma B64ReadsBack(u: string, members: map<string, Json>)
    requires ReadMembers(u, false) == Reads(members, "")
    ensures ReadMembers(Member(false, Dump("b64"), "false", u), false) == Reads(map["b64" := Bool(false)] + members, "")
  {
    FalseReadsBack(u);
    DumpReadsAs("b64", [':'] + ([' '] + ("false" + u)));
    MemberReads(false, Dump("b64"), "b64", "false", Bool(false), u, members, "");
  }

  lemma TextMemberReads(first: bool, k: string, s: string, u: string, members: map<string, Json>)
    requires ReadMembers(u, false) == Reads(members, "")
    ensures ReadMembers(Member(first, Dump(k), Dump(s), u), first) == Reads(map[k := Str(s)] + members, "")
  {
    DumpReadsAs(s, u);
    StringValue(Dump(s), s, u);
    DumpReadsAs(k, [':'] + ([' '] + (Dump(s) + u)));
    MemberReads(first, Dump(k), k, Dump(s), Str(s), u, members, "");
  }

  /**
   What the header says to any reader of JSON: RS256, this key, an unencoded payload, and that a verifier
   must understand the latter (sections 3 and 6 of RFC 7797).
   */
  lemma HeaderReadsBack(kid: string)
    ensures ReadValue(HeaderText(kid)) == Reads(
      Obj(map["alg" := Str("RS256")] + (map["kid" := Str(kid)] +
            (map["b64" := Bool(false)] + (map["crit" := Arr([Str("b64")])] + map[])))), "")
  {
    var crit: map<string, Json> := map["crit" := Arr([Str("b64")])] + map[];
    var b64 := map["b64" := Bool(false)] + crit;
    CritReadsBack();
    B64ReadsBack(FromCrit(), crit);
    TextMemberReads(false, "kid", kid, FromB64(), b64);
    TextMemberReads(true, "alg", "RS256", FromKid(kid), map["kid" := Str(kid)] + b64);
    BraceReads(Member(true, Dump("alg"), Dump("RS256"), FromKid(kid)),
               map["alg" := Str("RS256")] + (map["kid" := Str(kid)] + b64));
  }

  // ------------------------------------------------------------------------------------------
  // Signing and verifying
  // ------------------------------------------------------------------------------------------

  function SigningInput(header: string, payload: string): string {
    header + "." + payload
  }

  function SignatureText(rsa: Rsa, signer: Signer, payload: string): string {
    Encode(rsa.sign(signer.privateKey, SigningInput(Encode(Header(signer.kid)), payload)))
  }

  function Sign(rsa: Rsa, signer: Signer, payload: string): string {
    Encode(Header(signer.kid)) + ".." + SignatureText(rsa, signer, payload)
  }

  /** `str.split(".")`. */
  function Split(s: string): (parts: seq<string>)
    ensures parts != []
  {
    if s == "" then [""]
    else if s[0] == '.' then [""] + Split(s[1..])
    else
      var rest := Split(s[1..]);
      [[s[0]] + rest[0]] + rest[1..]
  }

  function Verify(rsa: Rsa, signer: Signer, detached: string, payload: string): bool {
    var parts := Split(detached);
    if |parts| != 3 then false
    else
      match Decode(parts[2])
      case None => false
      case Some(signature) => rsa.verify(signer.publicKey, SigningInput(parts[0], payload), signature)
  }

  function PublicJwk(signer: Signer): Jwk {
    ByteLengthFits(signer.publicKey.n);
    ByteLengthFits(signer.publicKey.e);
    Jwk(signer.kid,
        Encode(ToBytes(signer.publicKey.n, ByteLength(signer.publicKey.n))),
        Encode(ToBytes(signer.publicKey.e, ByteLength(signer.publicKey.e))))
  }

  datatype Outcome = Raised | Verdict(ok: bool)

  /** The static verifier decodes the signature outside its `try`, so undecodable text raises. */
  function VerifyWithPublicKey(rsa: Rsa, detached: string, payload: string, jwk: Jwk): Outcome {
    var parts := Split(detached);
    if |parts| != 3 then Verdict(false)
    else
      match (Decode(jwk.n), Decode(jwk.e))
      case (Some(n), Some(e)) =>
        var key := PublicKey(FromBytes(n), FromBytes(e));
        if !rsa.usable(key) then Raised
        else
          (match Decode(parts[2])
           case None => Raised
           case Some(signature) => Verdict(rsa.verify(key, SigningInput(parts[0], payload), signature)))
      case _ => Raised
  }

  // ------------------------------------------------------------------------------------------
  // Properties
  // ------------------------------------------------------------------------------------------

  predicate NoDot(s: string) {
    '.' !in s
  }

  /** The parts, with dots in between. */
  function Join(parts: seq<string>): string
    requires parts != []
  {
    if |parts| == 1 then parts[0] else parts[0] + "." + Join(parts[1..])
  }

  /** Splitting loses nothing and leaves no dot inside a part. */
  lemma {:induction false} SplitThenJoin(s: string)
    ensures Join(Split(s)) == s && forall i :: 0 <= i < |Split(s)| ==> NoDot(Split(s)[i])
  {
    if s != "" {
      SplitThenJoin(s[1..]);
      if s[0] == '.' {
        JoinDot(Split(s[1..]));
      } else {
        JoinLetter(s[0], Split(s[1..]));
      }
    }
  }

  lemma JoinDot(rest: seq<string>)
    requires rest != []
    ensures Join([""] + rest) == "." + Join(rest)
  {
    assert ([""] + rest)[1..] == rest;
  }

  lemma JoinLetter(c: char, rest: seq<string>)
    requires rest != []
    ensures Join([[c] + rest[0]] + rest[1..]) == [c] + Join(rest)
  {
    var parts := [[c] + rest[0]] + rest[1..];
    assert parts[1..] == rest[1..];
    if |rest| > 1 {
      assert [c] + rest[0] + "." + Join(rest[1..]) == [c] + (rest[0] + "." + Join(rest[1..]));
    }
  }

  lemma {:induction false} SplitWord(s: string)
    requires NoDot(s)
    ensures Split(s) == [s]
  {
    if s != "" {
      assert s[0] in s && forall c :: c in s[1..] ==> c in s;
      SplitWord(s[1..]);
      assert [s[0]] + s[1..] == s;
    }
  }

  lemma {:induction false} SplitFirst(s: string, rest: string)
    requires NoDot(s)
    ensures Split(s + "." + rest) == [s] + Split(rest)
  {
    var t := s + "." + rest;
    if s == "" {
      assert t[1..] == rest;
    } else {
      assert s[0] in s && forall c :: c in s[1..] ==> c in s;
      assert t[1..] == s[1..] + "." + rest;
      SplitFirst(s[1..], rest);
      assert [s[0]] + s[1..] == s;
    }
  }

  lemma EncodedHasNoDot(d: Bytes)
    ensures NoDot(Encode(d))
  {
    EncodedShape(d);
  }

  lemma ThreeParts(h: string, s: string)
    requires NoDot(h) && NoDot(s)
    ensures Split(h + ".." + s) == [h, "", s]
  {
    assert h + ".." + s == h + "." + ("" + "." + s);
    SplitFirst(h, "" + "." + s);
    SplitFirst("", s);
    SplitWord(s);
  }

  /** A signature splits into exactly three parts: the header, an empty payload, the signature. */
  lemma SignatureHasThreeParts(rsa: Rsa, signer: Signer, payload: string)
    ensures Split(Sign(rsa, signer, payload)) ==
      [Encode(Header(signer.kid)), "",
       Encode(rsa.sign(signer.privateKey, Encode(Header(signer.kid)) + "." + payload))]
    ensures Decode(Split(Sign(rsa, signer, payload))[0]) == Some(AsciiBytes(HeaderText(signer.kid)))
  {
    var h := Header(signer.kid);
    RoundTrip(h);
    var signature := rsa.sign(signer.privateKey, SigningInput(Encode(h), payload));
    EncodedHasNoDot(h);
    EncodedHasNoDot(signature);
    ThreeParts(Encode(h), Encode(signature));
  }

  /** The key numbers survive the trip through the published key. */
  lemma JwkRoundTrip(signer: Signer)
    ensures var jwk := PublicJwk(signer);
      && jwk.kid == signer.kid
      && Decode(jwk.n).Some? && FromBytes(Decode(jwk.n).value) == signer.publicKey.n
      && Decode(jwk.e).Some? && FromBytes(Decode(jwk.e).value) == signer.publicKey.e
  {
    var n, e := signer.publicKey.n, signer.publicKey.e;
    ByteLengthFits(n);
    ByteLengthFits(e);
    RoundTrip(ToBytes(n, ByteLength(n)));
    RoundTrip(ToBytes(e, ByteLength(e)));
    BytesRoundTrip(n, ByteLength(n));
    BytesRoundTrip(e, ByteLength(e));
  }

  /** The two verifiers agree on every text and payload, but for the exception one of them lets out. */
  lemma VerifiersAgree(rsa: Rsa, signer: Signer, detached: string, payload: string)
    requires rsa.usable(signer.publicKey)
    ensures VerifyWithPublicKey(rsa, detached, payload, PublicJwk(signer)) ==
      if |Split(detached)| == 3 && Decode(Split(detached)[2]).None? then Raised
      else Verdict(Verify(rsa, signer, detached, payload))
  {
    JwkRoundTrip(signer);
  }

  /**
   Signature text over the URL alphabet that is one letter longer than a multiple of four, as a single
   letter is: one verifier refuses it, the other raises.
   */
  lemma UndecodableSignatureSplits(rsa: Rsa, signer: Signer, header: string, signature: string, payload: string)
    requires rsa.usable(signer.publicKey) && NoDot(header)
    requires |signature| % 4 == 1 && forall i :: 0 <= i < |signature| ==> UrlLetter(signature[i])
    ensures !Verify(rsa, signer, header + ".." + signature, payload)
    ensures VerifyWithPublicKey(rsa, header + ".." + signature, payload, PublicJwk(signer)) == Raised
  {
    ThreeParts(header, signature);
    DecodableExactly(signature);
    VerifiersAgree(rsa, signer, header + ".." + signature, payload);
  }

  /** For one: an empty header and the letter A. */
  lemma LetterIsUndecodable(rsa: Rsa, signer: Signer, payload: string) returns (detached: string)
    requires rsa.usable(signer.publicKey)
    ensures detached == "..A" && !Verify(rsa, signer, detached, payload)
    ensures VerifyWithPublicKey(rsa, detached, payload, PublicJwk(signer)) == Raised
  {
    var header: string, signature := "", ['A'];
    detached := header + ".." + signature;
    assert UrlLetter('A');
    UndecodableSignatureSplits(rsa, signer, header, signature, payload);
  }

  /** The text consists of these three parts, and the first and the last verify the payload. */
  predicate AcceptedParts(
      rsa: Rsa, signer: Signer, payload: string, detached: string, header: string, middle: string, signature: string)
  {
    && detached == header + "." + middle + "." + signature
    && NoDot(header) && NoDot(middle) && NoDot(signature) && Decode(signature).Some?
    && rsa.verify(signer.publicKey, header + "." + payload, Decode(signature).value)
  }

  lemma SplitThree(header: string, middle: string, signature: string)
    requires NoDot(header) && NoDot(middle) && NoDot(signature)
    ensures Split(header + "." + middle + "." + signature) == [header, middle, signature]
  {
    assert header + "." + middle + "." + signature == header + "." + (middle + "." + signature);
    SplitFirst(header, middle + "." + signature);
    SplitFirst(middle, signature);
    SplitWord(signature);
  }

  /**
   The texts the verifier accepts for a payload: three parts without dots, any middle one, and a
   signature of the first part and the payload.
   */
  lemma AcceptedExactly(rsa: Rsa, signer: Signer, detached: string, payload: string)
    ensures Verify(rsa, signer, detached, payload) <==>
      exists header, middle, signature :: AcceptedParts(rsa, signer, payload, detached, header, middle, signature)
  {
    SplitThenJoin(detached);
    var parts := Split(detached);
    if Verify(rsa, signer, detached, payload) {
      JoinThree(parts);
      assert AcceptedParts(rsa, signer, payload, detached, parts[0], parts[1], parts[2]);
    }
    if header, middle, signature :| AcceptedParts(rsa, signer, payload, detached, header, middle, signature) {
      SplitThree(header, middle, signature);
    }
  }

  lemma JoinThree(parts: seq<string>)
    requires |parts| == 3
    ensures Join(parts) == parts[0] + "." + parts[1] + "." + parts[2]
  {
    var rest := parts[1..];
    assert Join(rest[1..]) == parts[2];
    assert Join(rest) == parts[1] + "." + parts[2];
    assert Join(parts) == parts[0] + "." + (parts[1] + "." + parts[2]);
  }

  /** So a text with something in the middle is as good as the detached form without it. */
  lemma MiddleIsIgnored(
      rsa: Rsa, signer: Signer, payload: string, header: string, middle: string, signature: string)
    requires NoDot(header) && NoDot(middle) && NoDot(signature)
    ensures Verify(rsa, signer, header + "." + middle + "." + signature, payload)
         == Verify(rsa, signer, header + ".." + signature, payload)
  {
    SplitThree(header, middle, signature);
    ThreeParts(header, signature);
  }

  /** Both verifiers accept what the signer made. */
  lemma SignThenVerify(rsa: Rsa, signer: Signer, payload: string)
    requires Correct(rsa, signer)
    ensures Verify(rsa, signer, Sign(rsa, signer, payload), payload)
    ensures VerifyWithPublicKey(rsa, Sign(rsa, signer, payload), payload, PublicJwk(signer)) == Verdict(true)
  {
    var h := Encode(Header(signer.kid));
    SignatureHasThreeParts(rsa, signer, payload);
    RoundTrip(rsa.sign(signer.privateKey, SigningInput(h, payload)));
    var input := SigningInput(h, payload);
    assert rsa.verify(signer.publicKey, input, rsa.sign(signer.privateKey, input));
    VerifiersAgree(rsa, signer, Sign(rsa, signer, payload), payload);
  }

  /** A signing input built from parts of a detached signature determines the header and the payload. */
  lemma SigningInputIdentifies(d: string, payload: string, d': string, payload': string)
    requires SigningInput(Split(d)[0], payload) == SigningInput(Split(d')[0], payload')
    ensures Split(d)[0] == Split(d')[0] && payload == payload'
  {
    SplitThenJoin(d);
    SplitThenJoin(d');
    var h, h' := Split(d)[0], Split(d')[0];
    SplitFirst(h, payload);
    SplitFirst(h', payload');
    assert ([h] + Split(payload))[0] == h && ([h'] + Split(payload'))[0] == h';
    assert payload == SigningInput(h, payload)[|h| + 1..] && payload' == SigningInput(h', payload')[|h'| + 1..];
  }
}
