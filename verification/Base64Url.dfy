/** Unpadded base64url (section 5 of RFC 4648, Appendix C of RFC 7515) as the signer uses it. */
module Base64Url {
  import opened Octets
  import opened Wrappers

  type Sextet = x: int | 0 <= x < 64

  function Letter(v: Sextet): char {
    if v < 26 then 'A' + v as char
    else if v < 52 then 'a' + (v - 26) as char
    else if v < 62 then '0' + (v - 52) as char
    else if v == 62 then '-' else '_'
  }

  /** The value of a letter.  The decoder also takes the two letters of the standard alphabet. */
  function Value(c: char): Option<Sextet> {
    if 'A' <= c <= 'Z' then Some((c - 'A') as int)
    else if 'a' <= c <= 'z' then Some((c - 'a') as int + 26)
    else if '0' <= c <= '9' then Some((c - '0') as int + 52)
    else if c == '-' || c == '+' then Some(62)
    else if c == '_' || c == '/' then Some(63)
    else None
  }

  // ------------------------------------------------------------------------------------------
  // Encoding
  // ------------------------------------------------------------------------------------------

  predicate UrlLetter(c: char) {
    'A' <= c <= 'Z' || 'a' <= c <= 'z' || '0' <= c <= '9' || c == '-' || c == '_'
  }

  /** The letters of one byte, of two bytes, and of a full group of three. */
  function One(a: Byte): (g: string)
    ensures |g| == 2 && forall i :: 0 <= i < 2 ==> UrlLetter(g[i])
  {
    [Letter(a / 4), Letter(a % 4 * 16)]
  }

  function Two(a: Byte, b: Byte): (g: string)
    ensures |g| == 3 && forall i :: 0 <= i < 3 ==> UrlLetter(g[i])
  {
    [Letter(a / 4), Letter(a % 4 * 16 + b / 16), Letter(b % 16 * 4)]
  }

  function Three(a: Byte, b: Byte, c: Byte): (g: string)
    ensures |g| == 4 && forall i :: 0 <= i < 4 ==> UrlLetter(g[i])
  {
    [Letter(a / 4), Letter(a % 4 * 16 + b / 16), Letter(b % 16 * 4 + c / 64), Letter(c % 64)]
  }

  function EncodePadded(d: Bytes): string {
    if d == [] then ""
    else if |d| == 1 then One(d[0]) + "=="
    else if |d| == 2 then Two(d[0], d[1]) + "="
    else Three(d[0], d[1], d[2]) + EncodePadded(d[3..])
  }

  function StripRight(s: string, c: char): string {
    if s != "" && s[|s| - 1] == c then StripRight(s[..|s| - 1], c) else s
  }

  function Encode(d: Bytes): string {
    StripRight(EncodePadded(d), '=')
  }

  // ------------------------------------------------------------------------------------------
  // Decoding
  // ------------------------------------------------------------------------------------------

  /**
   The decoder underneath: it skips characters outside the alphabet, stops at a complete padding, and
   fails when the letters end inside a group.  `quad` letters of the current group have been read,
   `left` holds the bits they leave over, `pads` counts padding characters seen since the last letter.
   */
  function Scan(s: string, quad: nat, left: nat, pads: nat): Option<Bytes>
    requires quad < 4 && left < (if quad == 1 then 64 else if quad == 2 then 16 else if quad == 3 then 4 else 1)
  {
    if s == "" then (if quad == 0 then Some([]) else None)
    else if s[0] == '=' then
      if quad >= 2 && quad + pads + 1 >= 4 then Some([])
      else Scan(s[1..], quad, left, if quad >= 2 then pads + 1 else pads)
    else
      match Value(s[0])
      case None => Scan(s[1..], quad, left, pads)
      case Some(v) =>
        if quad == 0 then Scan(s[1..], 1, v, 0)
        else if quad == 1 then Prepend(left * 4 + v / 16, Scan(s[1..], 2, v % 16, 0))
        else if quad == 2 then Prepend(left * 16 + v / 4, Scan(s[1..], 3, v % 4, 0))
        else Prepend(left * 64 + v, Scan(s[1..], 0, 0, 0))
  }

  function Prepend(b: Byte, rest: Option<Bytes>): Option<Bytes> {
    match rest
    case None => None
    case Some(d) => Some([b] + d)
  }

  predicate Ascii(s: string) {
    forall i :: 0 <= i < |s| ==> s[i] < 128 as char
  }

  function Padding(length: nat): string {
    var needed := 4 - length % 4;
    if needed == 4 then "" else seq(needed, _ => '=')
  }

  /** Completes the padding and decodes; text outside ASCII is refused. */
  function Decode(s: string): Option<Bytes> {
    if Ascii(s) then Scan(s + Padding(|s|), 0, 0, 0) else None
  }

  // ------------------------------------------------------------------------------------------
  // Round trip
  // ------------------------------------------------------------------------------------------

  lemma LetterHasValue(v: Sextet)
    ensures Value(Letter(v)) == Some(v) && UrlLetter(Letter(v)) && Letter(v) != '='
  {
  }

  /** The text without its padding. */
  function Body(d: Bytes): string {
    if d == [] then ""
    else if |d| == 1 then One(d[0])
    else if |d| == 2 then Two(d[0], d[1])
    else Three(d[0], d[1], d[2]) + Body(d[3..])
  }

  lemma {:induction false} BodyShape(d: Bytes)
    ensures |Body(d)| == |d| / 3 * 4 + (if |d| % 3 == 0 then 0 else |d| % 3 + 1)
    ensures forall i :: 0 <= i < |Body(d)| ==> UrlLetter(Body(d)[i])
  {
    if |d| >= 3 {
      BodyShape(d[3..]);
    }
  }

  lemma PaddingRepeats(n: nat)
    ensures Padding(n + 4) == Padding(n)
  {
  }

  lemma {:induction false} PaddedShape(d: Bytes)
    ensures EncodePadded(d) == Body(d) + Padding(|Body(d)|)
  {
    if |d| == 1 {
      assert Padding(2) == "==";
    } else if |d| == 2 {
      assert Padding(3) == "=";
    } else if |d| >= 3 {
      PaddedShape(d[3..]);
      PaddingRepeats(|Body(d[3..])|);
    }
  }

  lemma {:induction false} StripPadding(body: string, k: nat)
    requires body == "" || body[|body| - 1] != '='
    ensures StripRight(body + seq(k, _ => '='), '=') == body
  {
    var s := body + seq(k, _ => '=');
    if k == 0 {
      assert s == body;
    } else {
      assert s[..|s| - 1] == body + seq(k - 1, _ => '=');
      StripPadding(body, k - 1);
    }
  }

  /** Encoded text uses the URL alphabet only, and its length is never one more than a multiple of four. */
  lemma EncodedShape(d: Bytes)
    ensures Encode(d) == Body(d) && |Encode(d)| % 4 != 1
    ensures forall i :: 0 <= i < |Encode(d)| ==> UrlLetter(Encode(d)[i])
    ensures EncodePadded(d) == Encode(d) + Padding(|Encode(d)|)
  {
    PaddedShape(d);
    BodyShape(d);
    StripPadding(Body(d), |Padding(|Body(d)|)|);
    assert Padding(|Body(d)|) == seq(|Padding(|Body(d)|)|, _ => '=');
  }

  lemma ScanLetter(s: string, quad: nat, left: nat, pads: nat, v: Sextet)
    requires quad < 4 && left < (if quad == 1 then 64 else if quad == 2 then 16 else if quad == 3 then 4 else 1)
    requires s != "" && s[0] == Letter(v)
    ensures Scan(s, quad, left, pads) ==
      if quad == 0 then Scan(s[1..], 1, v, 0)
      else if quad == 1 then Prepend(left * 4 + v / 16, Scan(s[1..], 2, v % 16, 0))
      else if quad == 2 then Prepend(left * 16 + v / 4, Scan(s[1..], 3, v % 4, 0))
      else Prepend(left * 64 + v, Scan(s[1..], 0, 0, 0))
  {
    LetterHasValue(v);
  }

  lemma ScanPad(s: string, quad: nat, left: nat, pads: nat)
    requires quad < 4 && left < (if quad == 1 then 64 else if quad == 2 then 16 else if quad == 3 then 4 else 1)
    requires s != "" && s[0] == '='
    ensures Scan(s, quad, left, pads) ==
      if quad >= 2 && quad + pads + 1 >= 4 then Some([])
      else Scan(s[1..], quad, left, if quad >= 2 then pads + 1 else pads)
  {
  }

  lemma BitsRejoin(a: Byte, b: Byte, c: Byte)
    ensures a / 4 * 4 + (a % 4 * 16 + b / 16) / 16 == a && (a % 4 * 16 + b / 16) % 16 == b / 16
    ensures b / 16 * 16 + (b % 16 * 4 + c / 64) / 4 == b && (b % 16 * 4 + c / 64) % 4 == c / 64
    ensures c / 64 * 64 + c % 64 == c
  {
  }

  /** The letters of a full group, read from the first one on and from the third one on. */
  lemma ScanFirstTwo(p: Sextet, q: Sextet, more: string)
    ensures Scan([Letter(p), Letter(q)] + more, 0, 0, 0) == Prepend(p * 4 + q / 16, Scan(more, 2, q % 16, 0))
  {
    var s := [Letter(p), Letter(q)] + more;
    ScanLetter(s, 0, 0, 0, p);
    ScanLetter(s[1..], 1, p, 0, q);
    assert s[1..][1..] == more;
  }

  lemma ScanLastTwo(left: nat, p: Sextet, q: Sextet, more: string)
    requires left < 16
    ensures Scan([Letter(p), Letter(q)] + more, 2, left, 0) ==
      Prepend(left * 16 + p / 4, Prepend(p % 4 * 64 + q, Scan(more, 0, 0, 0)))
  {
    var s := [Letter(p), Letter(q)] + more;
    ScanLetter(s, 2, left, 0, p);
    ScanLetter(s[1..], 3, p % 4, 0, q);
    assert s[1..][1..] == more;
  }

  /** Four letters make three bytes. */
  lemma ScanThree(a: Byte, b: Byte, c: Byte, rest: string)
    ensures Scan(Three(a, b, c) + rest, 0, 0, 0) == Prepend(a, Prepend(b, Prepend(c, Scan(rest, 0, 0, 0))))
  {
    var p, q, r, s := a / 4, a % 4 * 16 + b / 16, b % 16 * 4 + c / 64, c % 64;
    BitsRejoin(a, b, c);
    assert Three(a, b, c) + rest == [Letter(p), Letter(q)] + ([Letter(r), Letter(s)] + rest);
    ScanFirstTwo(p, q, [Letter(r), Letter(s)] + rest);
    ScanLastTwo(b / 16, r, s, rest);
  }

  lemma ScanOne(a: Byte)
    ensures Scan(One(a) + "==", 0, 0, 0) == Some([a])
  {
    var s := One(a) + "==";
    BitsRejoin(a, 0, 0);
    ScanLetter(s, 0, 0, 0, a / 4);
    ScanLetter(s[1..], 1, a / 4, 0, a % 4 * 16);
    ScanPad(s[1..][1..], 2, 0, 0);
    ScanPad(s[1..][1..][1..], 2, 0, 1);
    assert (a % 4 * 16) % 16 == 0 && a / 4 * 4 + (a % 4 * 16) / 16 == a;
    assert [a] + [] == [a];
  }

  lemma ScanTwo(a: Byte, b: Byte)
    ensures Scan(Two(a, b) + "=", 0, 0, 0) == Some([a, b])
  {
    var s := Two(a, b) + "=";
    BitsRejoin(a, b, 0);
    ScanLetter(s, 0, 0, 0, a / 4);
    ScanLetter(s[1..], 1, a / 4, 0, a % 4 * 16 + b / 16);
    ScanLetter(s[1..][1..], 2, b / 16, 0, b % 16 * 4);
    ScanPad(s[1..][1..][1..], 3, 0, 0);
    assert (b % 16 * 4) % 4 == 0 && b / 16 * 16 + (b % 16 * 4) / 4 == b;
    assert [a] + ([b] + []) == [a, b];
  }

  lemma {:induction false} ScanUndoesEncode(d: Bytes)
    ensures Scan(EncodePadded(d), 0, 0, 0) == Some(d)
  {
    if |d| == 1 {
      ScanOne(d[0]);
      assert [d[0]] == d;
    } else if |d| == 2 {
      ScanTwo(d[0], d[1]);
      assert [d[0], d[1]] == d;
    } else if |d| >= 3 {
      ScanThree(d[0], d[1], d[2], EncodePadded(d[3..]));
      ScanUndoesEncode(d[3..]);
      assert [d[0]] + ([d[1]] + ([d[2]] + d[3..])) == d;
    }
  }

  /** Decoding undoes encoding, for every byte string. */
  lemma RoundTrip(d: Bytes)
    ensures Decode(Encode(d)) == Some(d)
  {
    EncodedShape(d);
    ScanUndoesEncode(d);
  }

  lemma EncodeIsInjective(c: Bytes, d: Bytes)
    requires Encode(c) == Encode(d)
    ensures c == d
  {
    RoundTrip(c);
    RoundTrip(d);
  }

  /** Of the texts over the URL alphabet, the decoder refuses exactly those of length 1 mod 4. */
  lemma {:induction false} DecodableExactly(s: string)
    requires forall i :: 0 <= i < |s| ==> UrlLetter(s[i])
    ensures Decode(s).None? <==> |s| % 4 == 1
  {
    ScanSucceeds(s, Padding(|s|));
  }

  /** The text with the two letters in which the standard alphabet differs from the URL alphabet. */
  function Standard(s: string): (t: string)
    ensures |t| == |s|
  {
    seq(|s|, i requires 0 <= i < |s| => if s[i] == '-' then '+' else if s[i] == '_' then '/' else s[i])
  }

  lemma {:induction false} StandardScansAlike(s: string, quad: nat, left: nat, pads: nat)
    requires quad < 4 && left < (if quad == 1 then 64 else if quad == 2 then 16 else if quad == 3 then 4 else 1)
    ensures Scan(Standard(s), quad, left, pads) == Scan(s, quad, left, pads)
  {
    if s != "" {
      var t := Standard(s);
      assert t[1..] == Standard(s[1..]) && Value(t[0]) == Value(s[0]);
      if s[0] == '=' {
        if !(quad >= 2 && quad + pads + 1 >= 4) {
          StandardScansAlike(s[1..], quad, left, if quad >= 2 then pads + 1 else pads);
        }
      } else if Value(s[0]).None? {
        StandardScansAlike(s[1..], quad, left, pads);
      } else {
        var v := Value(s[0]).value;
        StandardScansAlike(s[1..], (quad + 1) % 4,
          if quad == 0 then v else if quad == 1 then v % 16 else if quad == 2 then v % 4 else 0, 0);
      }
    }
  }

  /** The decoder takes the standard alphabet for the URL alphabet. */
  lemma StandardDecodesAlike(s: string)
    ensures Decode(Standard(s)) == Decode(s)
  {
    var padded := s + Padding(|s|);
    assert Standard(padded) == Standard(s) + Padding(|s|);
    StandardScansAlike(padded, 0, 0, 0);
    assert forall i :: 0 <= i < |s| ==> (Standard(s)[i] < 128 as char <==> s[i] < 128 as char);
  }

  /** A character of neither alphabet is skipped wherever it stands. */
  lemma {:induction false} OthersAreSkipped(a: string, c: char, b: string, quad: nat, left: nat, pads: nat)
    requires quad < 4 && left < (if quad == 1 then 64 else if quad == 2 then 16 else if quad == 3 then 4 else 1)
    requires !UrlLetter(c) && c != '+' && c != '/' && c != '='
    ensures Scan(a + [c] + b, quad, left, pads) == Scan(a + b, quad, left, pads)
  {
    if a == "" {
      assert (a + [c] + b)[1..] == b && a + b == b;
    } else {
      assert (a + [c] + b)[1..] == a[1..] + [c] + b && (a + b)[1..] == a[1..] + b;
      if a[0] == '=' {
        if !(quad >= 2 && quad + pads + 1 >= 4) {
          OthersAreSkipped(a[1..], c, b, quad, left, if quad >= 2 then pads + 1 else pads);
        }
      } else if Value(a[0]).None? {
        OthersAreSkipped(a[1..], c, b, quad, left, pads);
      } else {
        var v := Value(a[0]).value;
        OthersAreSkipped(a[1..], c, b, (quad + 1) % 4,
          if quad == 0 then v else if quad == 1 then v % 16 else if quad == 2 then v % 4 else 0, 0);
      }
    }
  }

  lemma UrlLetterHasValue(c: char)
    requires UrlLetter(c)
    ensures Value(c).Some? && c == Letter(Value(c).value)
  {
  }

  lemma ScanTail(s: string, pad: string)
    requires |s| < 4 && pad == Padding(|s|) && forall i :: 0 <= i < |s| ==> UrlLetter(s[i])
    ensures Scan(s + pad, 0, 0, 0).None? <==> |s| == 1
  {
    var t := s + pad;
    if s == "" {
      assert t == "";
    } else {
      UrlLetterHasValue(t[0]);
      var v := Value(t[0]).value;
      ScanLetter(t, 0, 0, 0, v);
      var t1 := t[1..];
      var t2 := t1[1..];
      var t3 := t2[1..];
      assert |s| > 1 ==> t1[0] == s[1];
      assert |s| > 2 ==> t2[0] == s[2];
      if |s| == 1 {
        ScanPad(t1, 1, v, 0);
        ScanPad(t2, 1, v, 0);
        ScanPad(t3, 1, v, 0);
        assert t3[1..] == "";
      } else {
        UrlLetterHasValue(t1[0]);
        var w := Value(t1[0]).value;
        ScanLetter(t1, 1, v, 0, w);
        if |s| == 2 {
          ScanPad(t2, 2, w % 16, 0);
          ScanPad(t3, 2, w % 16, 1);
        } else {
          UrlLetterHasValue(t2[0]);
          ScanLetter(t2, 2, w % 16, 0, Value(t2[0]).value);
          ScanPad(t3, 3, Value(t2[0]).value % 4, 0);
        }
      }
    }
  }

  lemma {:induction false} ScanSucceeds(s: string, pad: string)
    requires pad == Padding(|s|) && forall i :: 0 <= i < |s| ==> UrlLetter(s[i])
    ensures Scan(s + pad, 0, 0, 0).None? <==> |s| % 4 == 1
  {
    if |s| < 4 {
      ScanTail(s, pad);
    } else {
      ScanSucceeds(s[4..], pad);
      var t := s + pad;
      assert t[1..][1..][1..][1..] == s[4..] + pad;
      ScanFour(t);
    }
  }

  lemma ScanFour(t: string)
    requires |t| >= 4 && forall i :: 0 <= i < 4 ==> UrlLetter(t[i])
    ensures Scan(t, 0, 0, 0).None? <==> Scan(t[1..][1..][1..][1..], 0, 0, 0).None?
  {
    var t1 := t[1..];
    var t2 := t1[1..];
    var t3 := t2[1..];
    assert t1[0] == t[1] && t2[0] == t[2] && t3[0] == t[3];
    UrlLetterHasValue(t[0]);
    UrlLetterHasValue(t[1]);
    UrlLetterHasValue(t[2]);
    UrlLetterHasValue(t[3]);
    var v, w, x := Value(t[0]).value, Value(t[1]).value, Value(t[2]).value;
    ScanLetter(t, 0, 0, 0, v);
    ScanLetter(t1, 1, v, 0, w);
    ScanLetter(t2, 2, w % 16, 0, x);
    ScanLetter(t3, 3, x % 4, 0, Value(t[3]).value);
  }
}

/** Key integers: minimal big-endian bytes (section 6.3.1 of RFC 7518). */
module BigEndian {
  import opened Octets

  function BitLength(n: nat): nat {
    if n == 0 then 0 else 1 + BitLength(n / 2)
  }

  function ByteLength(n: nat): nat {
    (BitLength(n) + 7) / 8
  }

  /** Whether `to_bytes` can write the number in that many bytes; it overflows otherwise. */
  predicate Fits(n: nat, length: nat) {
    if length == 0 then n == 0 else Fits(n / 256, length - 1)
  }

  function ToBytes(n: nat, length: nat): (b: Bytes)
    requires Fits(n, length)
    ensures |b| == length
  {
    if length == 0 then [] else ToBytes(n / 256, length - 1) + [n % 256]
  }

  function FromBytes(b: Bytes): nat {
    if b == [] then 0 else FromBytes(b[..|b| - 1]) * 256 + b[|b| - 1]
  }

  lemma BitLengthBy256(n: nat)
    ensures n >= 256 ==> BitLength(n) == 8 + BitLength(n / 256)
    ensures 0 < n < 256 ==> 1 <= BitLength(n) <= 8
  {
    var a := n / 2;
    var b := a / 2;
    var c := b / 2;
    var d := c / 2;
    var e := d / 2;
    var f := e / 2;
    var g := f / 2;
    assert g / 2 == n / 256;
    if n >= 256 {
      assert BitLength(n) == 1 + BitLength(a) && BitLength(a) == 1 + BitLength(b);
      assert BitLength(b) == 1 + BitLength(c) && BitLength(c) == 1 + BitLength(d);
      assert BitLength(d) == 1 + BitLength(e) && BitLength(e) == 1 + BitLength(f);
      assert BitLength(f) == 1 + BitLength(g) && BitLength(g) == 1 + BitLength(g / 2);
    } else if n > 0 {
      assert g / 2 == 0;
      assert BitLength(g) <= 1 && BitLength(f) <= 2 && BitLength(e) <= 3 && BitLength(d) <= 4;
      assert BitLength(c) <= 5 && BitLength(b) <= 6 && BitLength(a) <= 7;
    }
  }

  /** The bit length always gives enough bytes. */
  lemma {:induction false} ByteLengthFits(n: nat)
    ensures Fits(n, ByteLength(n))
    ensures ByteLength(n) == if n == 0 then 0 else 1 + ByteLength(n / 256)
  {
    BitLengthBy256(n);
    if n > 0 {
      ByteLengthFits(n / 256);
    }
  }

  lemma {:induction false} BytesRoundTrip(n: nat, length: nat)
    requires Fits(n, length)
    ensures FromBytes(ToBytes(n, length)) == n
  {
    if length > 0 {
      BytesRoundTrip(n / 256, length - 1);
      assert ToBytes(n, length)[..length - 1] == ToBytes(n / 256, length - 1);
    }
  }

  /** No shorter byte string holds the number: the first byte is never zero. */
  lemma {:induction false} FirstByteNonZero(n: nat)
    requires n > 0
    ensures Fits(n, ByteLength(n)) && ByteLength(n) > 0 && ToBytes(n, ByteLength(n))[0] != 0
  {
    ByteLengthFits(n);
    if n >= 256 {
      FirstByteNonZero(n / 256);
    }
  }

  /** Any byte string without a leading zero is the one the encoder writes for its number. */
  lemma {:induction false} MinimalIsUnique(b: Bytes)
    requires b == [] || b[0] != 0
    ensures Fits(FromBytes(b), ByteLength(FromBytes(b)))
    ensures ToBytes(FromBytes(b), ByteLength(FromBytes(b))) == b
  {
    var n := FromBytes(b);
    ByteLengthFits(n);
    if b != [] {
      var front := b[..|b| - 1];
      MinimalIsUnique(front);
      assert n / 256 == FromBytes(front) && n % 256 == b[|b| - 1];
      if front == [] {
        assert n == b[0];
      } else {
        LeadingByteCounts(front);
      }
      assert b == front + [b[|b| - 1]];
    }
  }

  lemma {:induction false} LeadingByteCounts(b: Bytes)
    requires b != [] && b[0] != 0
    ensures FromBytes(b) > 0
  {
    if |b| > 1 {
      LeadingByteCounts(b[..|b| - 1]);
    }
  }
}
