/** The Basic credentials a client sends and the server parses: Base64 as in section 4 of
    RFC 4648 and the user-pass of section 2 of RFC 7617 (client/v2/middleware.go:25-35,
    server/handler/grpc/basic_auth.go:33-49). */
module BasicAuth {
  import opened ByteStrings

  const PAD: Byte := 61
  const BASIC: Bytes := [66, 97, 115, 105, 99, 32]

  // ---- the alphabet ----

  /** The character of a 6-bit value: A-Z, a-z, 0-9, +, /. */
  function Encode6(d: nat): Byte
    requires d < 64
  {
    if d < 26 then 65 + d
    else if d < 52 then 97 + (d - 26)
    else if d < 62 then 48 + (d - 52)
    else if d == 62 then 43 else 47
  }

  function Decode6(c: Byte): Option<nat> {
    if 65 <= c <= 90 then Some(c - 65)
    else if 97 <= c <= 122 then Some(c - 97 + 26)
    else if 48 <= c <= 57 then Some(c - 48 + 52)
    else if c == 43 then Some(62)
    else if c == 47 then Some(63) else None
  }

  // ---- Base64 ----

  function Encode(s: Bytes): Bytes {
    if s == [] then []
    else if |s| == 1 then [Encode6(s[0] / 4), Encode6(s[0] % 4 * 16), PAD, PAD]
    else if |s| == 2 then
      [Encode6(s[0] / 4), Encode6(s[0] % 4 * 16 + s[1] / 16), Encode6(s[1] % 16 * 4), PAD]
    else
      [Encode6(s[0] / 4), Encode6(s[0] % 4 * 16 + s[1] / 16), Encode6(s[1] % 16 * 4 + s[2] / 64), Encode6(s[2] % 64)]
      + Encode(s[3..])
  }

  function Byte0(a: nat, b: nat): Byte requires a < 64 && b < 64 { a * 4 + b / 16 }
  function Byte1(b: nat, c: nat): Byte requires b < 64 && c < 64 { b % 16 * 16 + c / 4 }
  function Byte2(c: nat, d: nat): Byte requires c < 64 && d < 64 { c % 4 * 64 + d }

  /** Line breaks are skipped wherever they stand. */
  function Unfold(s: Bytes): Bytes {
    if s == [] then []
    else (if s[0] == 10 || s[0] == 13 then [] else [s[0]]) + Unfold(s[1..])
  }

  /** One quantum of four characters; `last` when nothing follows it. */
  function Quantum(a: Byte, b: Byte, c: Byte, d: Byte, last: bool): Option<Bytes> {
    match (Decode6(a), Decode6(b), Decode6(c), Decode6(d))
    case (Some(x), Some(y), Some(z), Some(w)) =>
      Some([Byte0(x, y), Byte1(y, z), Byte2(z, w)])
    case (Some(x), Some(y), Some(z), None) =>
      if d == PAD && last then Some([Byte0(x, y), Byte1(y, z)]) else None
    case (Some(x), Some(y), None, None) =>
      if c == PAD && d == PAD && last then Some([Byte0(x, y)]) else None
    case _ => None
  }

  function DecodeQuanta(s: Bytes): Option<Bytes> {
    if s == [] then Some([])
    else if |s| < 4 then None
    else
      match Quantum(s[0], s[1], s[2], s[3], |s| == 4)
      case None => None
      case Some(q) =>
        match DecodeQuanta(s[4..])
        case None => None
        case Some(rest) => Some(q + rest)
  }

  /** base64.StdEncoding.DecodeString. */
  function Decode(s: Bytes): Option<Bytes> { DecodeQuanta(Unfold(s)) }

  lemma {:induction false} UnfoldEncoded(s: Bytes)
    requires forall i | 0 <= i < |s| :: s[i] != 10 && s[i] != 13
    ensures Unfold(s) == s
  {
    if s != [] { UnfoldEncoded(s[1..]); }
  }

  lemma {:induction false} EncodedPlain(s: Bytes)
    ensures forall i | 0 <= i < |Encode(s)| :: Encode(s)[i] != 10 && Encode(s)[i] != 13
  {
    if |s| > 2 {
      EncodedPlain(s[3..]);
      var e := Encode(s);
      assert e[4..] == Encode(s[3..]);
      forall i | 0 <= i < |e| ensures e[i] != 10 && e[i] != 13 {
        if i >= 4 { assert e[i] == e[4..][i - 4]; }
      }
    }
  }

  lemma FirstByte(a: Byte, b: nat)
    requires b < 16
    ensures Byte0(a / 4, a % 4 * 16 + b) == a
  {}

  lemma SecondByte(a: nat, b: Byte, c: nat)
    requires a < 4 && c < 4
    ensures Byte1(a * 16 + b / 16, b % 16 * 4 + c) == b
  {}

  lemma ThirdByte(b: nat, c: Byte)
    requires b < 16
    ensures Byte2(b * 4 + c / 64, c % 64) == c
  {}

  lemma SixBits(d: nat)
    requires d < 64
    ensures Decode6(Encode6(d)) == Some(d)
  {}

  /** Four characters by the values they stand for, the last one or two of them padding. */
  lemma QuantumOf(c0: Byte, c1: Byte, c2: Byte, c3: Byte, x: nat, y: nat, z: nat, w: nat, last: bool)
    requires x < 64 && y < 64 && z < 64 && w < 64
    requires Decode6(c0) == Some(x) && Decode6(c1) == Some(y) && Decode6(c2) == Some(z) && Decode6(c3) == Some(w)
    ensures Quantum(c0, c1, c2, c3, last) == Some([Byte0(x, y), Byte1(y, z), Byte2(z, w)])
    ensures Quantum(c0, c1, c2, PAD, true) == Some([Byte0(x, y), Byte1(y, z)])
    ensures Quantum(c0, c1, PAD, PAD, true) == Some([Byte0(x, y)])
  {}

  lemma WholeQuantum(x: nat, y: nat, z: nat, w: nat, last: bool)
    requires x < 64 && y < 64 && z < 64 && w < 64
    ensures Quantum(Encode6(x), Encode6(y), Encode6(z), Encode6(w), last) == Some([Byte0(x, y), Byte1(y, z), Byte2(z, w)])
    ensures Quantum(Encode6(x), Encode6(y), Encode6(z), PAD, true) == Some([Byte0(x, y), Byte1(y, z)])
    ensures Quantum(Encode6(x), Encode6(y), PAD, PAD, true) == Some([Byte0(x, y)])
  {
    SixBits(x);
    SixBits(y);
    SixBits(z);
    SixBits(w);
    QuantumOf(Encode6(x), Encode6(y), Encode6(z), Encode6(w), x, y, z, w, last);
  }

  lemma {:induction false} DecodeEncoded(s: Bytes)
    ensures DecodeQuanta(Encode(s)) == Some(s)
  {
    if |s| == 1 {
      OneByte(s[0]);
      assert s == [s[0]];
    } else if |s| == 2 {
      TwoBytes(s[0], s[1]);
      assert s == [s[0], s[1]];
    } else if |s| > 2 {
      DecodeEncoded(s[3..]);
      ThreeBytes(s[0], s[1], s[2], s[3..]);
      assert s == [s[0], s[1], s[2]] + s[3..];
    }
  }

  lemma OneByte(a: Byte)
    ensures DecodeQuanta(Encode([a])) == Some([a])
  {
    FirstByte(a, 0);
    WholeQuantum(a / 4, a % 4 * 16, 0, 0, true);
    DecodeCons([Encode6(a / 4), Encode6(a % 4 * 16), PAD, PAD], [], [a]);
    assert [Encode6(a / 4), Encode6(a % 4 * 16), PAD, PAD] + Encode([]) == Encode([a]);
    assert [a] + [] == [a];
  }

  lemma TwoBytes(a: Byte, b: Byte)
    ensures DecodeQuanta(Encode([a, b])) == Some([a, b])
  {
    FirstByte(a, b / 16);
    SecondByte(a % 4, b, 0);
    var x, y, z := a / 4, a % 4 * 16 + b / 16, b % 16 * 4;
    WholeQuantum(x, y, z, 0, true);
    DecodeCons([Encode6(x), Encode6(y), Encode6(z), PAD], [], [a, b]);
    assert [Encode6(x), Encode6(y), Encode6(z), PAD] + Encode([]) == Encode([a, b]);
    assert [a, b] + [] == [a, b];
  }

  function Group(a: Byte, b: Byte, c: Byte): Bytes {
    [Encode6(a / 4), Encode6(a % 4 * 16 + b / 16), Encode6(b % 16 * 4 + c / 64), Encode6(c % 64)]
  }

  lemma EncodeGroup(a: Byte, b: Byte, c: Byte, rest: Bytes)
    ensures Encode([a, b, c] + rest) == Group(a, b, c) + Encode(rest)
  {}

  lemma DecodeGroup(a: Byte, b: Byte, c: Byte, last: bool)
    ensures var q := Group(a, b, c); Quantum(q[0], q[1], q[2], q[3], last) == Some([a, b, c])
  {
    FirstByte(a, b / 16);
    SecondByte(a % 4, b, c / 64);
    ThirdByte(b % 16, c);
    WholeQuantum(a / 4, a % 4 * 16 + b / 16, b % 16 * 4 + c / 64, c % 64, last);
  }

  lemma ThreeBytes(a: Byte, b: Byte, c: Byte, rest: Bytes)
    requires DecodeQuanta(Encode(rest)) == Some(rest)
    ensures DecodeQuanta(Encode([a, b, c] + rest)) == Some([a, b, c] + rest)
  {
    EncodeGroup(a, b, c, rest);
    DecodeGroup(a, b, c, Encode(rest) == []);
    DecodeCons(Group(a, b, c), rest, [a, b, c]);
  }

  lemma DecodeCons(q: Bytes, rest: Bytes, bytes: Bytes)
    requires |q| == 4 && Quantum(q[0], q[1], q[2], q[3], Encode(rest) == []) == Some(bytes)
    requires DecodeQuanta(Encode(rest)) == Some(rest)
    ensures DecodeQuanta(q + Encode(rest)) == Some(bytes + rest)
  {}

  lemma Base64RoundTrip(s: Bytes)
    ensures Decode(Encode(s)) == Some(s)
  {
    EncodedPlain(s);
    UnfoldEncoded(Encode(s));
    DecodeEncoded(s);
  }

  // ---- the header ----

  datatype Credentials = Credentials(user: Bytes, password: Bytes)

  /** The client's header value. */
  function Header(c: Credentials): Bytes {
    BASIC + Encode(c.user + [COLON] + c.password)
  }

  function Lower(b: Byte): Byte { if 65 <= b <= 90 then b + 32 else b }

  /** strings.EqualFold against "Basic ": six bytes can only fold to it letter by letter. */
  predicate FoldsToBasic(s: Bytes) {
    |s| == 6 && forall i | 0 <= i < 6 :: Lower(s[i]) == Lower(BASIC[i])
  }

  /** Position of the first colon, or |s|. */
  function FirstColon(s: Bytes): (i: nat)
    ensures i <= |s| && COLON !in s[..i] && (i < |s| ==> s[i] == COLON)
  {
    if s == [] || s[0] == COLON then 0
    else
      var i := 1 + FirstColon(s[1..]);
      assert s[..i] == [s[0]] + s[1..][..i - 1];
      i
  }

  /** parseBasicAuth. */
  function Parse(auth: Bytes): Option<Credentials> {
    if |auth| < 6 || !FoldsToBasic(auth[..6]) then None
    else
      match Decode(auth[6..])
      case None => None
      case Some(cs) =>
        var i := FirstColon(cs);
        if i == |cs| then None else Some(Credentials(cs[..i], cs[i + 1..]))
  }

  lemma {:induction false} FirstColonIs(user: Bytes, rest: Bytes)
    requires COLON !in user
    ensures FirstColon(user + [COLON] + rest) == |user|
  {
    var s := user + [COLON] + rest;
    if user != [] {
      FirstColonIs(user[1..], rest);
      assert s[1..] == user[1..] + [COLON] + rest;
    }
  }

  /** The server recovers exactly the pair the client encoded, if and only if the user name has no
      colon; the password may be anything. */
  lemma CredentialsRoundTrip(c: Credentials)
    ensures Parse(Header(c)) == Some(c) <==> COLON !in c.user
  {
    var cs := c.user + [COLON] + c.password;
    var h := Header(c);
    assert h[..6] == BASIC && h[6..] == Encode(cs);
    Base64RoundTrip(cs);
    assert COLON in cs by { assert cs[|c.user|] == COLON; }
    if COLON !in c.user {
      FirstColonIs(c.user, c.password);
      assert cs[..|c.user|] == c.user && cs[|c.user| + 1..] == c.password;
    }
  }

  /** Whatever header the server accepts, the user name it reads has no colon and the pair is the
      decoded text cut at its first colon. */
  lemma ParsedPair(auth: Bytes)
    ensures Parse(auth).Some? ==>
              COLON !in Parse(auth).value.user &&
              Decode(auth[6..]) == Some(Parse(auth).value.user + [COLON] + Parse(auth).value.password)
  {
    if Parse(auth).Some? {
      var cs := Decode(auth[6..]).value;
      var i := FirstColon(cs);
      assert cs == cs[..i] + [COLON] + cs[i + 1..];
    }
  }
}
