/**
 HS256 tokens in the compact form of section 7.1 of RFC 7515, with the claims of section
 4.1 of RFC 7519.  The MAC and the JSON library are parameters; the clock is an argument.
 */
module Jwt {
  import opened Base64Url
  import opened Collections

  datatype Claims = Claims(iss: string, sub: string, iat: int, exp: int)

  /** What the source takes from its libraries. */
  datatype Library = Library(
    header: seq<byte>,                           // the fixed header, as JSON text
    dump: Claims -> seq<byte>,                   // payload to JSON text
    parse: seq<byte> -> Option<Claims>,          // JSON text to payload, None when it throws
    mac: (seq<byte>, seq<byte>) -> seq<byte>)    // HMAC-SHA256 of (key, data)

  /** JSON text written by the library is read back as it was. */
  ghost predicate Faithful(lib: Library) {
    forall c: Claims :: lib.parse(lib.dump(c)) == Some(c)
  }

  datatype Payload = Payload(valid: bool, userId: string, issuer: string, iat: int, exp: int)

  const INVALID := Payload(false, "", "", 0, 0)

  const DOT: byte := 46

  // ---------- hexadecimal ----------

  /** `%02x`. */
  function HexDigit(v: bv8): byte { if v < 10 then 48 + v else 97 + (v - 10) }

  function HexOf(s: seq<byte>): seq<byte> {
    if s == [] then [] else [HexDigit(s[0] >> 4), HexDigit(s[0] & 0x0F)] + HexOf(s[1..])
  }

  /** Value of a hexadecimal digit; any other character counts as zero. */
  function Nibble(c: byte): bv8 {
    if 48 <= c <= 57 then c - 48 else if 97 <= c <= 102 then c - 97 + 10 else if 65 <= c <= 70 then c - 65 + 10 else 0
  }

  ghost function Unhexed(s: seq<byte>): seq<byte> {
    if |s| < 2 then [] else [(Nibble(s[0]) << 4) | Nibble(s[1])] + Unhexed(s[2..])
  }

  lemma HexByte(b: byte)
    ensures (Nibble(HexDigit(b >> 4)) << 4) | Nibble(HexDigit(b & 0x0F)) == b
  {
  }

  lemma {:induction false} HexRoundTrip(s: seq<byte>)
    ensures Unhexed(HexOf(s)) == s
  {
    if s != [] {
      HexByte(s[0]);
      HexRoundTrip(s[1..]);
      assert HexOf(s)[2..] == HexOf(s[1..]);
      assert s == [s[0]] + s[1..];
    }
  }

  method HexDecode(hex: seq<byte>) returns (out: seq<byte>)
    ensures out == Unhexed(hex)
  {
    out := [];
    var i := 0;
    assert hex[0..] == hex && [] + Unhexed(hex) == Unhexed(hex);
    while i + 1 < |hex|
      invariant i <= |hex| && out + Unhexed(hex[i..]) == Unhexed(hex)
    {
      UnhexStep(hex, i, out);
      out := out + [(Nibble(hex[i]) << 4) | Nibble(hex[i + 1])];
      i := i + 2;
    }
    assert Unhexed(hex[i..]) == [];
  }

  lemma UnhexStep(hex: seq<byte>, i: nat, out: seq<byte>)
    requires i + 1 < |hex|
    ensures out + Unhexed(hex[i..]) == out + [(Nibble(hex[i]) << 4) | Nibble(hex[i + 1])] + Unhexed(hex[i + 2..])
  {
    assert hex[i..][2..] == hex[i + 2..];
    var b, rest := [(Nibble(hex[i]) << 4) | Nibble(hex[i + 1])], Unhexed(hex[i + 2..]);
    assert out + (b + rest) == out + b + rest;
  }

  // ---------- tokens ----------

  ghost function Signature(lib: Library, secret: seq<byte>, msg: seq<byte>): seq<byte> {
    Encoded(lib.mac(secret, msg))
  }

  ghost function Signed(lib: Library, secret: seq<byte>, head: seq<byte>, body: seq<byte>): seq<byte> {
    var msg := head + [DOT] + body;
    msg + [DOT] + Signature(lib, secret, msg)
  }

  function NewClaims(userId: string, expireHours: int, issuer: string, now: int): Claims {
    Claims(if issuer == "" then "swift-online" else issuer, userId, now, now + expireHours * 3600)
  }

  ghost function Issued(lib: Library, userId: string, secret: seq<byte>, expireHours: int, issuer: string,
      now: int): seq<byte> {
    Signed(lib, secret, Encoded(lib.header), Encoded(lib.dump(NewClaims(userId, expireHours, issuer, now))))
  }

  /** The signature as both functions compute it: MAC, hex, back to bytes, base64url. */
  method Sign(lib: Library, secret: seq<byte>, msg: seq<byte>) returns (sig: seq<byte>)
    ensures sig == Signature(lib, secret, msg)
  {
    var hex := HexOf(lib.mac(secret, msg));
    HexRoundTrip(lib.mac(secret, msg));
    var bin := HexDecode(hex);
    sig := Base64UrlEncode(bin);
  }

  /** Encoded header and claims, and the encoded MAC of the two under the secret. */
  method JwtCreate(lib: Library, userId: string, secret: seq<byte>, expireHours: int, issuer: string, now: int)
      returns (token: seq<byte>)
    ensures token == Issued(lib, userId, secret, expireHours, issuer, now)
    ensures var claims :=
      Claims(if issuer == "" then "swift-online" else issuer, userId, now, now + expireHours * 3600);
      var msg := Encoded(lib.header) + [DOT] + Encoded(lib.dump(claims));
      token == msg + [DOT] + Encoded(lib.mac(secret, msg))
  {
    var header := Base64UrlEncode(lib.header);
    var payload := Base64UrlEncode(lib.dump(NewClaims(userId, expireHours, issuer, now)));
    var msg := header + [DOT] + payload;
    var sig := Sign(lib, secret, msg);
    token := msg + [DOT] + sig;
  }

  /** First dot at or after `from`, or the length when there is none. */
  function FindDot(s: seq<byte>, from: nat): (r: nat)
    requires from <= |s|
    ensures from <= r <= |s|
    ensures forall i :: from <= i < r ==> s[i] != DOT
    ensures r < |s| ==> s[r] == DOT
    decreases |s| - from
  {
    if from == |s| || s[from] == DOT then from else FindDot(s, from + 1)
  }

  /** Reading a 64-bit claim through an `int` default keeps its low 32 bits. */
  function Int32(x: int): int {
    var m := x % 0x1_0000_0000;
    if m >= 0x8000_0000 then m - 0x1_0000_0000 else m
  }

  function Accept(c: Claims, now: int): Payload {
    var p := Payload(false, c.sub, c.iss, Int32(c.iat), Int32(c.exp));
    if p.exp < now then p
    else if p.issuer != "swift-online" && p.issuer != "swift-auth" then p
    else if p.userId == "" then p
    else p.(valid := true)
  }

  /** Verdict on a token split at its first two dots. */
  ghost function Verdict(lib: Library, secret: seq<byte>, head: seq<byte>, body: seq<byte>, sig: seq<byte>,
      now: int): Payload {
    if sig != Signature(lib, secret, head + [DOT] + body) then INVALID
    else match lib.parse(Decoded(body))
      case None => INVALID
      case Some(c) => Accept(c, now)
  }

  ghost function Verified(lib: Library, token: seq<byte>, secret: seq<byte>, now: int): Payload {
    var dot1 := FindDot(token, 0);
    if dot1 == |token| then INVALID
    else
      var dot2 := FindDot(token, dot1 + 1);
      if dot2 == |token| then INVALID
      else Verdict(lib, secret, token[..dot1], token[dot1 + 1..dot2], token[dot2 + 1..], now)
  }

  method JwtVerify(lib: Library, token: seq<byte>, secret: seq<byte>, now: int) returns (result: Payload)
    ensures result == Verified(lib, token, secret, now)
  {
    var dot1 := FindDot(token, 0);
    if dot1 == |token| { return INVALID; }
    var dot2 := FindDot(token, dot1 + 1);
    if dot2 == |token| { return INVALID; }
    var body := token[dot1 + 1..dot2];
    var msg := token[..dot2];
    assert msg == token[..dot1] + [DOT] + body;
    var expected := Sign(lib, secret, msg);
    if token[dot2 + 1..] != expected { return INVALID; }
    var json := Base64UrlDecode(body);
    var p := lib.parse(json);
    if p.None? { return INVALID; }
    return Accept(p.value, now);
  }

  ghost predicate DotFree(s: seq<byte>) {
    forall i :: 0 <= i < |s| ==> s[i] != DOT
  }

  /** Splitting at the first two dots recovers dot-free segments. */
  lemma SplitRecovers(head: seq<byte>, body: seq<byte>, sig: seq<byte>)
    requires DotFree(head) && DotFree(body)
    ensures var token := head + [DOT] + body + [DOT] + sig;
      var dot1, dot2 := |head|, |head| + 1 + |body|;
      && FindDot(token, 0) == dot1 && FindDot(token, dot1 + 1) == dot2 < |token|
      && token[..dot1] == head && token[dot1 + 1..dot2] == body && token[dot2 + 1..] == sig
  {
    var token := head + [DOT] + body + [DOT] + sig;
    var dot1, dot2 := |head|, |head| + 1 + |body|;
    assert token[dot1] == DOT && token[dot2] == DOT;
    assert forall i :: 0 <= i < dot1 ==> token[i] == head[i];
    assert forall i :: dot1 < i < dot2 ==> token[i] == body[i - dot1 - 1];
  }

  lemma SegmentsAreDotFree(s: seq<byte>)
    ensures DotFree(Encoded(s))
  {
    EncodedShape(s);
  }

  /** A token the service issued is accepted by the holder of the same secret exactly when
      the user id is not empty, the issuer is accepted, and the expiry, cut to 32 bits, has
      not passed; it then names the user it was issued for. */
  lemma IssuedTokensVerify(lib: Library, userId: string, secret: seq<byte>, expireHours: int, issuer: string,
      issuedAt: int, now: int)
    requires Faithful(lib)
    ensures var p := Verified(lib, Issued(lib, userId, secret, expireHours, issuer, issuedAt), secret, now);
      && (p.valid <==> userId != "" && AcceptedIssuer(issuer) && now <= Int32(issuedAt + expireHours * 3600))
      && p.userId == userId
  {
    var c := NewClaims(userId, expireHours, issuer, issuedAt);
    SignedVerdict(lib, lib.header, lib.dump(c), secret, now);
    AcceptMeans(userId, expireHours, issuer, issuedAt, now);
  }

  /** The empty issuer stands for the default one. */
  ghost predicate AcceptedIssuer(issuer: string) {
    issuer == "" || issuer == "swift-online" || issuer == "swift-auth"
  }

  lemma AcceptMeans(userId: string, expireHours: int, issuer: string, issuedAt: int, now: int)
    ensures var p := Accept(NewClaims(userId, expireHours, issuer, issuedAt), now);
      && (p.valid <==> userId != "" && AcceptedIssuer(issuer) && now <= Int32(issuedAt + expireHours * 3600))
      && p.userId == userId
  {
  }

  lemma SignedVerdict(lib: Library, header: seq<byte>, payload: seq<byte>, secret: seq<byte>, now: int)
    ensures Verified(lib, Signed(lib, secret, Encoded(header), Encoded(payload)), secret, now)
         == match lib.parse(payload) case None => INVALID case Some(c) => Accept(c, now)
  {
    var head, body := Encoded(header), Encoded(payload);
    SegmentsAreDotFree(header);
    SegmentsAreDotFree(payload);
    VerifiedSplit(lib, head, body, Signature(lib, secret, head + [DOT] + body), secret, now);
    CodecRoundTrip(payload);
  }

  lemma VerifiedSplit(lib: Library, head: seq<byte>, body: seq<byte>, sig: seq<byte>, secret: seq<byte>, now: int)
    requires DotFree(head) && DotFree(body)
    ensures Verified(lib, head + [DOT] + body + [DOT] + sig, secret, now) == Verdict(lib, secret, head, body, sig, now)
  {
    SplitRecovers(head, body, sig);
  }

  /** The cut keeps the value modulo 2^32 and fits an `int`; what fits already is honoured as issued. */
  lemma Int32Exact(x: int)
    ensures -0x8000_0000 <= Int32(x) < 0x8000_0000 && (Int32(x) - x) % 0x1_0000_0000 == 0
    ensures -0x8000_0000 <= x < 0x8000_0000 ==> Int32(x) == x
  {
  }

  /** An expiry one past that range is refused from the start, an hour before it is due. */
  lemma LateExpiryRefused(lib: Library, userId: string, secret: seq<byte>)
    requires Faithful(lib)
    ensures var issuedAt := 0x8000_0000 - 3600;
      !Verified(lib, Issued(lib, userId, secret, 1, "", issuedAt), secret, issuedAt).valid
  {
    Int32Exact(0x8000_0000);
    ExpiredRefused(lib, userId, secret, 1, "", 0x8000_0000 - 3600, 0x8000_0000 - 3600);
  }

  lemma ExpiredRefused(lib: Library, userId: string, secret: seq<byte>, expireHours: int, issuer: string,
      issuedAt: int, now: int)
    requires Faithful(lib) && Int32(issuedAt + expireHours * 3600) < now
    ensures !Verified(lib, Issued(lib, userId, secret, expireHours, issuer, issuedAt), secret, now).valid
  {
    IssuedTokensVerify(lib, userId, secret, expireHours, issuer, issuedAt, now);
  }

  /** The token is its two first segments, a dot, and the encoded MAC of these segments under the secret;
      the second segment holds the claims. */
  ghost predicate SignedWith(lib: Library, token: seq<byte>, secret: seq<byte>, head: seq<byte>, body: seq<byte>,
      c: Claims) {
    && DotFree(head) && DotFree(body)
    && token == head + [DOT] + body + [DOT] + Encoded(lib.mac(secret, head + [DOT] + body))
    && lib.parse(Decoded(body)) == Some(c)
  }

  lemma SignedIsVerified(lib: Library, token: seq<byte>, secret: seq<byte>, now: int, head: seq<byte>, body: seq<byte>,
      c: Claims)
    requires SignedWith(lib, token, secret, head, body, c)
    ensures Verified(lib, token, secret, now) == Accept(c, now)
  {
    VerifiedSplit(lib, head, body, Signature(lib, secret, head + [DOT] + body), secret, now);
  }

  lemma VerifiedIsSigned(lib: Library, token: seq<byte>, secret: seq<byte>, now: int)
      returns (head: seq<byte>, body: seq<byte>, c: Claims)
    requires Verified(lib, token, secret, now).valid
    ensures SignedWith(lib, token, secret, head, body, c)
  {
    var dot1 := FindDot(token, 0);
    var dot2 := FindDot(token, dot1 + 1);
    head, body := token[..dot1], token[dot1 + 1..dot2];
    SplitJoins(token, dot1, dot2);
    c := lib.parse(Decoded(body)).value;
  }

  /** Claims pass when they name a user, come from an accepted issuer and have not expired by the 32-bit
      reading; the verdict then names their subject and issuer. */
  lemma AcceptExact(c: Claims, now: int)
    ensures var p := Accept(c, now);
      && (p.valid <==> c.sub != "" && c.iss in {"swift-online", "swift-auth"} && now <= Int32(c.exp))
      && p.userId == c.sub && p.issuer == c.iss && p.iat == Int32(c.iat) && p.exp == Int32(c.exp)
  {
  }

  /** A token is accepted if and only if it consists of two dot-free segments and the encoded MAC of these
      under the verifier's secret, and the claims in it pass every check; the verdict names their subject. */
  lemma AcceptedExact(lib: Library, token: seq<byte>, secret: seq<byte>, now: int)
    ensures var p := Verified(lib, token, secret, now);
      p.valid <==>
        exists head, body, c ::
          && SignedWith(lib, token, secret, head, body, c)
          && c.sub != "" && c.iss in {"swift-online", "swift-auth"} && now <= Int32(c.exp)
          && p.userId == c.sub && p.issuer == c.iss
  {
    if Verified(lib, token, secret, now).valid {
      var head, body, c := VerifiedIsSigned(lib, token, secret, now);
      SignedIsVerified(lib, token, secret, now, head, body, c);
      AcceptExact(c, now);
    }
    forall head, body, c | SignedWith(lib, token, secret, head, body, c)
      ensures Verified(lib, token, secret, now) == Accept(c, now)
    {
      SignedIsVerified(lib, token, secret, now, head, body, c);
    }
  }

  /** Of all signatures under the same two segments exactly the encoded MAC under the verifier's secret is
      taken for good: any other makes the token invalid, whatever the claims and the time. */
  lemma OtherSignatureRefused(lib: Library, head: seq<byte>, body: seq<byte>, sig: seq<byte>, secret: seq<byte>,
      now: int)
    requires DotFree(head) && DotFree(body) && sig != Encoded(lib.mac(secret, head + [DOT] + body))
    ensures !Verified(lib, head + [DOT] + body + [DOT] + sig, secret, now).valid
  {
    VerifiedSplit(lib, head, body, sig, secret, now);
  }

  /** A token issued under one secret is refused under another whenever the two MACs of its message differ:
      base64url keeps different MACs apart. */
  lemma WrongSecretRefused(lib: Library, userId: string, secret: seq<byte>, other: seq<byte>, expireHours: int,
      issuer: string, issuedAt: int, now: int)
    ensures var claims :=
      Claims(if issuer == "" then "swift-online" else issuer, userId, issuedAt, issuedAt + expireHours * 3600);
      var msg := Encoded(lib.header) + [DOT] + Encoded(lib.dump(claims));
      lib.mac(secret, msg) != lib.mac(other, msg) ==>
        !Verified(lib, Issued(lib, userId, secret, expireHours, issuer, issuedAt), other, now).valid
  {
    var c := NewClaims(userId, expireHours, issuer, issuedAt);
    var head, body := Encoded(lib.header), Encoded(lib.dump(c));
    var msg := head + [DOT] + body;
    SegmentsAreDotFree(lib.header);
    SegmentsAreDotFree(lib.dump(c));
    if lib.mac(secret, msg) != lib.mac(other, msg) {
      CodecRoundTrip(lib.mac(secret, msg));
      CodecRoundTrip(lib.mac(other, msg));
      OtherSignatureRefused(lib, head, body, Encoded(lib.mac(secret, msg)), other, now);
    }
  }

  lemma SplitJoins(token: seq<byte>, dot1: nat, dot2: nat)
    requires dot1 < dot2 < |token| && token[dot1] == DOT && token[dot2] == DOT
    ensures token == token[..dot1] + [DOT] + token[dot1 + 1..dot2] + [DOT] + token[dot2 + 1..]
  {
  }
}
