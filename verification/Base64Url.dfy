/**
 The base64url codec of the JWT helper: unpadded section 5 of RFC 4648.  The reference is
 the standard's grouping of three bytes into four sextets; the methods are the source's
 bit accumulators over a 32-bit `int`, held in a bv32 so that shifts wrap as they do there.
 */
module Base64Url {

  type byte = bv8

  // ---------- reference grouping ----------

  function Top6(a: byte): bv8 { a >> 2 }
  function Mid6(a: byte, b: byte): bv8 { ((a & 0x03) << 4) | (b >> 4) }
  function Low6(b: byte, c: byte): bv8 { ((b & 0x0F) << 2) | (c >> 6) }
  function Last6(c: byte): bv8 { c & 0x3F }

  function Top8(p: bv8, q: bv8): byte { (p << 2) | (q >> 4) }
  function Mid8(q: bv8, r: bv8): byte { ((q & 0x0F) << 4) | (r >> 2) }
  function Low8(r: bv8, t: bv8): byte { ((r & 0x03) << 6) | t }

  lemma GroupRoundTrip(a: byte, b: byte, c: byte)
    ensures Top8(Top6(a), Mid6(a, b)) == a && Mid8(Mid6(a, b), Low6(b, c)) == b && Low8(Low6(b, c), Last6(c)) == c
  {
  }

  lemma SextetRange(a: byte, b: byte)
    ensures Top6(a) < 64 && Mid6(a, b) < 64 && Low6(a, b) < 64 && Last6(a) < 64
  {
  }

  /** Sextets of a byte string; a tail of one or two bytes is filled up with zero bits. */
  function Sextets(s: seq<byte>): seq<bv8> {
    if s == [] then []
    else if |s| == 1 then [Top6(s[0]), Mid6(s[0], 0)]
    else if |s| == 2 then [Top6(s[0]), Mid6(s[0], s[1]), Low6(s[1], 0)]
    else [Top6(s[0]), Mid6(s[0], s[1]), Low6(s[1], s[2]), Last6(s[2])] + Sextets(s[3..])
  }

  /** Bytes of a sextet string; bits of an incomplete byte are dropped. */
  function BytesOf(t: seq<bv8>): seq<byte> {
    if |t| <= 1 then []
    else if |t| == 2 then [Top8(t[0], t[1])]
    else if |t| == 3 then [Top8(t[0], t[1]), Mid8(t[1], t[2])]
    else [Top8(t[0], t[1]), Mid8(t[1], t[2]), Low8(t[2], t[3])] + BytesOf(t[4..])
  }

  ghost predicate AllSextets(t: seq<bv8>) {
    forall i :: 0 <= i < |t| ==> t[i] < 64
  }

  lemma {:induction false} SextetsInRange(s: seq<byte>)
    ensures AllSextets(Sextets(s))
  {
    if s != [] { SextetRange(s[0], if |s| > 1 then s[1] else 0); }
    if |s| == 2 { SextetRange(s[1], 0); }
    if |s| >= 3 {
      SextetRange(s[1], s[2]);
      SextetRange(s[2], 0);
      SextetsInRange(s[3..]);
    }
  }

  lemma {:induction false} SextetCount(s: seq<byte>)
    ensures |Sextets(s)| == (4 * |s| + 2) / 3
  {
    if |s| >= 3 {
      SextetCount(s[3..]);
      assert 4 * |s| + 2 == 4 * |s[3..]| + 2 + 3 * 4;
    }
  }

  lemma {:induction false} SextetsRoundTrip(s: seq<byte>)
    ensures BytesOf(Sextets(s)) == s
  {
    if |s| == 1 {
      GroupRoundTrip(s[0], 0, 0);
    } else if |s| == 2 {
      GroupRoundTrip(s[0], s[1], 0);
    } else if |s| >= 3 {
      SextetsRoundTrip(s[3..]);
      GroupRoundTrip(s[0], s[1], s[2]);
      assert Sextets(s)[4..] == Sextets(s[3..]);
    }
  }

  // ---------- alphabet ----------

  /** The standard alphabet `A-Za-z0-9+/`, as character codes. */
  function StdChar(v: bv8): byte {
    if v < 26 then 65 + v else if v < 52 then 97 + (v - 26) else if v < 62 then 48 + (v - 52)
    else if v == 62 then 43 else 47
  }

  /** `+` and `/` become `-` and `_`. */
  function ToUrl(c: byte): byte { if c == 43 then 45 else if c == 47 then 95 else c }

  function FromUrl(c: byte): byte { if c == 45 then 43 else if c == 95 then 47 else c }

  const NONE: bv8 := 255

  /** The decode table: NONE (-1) outside the alphabet, but 0 for codes from 128 on, which
      the initialiser of the table leaves out. */
  function Table(c: byte): bv8 {
    if c >= 128 then 0
    else if 65 <= c <= 90 then c - 65
    else if 97 <= c <= 122 then c - 97 + 26
    else if 48 <= c <= 57 then c - 48 + 52
    else if c == 43 then 62
    else if c == 47 then 63
    else NONE
  }

  /** Section 5 of RFC 4648: letters, digits, `-` and `_`. */
  predicate InUrlAlphabet(c: byte) {
    65 <= c <= 90 || 97 <= c <= 122 || 48 <= c <= 57 || c == 45 || c == 95
  }

  lemma CharRoundTrip(v: bv8)
    requires v < 64
    ensures Table(FromUrl(ToUrl(StdChar(v)))) == v && InUrlAlphabet(ToUrl(StdChar(v)))
  {
  }

  /** Decoding stops at exactly the ASCII characters outside both alphabets; a code from 128 on reads as zero bits. */
  lemma StopsExact(c: byte)
    ensures Table(FromUrl(c)) == NONE <==> c < 128 && !InUrlAlphabet(c) && c != 43 && c != 47
    ensures c >= 128 ==> Table(FromUrl(c)) == 0
  {
  }

  /** The encoded form of a byte string. */
  ghost function Encoded(s: seq<byte>): (r: seq<byte>)
    ensures |r| == |Sextets(s)|
  {
    var t := Sextets(s);
    seq(|t|, i requires 0 <= i < |t| => ToUrl(StdChar(t[i])))
  }

  /** Table values of the characters before the first one outside the alphabet. */
  ghost function Values(s: seq<byte>): seq<bv8> {
    if s == [] || Table(FromUrl(s[0])) == NONE then [] else [Table(FromUrl(s[0]))] + Values(s[1..])
  }

  ghost function Decoded(s: seq<byte>): seq<byte> {
    BytesOf(Values(s))
  }

  lemma {:induction false} ValuesOfChars(s: seq<byte>, t: seq<bv8>)
    requires |s| == |t| && AllSextets(t) && forall i :: 0 <= i < |t| ==> s[i] == ToUrl(StdChar(t[i]))
    ensures Values(s) == t
  {
    if s != [] {
      CharRoundTrip(t[0]);
      ValuesOfChars(s[1..], t[1..]);
      assert t == [t[0]] + t[1..];
    }
  }

  /** Decoding inverts encoding, for every byte string. */
  lemma CodecRoundTrip(s: seq<byte>)
    ensures Decoded(Encoded(s)) == s
  {
    SextetsInRange(s);
    ValuesOfChars(Encoded(s), Sextets(s));
    SextetsRoundTrip(s);
  }

  /** The output is unpadded, of length ceil(4n/3), over the URL-safe alphabet. */
  lemma EncodedShape(s: seq<byte>)
    ensures |Encoded(s)| == (4 * |s| + 2) / 3
    ensures forall i :: 0 <= i < |Encoded(s)| ==> InUrlAlphabet(Encoded(s)[i])
  {
    SextetCount(s);
    SextetsInRange(s);
    forall i | 0 <= i < |Encoded(s)| ensures InUrlAlphabet(Encoded(s)[i]) {
      CharRoundTrip(Sextets(s)[i]);
    }
  }

  // ---------- 32-bit shifts ----------

  /** The shift amounts that occur. */
  ghost predicate Amount(k: int) { k == 0 || k == 2 || k == 4 || k == 6 }

  /** Arithmetic right shift of a 32-bit `int`: the sign bit is copied in from the left. */
  function Sar(val: bv32, k: int): bv32
    requires Amount(k)
  {
    var negative := val & 0x8000_0000 != 0;
    if k == 0 then val
    else if k == 2 then (val >> 2) | (if negative then 0xC000_0000 else 0)
    else if k == 4 then (val >> 4) | (if negative then 0xF000_0000 else 0)
    else (val >> 6) | (if negative then 0xFC00_0000 else 0)
  }

  function Sextet(val: bv32): bv8 { (val & 0x3F) as bv8 }
  function Octet(val: bv32): bv8 { (val & 0xFF) as bv8 }

  /** `(val << 8) + b`, wrapping at 32 bits. */
  function AddByte(val: bv32, b: byte): bv32 { (val << 8) + (b as bv32) }

  /** `(val << 6) + T[c]`, wrapping at 32 bits. */
  function AddSextet(val: bv32, t: bv8): bv32 { (val << 6) + (t as bv32) }

  // ---------- the standard, written out ----------

  function Run(first: char, n: nat): (r: string)
    requires first as nat + n <= 128
    ensures |r| == n && forall i :: 0 <= i < n ==> r[i] as int == first as int + i
  {
    seq(n, i requires 0 <= i < n => (first as int + i) as char)
  }

  /** Table 2 of RFC 4648. */
  const ALPHABET := Run('A', 26) + Run('a', 26) + Run('0', 10) + "-_"

  lemma AlphabetCodes(v: nat)
    requires v < 64
    ensures |ALPHABET| == 64
    ensures v < 26 ==> ALPHABET[v] as int == 65 + v
    ensures 26 <= v < 52 ==> ALPHABET[v] as int == 97 + v - 26
    ensures 52 <= v < 62 ==> ALPHABET[v] as int == 48 + v - 52
    ensures v == 62 ==> ALPHABET[v] == '-'
    ensures v == 63 ==> ALPHABET[v] == '_'
  {
  }

  /** The sextet `v` is written as the character that the standard's table gives it. */
  lemma AlphabetExact(v: bv8)
    requires v < 64
    ensures |ALPHABET| == 64 && ToUrl(StdChar(v)) as char == ALPHABET[v as int]
  {
    AlphabetCodes(v as int);
  }

  /** Three bytes as one number, the first on the left. */
  function Number(a: byte, b: byte, c: byte): bv32 {
    ((a as bv32) << 16) | ((b as bv32) << 8) | (c as bv32)
  }

  /** The group that begins at `k`; a missing byte is zero. */
  function Group(s: seq<byte>, k: nat): bv32
    requires k < |s|
  {
    Number(s[k], if k + 1 < |s| then s[k + 1] else 0, if k + 2 < |s| then s[k + 2] else 0)
  }

  /** Sextet `j` of a group, from the left. */
  function SextetOf(n: bv32, j: nat): (r: bv8)
    requires j < 4
    ensures r < 64
  {
    if j == 0 then Sextet(n >> 18) else if j == 1 then Sextet(n >> 12) else if j == 2 then Sextet(n >> 6) else Sextet(n)
  }

  lemma GroupBits(a: byte, b: byte, c: byte)
    ensures SextetOf(Number(a, b, c), 0) == Top6(a) && SextetOf(Number(a, b, c), 1) == Mid6(a, b)
    ensures SextetOf(Number(a, b, c), 2) == Low6(b, c) && SextetOf(Number(a, b, c), 3) == Last6(c)
  {
  }

  lemma FirstGroup(s: seq<byte>, j: nat)
    requires s != [] && j < 4 && j < |Sextets(s)|
    ensures Sextets(s)[j] == SextetOf(Group(s, 0), j)
  {
    var a, b, c := s[0], if 1 < |s| then s[1] else 0, if 2 < |s| then s[2] else 0;
    GroupBits(a, b, c);
    assert Group(s, 0) == Number(a, b, c);
    FirstFour(s, a, b, c, j);
  }

  lemma FirstFour(s: seq<byte>, a: byte, b: byte, c: byte, j: nat)
    requires s != [] && j < 4 && j < |Sextets(s)| && a == s[0]
    requires b == (if 1 < |s| then s[1] else 0) && c == (if 2 < |s| then s[2] else 0)
    ensures Sextets(s)[j] == [Top6(a), Mid6(a, b), Low6(b, c), Last6(c)][j]
  {
  }

  lemma {:induction false} SextetsAt(s: seq<byte>, k: nat, j: nat)
    requires 3 * k < |s| && j < 4 && 4 * k + j < |Sextets(s)|
    ensures Sextets(s)[4 * k + j] == SextetOf(Group(s, 3 * k), j)
  {
    if k == 0 {
      FirstGroup(s, j);
    } else {
      SextetsAt(s[3..], k - 1, j);
      assert Group(s[3..], 3 * (k - 1)) == Group(s, 3 * k);
    }
  }

  /** Every character of an encoding is the standard's: the three bytes from 3k on, as one 24-bit number, are
      cut into sextets from the left, and each is looked up in the standard's table. */
  lemma EncodedExact(s: seq<byte>, k: nat, j: nat)
    requires 3 * k < |s| && j < 4 && 4 * k + j < |Encoded(s)|
    ensures |ALPHABET| == 64
    ensures Encoded(s)[4 * k + j] as char == ALPHABET[SextetOf(Group(s, 3 * k), j) as int]
  {
    SextetsAt(s, k, j);
    AlphabetExact(SextetOf(Group(s, 3 * k), j));
  }

  // ---------- the encoder ----------

  /** Sextets pushed while `valb` is not negative. */
  ghost function Drain(val: bv32, valb: int): seq<bv8>
    requires valb < 0 || Amount(valb)
    decreases valb + 6
  {
    if valb < 0 then [] else [Sextet(Sar(val, valb))] + Drain(val, valb - 6)
  }

  /** Fill levels of the encoder between bytes. */
  ghost predicate Fill(valb: int) { valb == -6 || valb == -4 || valb == -2 }

  ghost function NextFill(valb: int): int {
    if valb == -2 then -6 else valb + 2
  }

  /** What the encoder still pushes for the bytes `s`, including the final flush. */
  ghost function Pushed(s: seq<byte>, val: bv32, valb: int): seq<bv8>
    requires Fill(valb)
  {
    if s == [] then (if valb > -6 then [Sextet(Sar(val << 8, valb + 8))] else [])
    else
      var v := AddByte(val, s[0]);
      Drain(v, valb + 8) + Pushed(s[1..], v, NextFill(valb))
  }

  lemma PushedOne(s: seq<byte>, val: bv32)
    requires s != []
    ensures var v := AddByte(val, s[0]);
      Pushed(s, val, -6) == [Sextet(Sar(v, 2))] + Pushed(s[1..], v, -4)
  {
    var v := AddByte(val, s[0]);
    assert Drain(v, 2) == [Sextet(Sar(v, 2))];
  }

  lemma PushedTwo(s: seq<byte>, val: bv32)
    requires s != []
    ensures var v := AddByte(val, s[0]);
      Pushed(s, val, -4) == [Sextet(Sar(v, 4))] + Pushed(s[1..], v, -2)
  {
    var v := AddByte(val, s[0]);
    assert Drain(v, 4) == [Sextet(Sar(v, 4))];
  }

  lemma PushedThree(s: seq<byte>, val: bv32)
    requires s != []
    ensures var v := AddByte(val, s[0]);
      Pushed(s, val, -2) == [Sextet(Sar(v, 6)), Sextet(Sar(v, 0))] + Pushed(s[1..], v, -6)
  {
    DrainTwo(AddByte(val, s[0]));
  }

  lemma DrainTwo(v: bv32)
    ensures Drain(v, 6) == [Sextet(Sar(v, 6)), Sextet(Sar(v, 0))]
  {
    assert Drain(v, 0) == [Sextet(Sar(v, 0))] + Drain(v, -6);
    assert Drain(v, 6) == [Sextet(Sar(v, 6))] + Drain(v, 0);
  }

  /** What was in the accumulator before a group does not show in the group's sextets. */
  lemma TopBits(val: bv32, a: byte)
    ensures Sextet(Sar(AddByte(val, a), 2)) == Top6(a)
  {
  }

  lemma MidBits(val: bv32, a: byte, b: byte)
    ensures Sextet(Sar(AddByte(AddByte(val, a), b), 4)) == Mid6(a, b)
    ensures Sextet(Sar(AddByte(val, a) << 8, 4)) == Mid6(a, 0)
  {
  }

  lemma LowBits(val: bv32, a: byte, b: byte)
    ensures Sextet(Sar(AddByte(AddByte(val, a), b), 6)) == Low6(a, b)
    ensures Sextet(Sar(AddByte(val, a) << 8, 6)) == Low6(a, 0)
  {
  }

  lemma LastBits(val: bv32, a: byte)
    ensures Sextet(Sar(AddByte(val, a), 0)) == Last6(a)
  {
  }

  /** The accumulator loop computes the standard's grouping, whatever it held before. */
  lemma {:induction false} PushedIsSextets(s: seq<byte>, val: bv32)
    ensures Pushed(s, val, -6) == Sextets(s)
    decreases |s|, 2
  {
    if s != [] {
      var v1 := AddByte(val, s[0]);
      PushedOne(s, val);
      TopBits(val, s[0]);
      if |s| == 1 {
        MidBits(val, s[0], 0);
      } else {
        PushedTail(s, val, v1);
      }
    }
  }

  lemma {:induction false} PushedTail(s: seq<byte>, val: bv32, v1: bv32)
    requires |s| >= 2 && v1 == AddByte(val, s[0])
    ensures [Top6(s[0])] + Pushed(s[1..], v1, -4) == Sextets(s)
    decreases |s|, 1
  {
    var v2 := AddByte(v1, s[1]);
    PushedTwo(s[1..], v1);
    MidBits(val, s[0], s[1]);
    assert s[1..][1..] == s[2..];
    PushedLast(s, v1, v2);
  }

  lemma {:induction false} PushedLast(s: seq<byte>, v1: bv32, v2: bv32)
    requires |s| >= 2 && v2 == AddByte(v1, s[1])
    ensures [Top6(s[0]), Mid6(s[0], s[1])] + Pushed(s[2..], v2, -2) == Sextets(s)
    decreases |s|, 0
  {
    if |s| == 2 {
      LowBits(v1, s[1], 0);
    } else {
      PushedThree(s[2..], v2);
      LowBits(v1, s[1], s[2]);
      LastBits(v2, s[2]);
      assert s[2..][1..] == s[3..];
      PushedIsSextets(s[3..], AddByte(v2, s[2]));
    }
  }

  /** `out` spells the sextets `em` in the standard alphabet. */
  ghost predicate Spells(out: seq<byte>, em: seq<bv8>) {
    |out| == |em| && forall i :: 0 <= i < |em| ==> out[i] == StdChar(em[i])
  }

  /** `Base64UrlEncode`: the accumulator loop, then the alphabet substitution and the
      removal of padding, of which there is none. */
  method Base64UrlEncode(data: seq<byte>) returns (out: seq<byte>)
    ensures out == Encoded(data)
  {
    var std := Accumulate(data);
    var url := Substitute(std);
    assert url == Encoded(data);
    EncodedShape(data);
    out := StripPadding(url);
  }

  method Accumulate(data: seq<byte>) returns (out: seq<byte>)
    ensures Spells(out, Sextets(data))
  {
    out := [];
    var val: bv32, valb := 0, -6;
    ghost var em: seq<bv8> := [];
    assert data[0..] == data && [] + Pushed(data, 0, -6) == Pushed(data, 0, -6);
    for i := 0 to |data|
      invariant Fill(valb) && Spells(out, em)
      invariant em + Pushed(data[i..], val, valb) == Pushed(data, 0, -6)
    {
      PushedStep(data, i, val, valb, em);
      val := AddByte(val, data[i]);
      valb := valb + 8;
      out, valb, em := PushSextets(val, valb, out, em);
    }
    assert Pushed(data, 0, -6) == em + Pushed([], val, valb);
    PushedIsSextets(data, 0);
    if valb > -6 {
      out := out + [StdChar(Sextet(Sar(val << 8, valb + 8)))];
    }
  }

  lemma PushedStep(data: seq<byte>, i: nat, val: bv32, valb: int, em: seq<bv8>)
    requires i < |data| && Fill(valb)
    ensures var v := AddByte(val, data[i]);
      em + Pushed(data[i..], val, valb) == em + Drain(v, valb + 8) + Pushed(data[i + 1..], v, NextFill(valb))
  {
    var v := AddByte(val, data[i]);
    PushedFirst(data[i..], val, valb);
    assert data[i..][1..] == data[i + 1..];
    AppendTwice(em, Drain(v, valb + 8), Pushed(data[i + 1..], v, NextFill(valb)));
  }

  lemma PushedFirst(s: seq<byte>, val: bv32, valb: int)
    requires s != [] && Fill(valb)
    ensures var v := AddByte(val, s[0]); Pushed(s, val, valb) == Drain(v, valb + 8) + Pushed(s[1..], v, NextFill(valb))
  {
  }

  lemma AppendTwice(a: seq<bv8>, b: seq<bv8>, c: seq<bv8>)
    ensures a + (b + c) == a + b + c
  {
  }

  method PushSextets(val: bv32, fill: int, soFar: seq<byte>, ghost em: seq<bv8>)
      returns (out: seq<byte>, valb: int, ghost em': seq<bv8>)
    requires (fill == 2 || fill == 4 || fill == 6) && Spells(soFar, em)
    ensures em' == em + Drain(val, fill) && Spells(out, em') && valb == if fill == 6 then -6 else fill - 6
  {
    out, valb, em' := soFar, fill, em;
    while valb >= 0
      invariant valb == fill || valb == fill - 6 || (fill == 6 && valb == -6)
      invariant Spells(out, em') && em' + Drain(val, valb) == em + Drain(val, fill)
    {
      var v := Sextet(Sar(val, valb));
      assert em' + [v] + Drain(val, valb - 6) == em + Drain(val, fill);
      out := out + [StdChar(v)];
      em' := em' + [v];
      valb := valb - 6;
    }
  }

  method Substitute(s: seq<byte>) returns (out: seq<byte>)
    ensures |out| == |s| && forall i :: 0 <= i < |s| ==> out[i] == ToUrl(s[i])
  {
    out := s;
    for i := 0 to |s|
      invariant |out| == |s|
      invariant forall j :: 0 <= j < i ==> out[j] == ToUrl(s[j])
      invariant forall j :: i <= j < |s| ==> out[j] == s[j]
    {
      if out[i] == 43 { out := out[i := 45]; } else if out[i] == 47 { out := out[i := 95]; }
    }
  }

  method StripPadding(s: seq<byte>) returns (out: seq<byte>)
    ensures out <= s && (out != [] ==> out[|out| - 1] != 61)
    ensures forall i :: |out| <= i < |s| ==> s[i] == 61
    ensures s == [] || s[|s| - 1] != 61 ==> out == s
  {
    out := s;
    while out != [] && out[|out| - 1] == 61
      invariant out <= s && forall i :: |out| <= i < |s| ==> s[i] == 61
      invariant s == [] || s[|s| - 1] != 61 ==> out == s
    {
      out := out[..|out| - 1];
    }
  }

  // ---------- the decoder ----------

  ghost function EmitIf(valb: int, v: bv32): seq<byte>
    requires valb < 0 || Amount(valb)
  {
    if valb >= 0 then [Octet(Sar(v, valb))] else []
  }

  lemma TableRange(c: byte)
    ensures Table(c) != NONE ==> Table(c) < 64
  {
  }

  /** Fill levels of the decoder between characters. */
  ghost predicate Level(valb: int) { valb == -8 || valb == -6 || valb == -4 || valb == -2 }

  /** What the loop still pushes for the characters `s`. */
  ghost function Rest(s: seq<byte>, val: bv32, valb: int): seq<byte>
    requires Level(valb)
  {
    if s == [] || Table(s[0]) == NONE then []
    else
      var v := AddSextet(val, Table(s[0]));
      EmitIf(valb + 6, v) + Rest(s[1..], v, NextLevel(valb))
  }

  /** The characters `s` are the restored, padded form of `input`. */
  ghost predicate RestoredPadded(s: seq<byte>, input: seq<byte>) {
    && |input| <= |s|
    && (forall i :: 0 <= i < |input| ==> s[i] == FromUrl(input[i]))
    && (forall i :: |input| <= i < |s| ==> s[i] == 61)
  }

  lemma NextChar(s: seq<byte>, input: seq<byte>)
    requires RestoredPadded(s, input)
    ensures s == [] || Table(s[0]) == NONE ==> Values(input) == []
    ensures s != [] && Table(s[0]) != NONE ==>
      input != [] && RestoredPadded(s[1..], input[1..]) && Values(input) == [Table(s[0])] + Values(input[1..])
  {
  }

  /** The characters before the first one outside the alphabet. */
  lemma {:induction false} RestReads(s: seq<byte>, input: seq<byte>, val: bv32, valb: int)
    requires RestoredPadded(s, input) && Level(valb)
    ensures Rest(s, val, valb) == Emitted(Values(input), val, valb)
  {
    NextChar(s, input);
    if s != [] && Table(s[0]) != NONE {
      RestReads(s[1..], input[1..], AddSextet(val, Table(s[0])), NextLevel(valb));
      assert Values(input)[1..] == Values(input[1..]);
    }
  }

  /** What the decoder loop pushes for the sextets `t`. */
  ghost function Emitted(t: seq<bv8>, val: bv32, valb: int): seq<byte>
    requires Level(valb)
  {
    if t == [] then []
    else
      var v := AddSextet(val, t[0]);
      EmitIf(valb + 6, v) + Emitted(t[1..], v, NextLevel(valb))
  }

  lemma Top8Bits(val: bv32, p: bv8, q: bv8)
    requires p < 64 && q < 64
    ensures Octet(Sar(AddSextet(AddSextet(val, p), q), 4)) == Top8(p, q)
  {
  }

  lemma Mid8Bits(val: bv32, q: bv8, r: bv8)
    requires q < 64 && r < 64
    ensures Octet(Sar(AddSextet(AddSextet(val, q), r), 2)) == Mid8(q, r)
  {
  }

  lemma Low8Bits(val: bv32, r: bv8, t: bv8)
    requires r < 64 && t < 64
    ensures Octet(Sar(AddSextet(AddSextet(val, r), t), 0)) == Low8(r, t)
  {
  }

  lemma EmittedOne(t: seq<bv8>, val: bv32, valb: int)
    requires t != [] && Level(valb)
    ensures var v := AddSextet(val, t[0]);
      Emitted(t, val, valb)
      == (if valb == -8 then [] else [Octet(Sar(v, valb + 6))]) + Emitted(t[1..], v, NextLevel(valb))
  {
  }

  /** The accumulator loop computes the standard's grouping, whatever it held before. */
  lemma {:induction false} EmittedIsBytes(t: seq<bv8>, val: bv32)
    requires AllSextets(t)
    ensures Emitted(t, val, -8) == BytesOf(t)
    decreases |t|, 2
  {
    if t != [] {
      var v1 := AddSextet(val, t[0]);
      EmittedOne(t, val, -8);
      if |t| > 1 {
        var v2 := AddSextet(v1, t[1]);
        EmittedOne(t[1..], v1, -2);
        Top8Bits(val, t[0], t[1]);
        assert t[1..][1..] == t[2..];
        if |t| > 2 { EmittedTail(t, v1, v2); }
      }
    }
  }

  lemma {:induction false} EmittedTail(t: seq<bv8>, v1: bv32, v2: bv32)
    requires |t| >= 3 && AllSextets(t) && v2 == AddSextet(v1, t[1])
    ensures [Top8(t[0], t[1])] + Emitted(t[2..], v2, -4) == BytesOf(t)
    decreases |t|, 1
  {
    var v3 := AddSextet(v2, t[2]);
    EmittedOne(t[2..], v2, -4);
    Mid8Bits(v1, t[1], t[2]);
    assert t[2..][1..] == t[3..];
    if |t| > 3 { EmittedLast(t, v2, v3); }
  }

  lemma {:induction false} EmittedLast(t: seq<bv8>, v2: bv32, v3: bv32)
    requires |t| >= 4 && AllSextets(t) && v3 == AddSextet(v2, t[2])
    ensures Emitted(t[3..], v3, -6) == [Low8(t[2], t[3])] + BytesOf(t[4..])
    decreases |t|, 0
  {
    EmittedOne(t[3..], v3, -6);
    Low8Bits(v2, t[2], t[3]);
    assert t[3..][1..] == t[4..];
    EmittedIsBytes(t[4..], AddSextet(v3, t[3]));
  }

  lemma {:induction false} ValuesInRange(s: seq<byte>)
    ensures AllSextets(Values(s))
  {
    if s != [] && Table(FromUrl(s[0])) != NONE {
      TableRange(FromUrl(s[0]));
      ValuesInRange(s[1..]);
    }
  }

  /** `Base64UrlDecode`: decodes up to the first character outside the alphabet. */
  method Base64UrlDecode(input: seq<byte>) returns (out: seq<byte>)
    ensures out == Decoded(input)
  {
    var s := Restore(input);
    s := Pad(s);
    RestReads(s, input, 0, -8);
    ValuesInRange(input);
    EmittedIsBytes(Values(input), 0);
    out := DecodeLoop(s);
  }

  ghost function NextLevel(valb: int): int {
    if valb + 6 >= 0 then valb - 2 else valb + 6
  }

  lemma RestStep(s: seq<byte>, i: nat, val: bv32, valb: int, out: seq<byte>)
    requires i < |s| && Level(valb) && Table(s[i]) != NONE
    ensures var v := AddSextet(val, Table(s[i]));
      out + Rest(s[i..], val, valb) == out + EmitIf(valb + 6, v) + Rest(s[i + 1..], v, NextLevel(valb))
  {
    var v := AddSextet(val, Table(s[i]));
    assert s[i..][1..] == s[i + 1..];
    var e, rest := EmitIf(valb + 6, v), Rest(s[i + 1..], v, NextLevel(valb));
    assert Rest(s[i..], val, valb) == e + rest;
    assert out + (e + rest) == out + e + rest;
  }

  method DecodeLoop(s: seq<byte>) returns (out: seq<byte>)
    ensures out == Rest(s, 0, -8)
  {
    out := [];
    var val: bv32, valb, i := 0, -8, 0;
    assert s[0..] == s && [] + Rest(s, 0, -8) == Rest(s, 0, -8);
    while i < |s|
      invariant i <= |s| && Level(valb)
      invariant out + Rest(s[i..], val, valb) == Rest(s, 0, -8)
    {
      if Table(s[i]) == NONE { break; }
      RestStep(s, i, val, valb, out);
      ghost var emit := EmitIf(valb + 6, AddSextet(val, Table(s[i])));
      ghost var before := out;
      val := AddSextet(val, Table(s[i]));
      valb := valb + 6;
      if valb >= 0 {
        out := out + [Octet(Sar(val, valb))];
        valb := valb - 8;
      }
      assert out == before + emit;
      i := i + 1;
    }
    assert Rest(s[i..], val, valb) == [];
  }

  method Restore(s: seq<byte>) returns (out: seq<byte>)
    ensures |out| == |s| && forall i :: 0 <= i < |s| ==> out[i] == FromUrl(s[i])
  {
    out := s;
    for i := 0 to |s|
      invariant |out| == |s|
      invariant forall j :: 0 <= j < i ==> out[j] == FromUrl(s[j])
      invariant forall j :: i <= j < |s| ==> out[j] == s[j]
    {
      if out[i] == 45 { out := out[i := 43]; } else if out[i] == 95 { out := out[i := 47]; }
    }
  }

  method Pad(s: seq<byte>) returns (out: seq<byte>)
    ensures s <= out && |out| % 4 == 0 && forall i :: |s| <= i < |out| ==> out[i] == 61
  {
    out := s;
    while |out| % 4 != 0
      invariant s <= out && forall i :: |s| <= i < |out| ==> out[i] == 61
      decreases (4 - |out| % 4) % 4
    {
      out := out + [61];
    }
  }
}
