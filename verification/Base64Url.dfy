/**
 * Unpadded base64url (section 5 of RFC 4648), decoded leniently and accepted only where it re-encodes to the same text.
 */
module Base64Url {
  import opened Wrappers

  type Byte = x: int | 0 <= x < 256
  type Sextet = x: int | 0 <= x < 64

  // ---- The alphabet ----

  predicate InAlphabet(c: char) {
    'A' <= c <= 'Z' || 'a' <= c <= 'z' || '0' <= c <= '9' || c == '-' || c == '_'
  }

  function CharOf(v: Sextet): (c: char)
    ensures InAlphabet(c)
  {
    if v < 26 then 'A' + v as char
    else if v < 52 then 'a' + (v - 26) as char
    else if v < 62 then '0' + (v - 52) as char
    else if v == 62 then '-'
    else '_'
  }

  function ValueOf(c: char): (v: Sextet)
    requires InAlphabet(c)
    ensures CharOf(v) == c
  {
    if 'A' <= c <= 'Z' then c as int - 'A' as int
    else if 'a' <= c <= 'z' then c as int - 'a' as int + 26
    else if '0' <= c <= '9' then c as int - '0' as int + 52
    else if c == '-' then 62
    else 63
  }

  /** The alphabet in its order (table 2 of RFC 4648). */
  lemma AlphabetInOrder()
    ensures CharOf(0) == 'A' && CharOf(26) == 'a' && CharOf(52) == '0' && CharOf(62) == '-' && CharOf(63) == '_'
    ensures forall v: Sextet :: 0 < v < 62 && v != 26 && v != 52 ==> CharOf(v) as int == CharOf(v - 1) as int + 1
  {
  }

  lemma ValueOfChar(v: Sextet)
    ensures ValueOf(CharOf(v)) == v
  {
  }

  predicate AllInAlphabet(s: string) {
    forall i :: 0 <= i < |s| ==> InAlphabet(s[i])
  }

  function Values(s: string): (v: seq<Sextet>)
    requires AllInAlphabet(s)
    ensures |v| == |s| && forall i :: 0 <= i < |s| ==> v[i] == ValueOf(s[i])
  {
    seq(|s|, i requires 0 <= i < |s| => ValueOf(s[i]))
  }

  function Chars(v: seq<Sextet>): (s: string)
    ensures |s| == |v| && forall i :: 0 <= i < |v| ==> s[i] == CharOf(v[i])
    ensures AllInAlphabet(s)
  {
    seq(|v|, i requires 0 <= i < |v| => CharOf(v[i]))
  }

  // ---- Groups of three bytes and four characters ----

  /** The characters of 24 bits. */
  function Quad(a: Byte, b: Byte, c: Byte): (q: seq<Sextet>)
    ensures |q| == 4
  {
    [a / 4, a % 4 * 16 + b / 16, b % 16 * 4 + c / 64, c % 64]
  }

  /** The bytes of 24 bits. */
  function Triple(v: Sextet, w: Sextet, x: Sextet, y: Sextet): (t: seq<Byte>)
    ensures |t| == 3
  {
    [v * 4 + w / 16, w % 16 * 16 + x / 4, x % 4 * 64 + y]
  }

  lemma TripleOfQuad(a: Byte, b: Byte, c: Byte)
    ensures var q := Quad(a, b, c); Triple(q[0], q[1], q[2], q[3]) == [a, b, c]
  {
  }

  lemma Digits(q: nat, r: nat)
    ensures r < 4 ==> (q * 4 + r) / 4 == q && (q * 4 + r) % 4 == r
    ensures r < 16 ==> (q * 16 + r) / 16 == q && (q * 16 + r) % 16 == r
    ensures r < 64 ==> (q * 64 + r) / 64 == q && (q * 64 + r) % 64 == r
  {
  }

  lemma QuadOfTriple(v: Sextet, w: Sextet, x: Sextet, y: Sextet)
    ensures var t := Triple(v, w, x, y); Quad(t[0], t[1], t[2]) == [v, w, x, y]
  {
    Digits(v, w / 16);
    Digits(w % 16, x / 4);
    Digits(x % 4, y);
    var t := Triple(v, w, x, y);
    assert t[0] / 4 == v && t[0] % 4 == w / 16;
    assert t[1] / 16 == w % 16 && t[1] % 16 == x / 4;
    assert t[2] / 64 == x % 4 && t[2] % 64 == y;
  }

  function Encode(b: seq<Byte>): seq<Sextet> {
    if |b| == 0 then []
    else if |b| == 1 then Quad(b[0], 0, 0)[..2]
    else if |b| == 2 then Quad(b[0], b[1], 0)[..3]
    else Quad(b[0], b[1], b[2]) + Encode(b[3..])
  }

  /** Whole bytes only: bits past the last whole byte are dropped, and so is a character alone. */
  function Decode(v: seq<Sextet>): seq<Byte> {
    if |v| < 2 then []
    else if |v| == 2 then Triple(v[0], v[1], 0, 0)[..1]
    else if |v| == 3 then Triple(v[0], v[1], v[2], 0)[..2]
    else Triple(v[0], v[1], v[2], v[3]) + Decode(v[4..])
  }

  // ---- The two strict decoders ----

  function TextOf(b: seq<Byte>): string {
    Chars(Encode(b))
  }

  /** `strictBase64url`: nothing where the text is not exactly what its bytes encode to. */
  function StrictBase64url(s: string): Option<seq<Byte>> {
    if s == "" || !AllInAlphabet(s) then None
    else
      var bytes := Decode(Values(s));
      if TextOf(bytes) == s then Some(bytes) else None
  }

  /** `base64urlBytes`: refused, besides, where no byte is decoded. */
  function Base64urlBytes(s: string): Option<seq<Byte>> {
    if s == "" || !AllInAlphabet(s) then None
    else
      var bytes := Decode(Values(s));
      if bytes == [] || TextOf(bytes) != s then None else Some(bytes)
  }

  // ---- What they accept ----

  /** A length some bytes encode to, and no bits left over after the last whole byte. */
  predicate Canonical(v: seq<Sextet>) {
    && |v| % 4 != 1
    && (|v| % 4 == 2 ==> v[|v| - 1] % 16 == 0)
    && (|v| % 4 == 3 ==> v[|v| - 1] % 4 == 0)
  }

  lemma {:induction false} DecodeOfEncode(b: seq<Byte>)
    ensures Decode(Encode(b)) == b
    ensures |Encode(b)| > 0 <==> b != []
  {
    if |b| == 1 {
      TripleOfQuad(b[0], 0, 0);
    } else if |b| == 2 {
      TripleOfQuad(b[0], b[1], 0);
    } else if |b| > 2 {
      DecodeOfEncode(b[3..]);
      TripleOfQuad(b[0], b[1], b[2]);
      var v := Encode(b);
      assert v[..4] == Quad(b[0], b[1], b[2]) && v[4..] == Encode(b[3..]);
      assert b == [b[0], b[1], b[2]] + b[3..];
    }
  }

  /** Three bytes, or four characters, as one number, the first the most significant. */
  function OfBytes(a: int, b: int, c: int): int {
    (a * 256 + b) * 256 + c
  }

  function OfSextets(v: int, w: int, x: int, y: int): int {
    ((v * 64 + w) * 64 + x) * 64 + y
  }

  lemma QuadIsTheNumber(a: Byte, b: Byte, c: Byte)
    ensures var q := Quad(a, b, c); OfSextets(q[0], q[1], q[2], q[3]) == OfBytes(a, b, c)
    ensures c == 0 ==> Quad(a, b, c)[3] == 0
    ensures b == 0 && c == 0 ==> Quad(a, b, c)[2] == 0
  {
  }

  lemma {:induction false} EncodeShifts(b: seq<Byte>)
    requires |b| > 2
    ensures Encode(b)[..4] == Quad(b[0], b[1], b[2]) && Encode(b)[4..] == Encode(b[3..])
  {
  }

  /** Every three bytes and their four characters are one number. */
  lemma {:induction false} EncodesEachGroup(b: seq<Byte>, g: nat)
    requires 3 * g + 3 <= |b|
    ensures var e, i, j := Encode(b), 4 * g, 3 * g;
            i + 4 <= |e| && OfSextets(e[i], e[i + 1], e[i + 2], e[i + 3]) == OfBytes(b[j], b[j + 1], b[j + 2])
  {
    EncodeShifts(b);
    if g > 0 {
      EncodesEachGroup(b[3..], g - 1);
      var e, rest, i, j := Encode(b), Encode(b[3..]), 4 * g, 3 * g;
      assert e[i] == rest[i - 4] && e[i + 1] == rest[i - 3] && e[i + 2] == rest[i - 2] && e[i + 3] == rest[i - 1];
      assert b[j] == b[3..][j - 3] && b[j + 1] == b[3..][j - 2] && b[j + 2] == b[3..][j - 1];
    } else {
      QuadIsTheNumber(b[0], b[1], b[2]);
    }
  }

  /** The one or two bytes left over take two or three characters, as the number with zeros after it. */
  lemma {:induction false} EncodesTheRest(b: seq<Byte>)
    ensures var e, n, i, j := Encode(b), |b| / 3, 4 * (|b| / 3), 3 * (|b| / 3);
            && |e| == i + (if |b| % 3 == 0 then 0 else |b| % 3 + 1)
            && (|b| % 3 == 1 ==> OfSextets(e[i], e[i + 1], 0, 0) == OfBytes(b[j], 0, 0))
            && (|b| % 3 == 2 ==> OfSextets(e[i], e[i + 1], e[i + 2], 0) == OfBytes(b[j], b[j + 1], 0))
  {
    if |b| > 2 {
      EncodesTheRest(b[3..]);
      EncodeShifts(b);
      var rest := Encode(b)[4..];
      assert |b| / 3 == |b[3..]| / 3 + 1;
      assert forall k :: 0 <= k < |rest| ==> Encode(b)[k + 4] == rest[k];
    } else if |b| == 2 {
      QuadIsTheNumber(b[0], b[1], 0);
    } else if |b| == 1 {
      QuadIsTheNumber(b[0], 0, 0);
    }
  }

  lemma {:induction false} EncodeOfDecode(v: seq<Sextet>)
    ensures Encode(Decode(v)) == v <==> Canonical(v)
  {
    if |v| == 2 {
      LastOfOne(v);
    } else if |v| == 3 {
      LastOfTwo(v);
    } else if |v| > 3 {
      EncodeOfDecode(v[4..]);
      FirstGroup(v);
      LastGroupDecides(v);
    }
  }

  lemma FirstGroup(v: seq<Sextet>)
    requires |v| > 3
    ensures Encode(Decode(v)) == v[..4] + Encode(Decode(v[4..]))
  {
    var b, t := Decode(v), Triple(v[0], v[1], v[2], v[3]);
    QuadOfTriple(v[0], v[1], v[2], v[3]);
    assert b[..3] == t && b[3..] == Decode(v[4..]);
    assert b[0] == t[0] && b[1] == t[1] && b[2] == t[2];
    assert Quad(b[0], b[1], b[2]) == v[..4];
  }

  lemma LastGroupDecides(v: seq<Sextet>)
    requires |v| > 3
    ensures Canonical(v) <==> Canonical(v[4..])
    ensures forall e: seq<Sextet> :: v[..4] + e == v <==> e == v[4..]
  {
    assert |v| % 4 == |v[4..]| % 4;
    assert v[4..] != [] ==> v[|v| - 1] == v[4..][|v| - 5];
    forall e: seq<Sextet>
      ensures v[..4] + e == v <==> e == v[4..]
    {
      assert v == v[..4] + v[4..];
      assert (v[..4] + e)[4..] == e;
    }
  }

  lemma EncodeOne(v: Sextet, w: Sextet)
    ensures Encode([Triple(v, w, 0, 0)[0]]) == [v, w / 16 * 16]
  {
    var b := Triple(v, w, 0, 0)[0];
    Digits(v, w / 16);
    assert b / 4 == v && b % 4 == w / 16;
  }

  /** Clearing low digits changes nothing exactly when they are zero. */
  lemma LowDigits(v: nat)
    ensures v / 16 * 16 == v <==> v % 16 == 0
    ensures v / 4 * 4 == v <==> v % 4 == 0
  {
  }

  lemma {:induction false} LastOfOne(v: seq<Sextet>)
    requires |v| == 2
    ensures Encode(Decode(v)) == v <==> v[1] % 16 == 0
  {
    var back: seq<Sextet> := [v[0], v[1] / 16 * 16];
    assert Encode(Decode(v)) == back by {
      assert Decode(v) == [Triple(v[0], v[1], 0, 0)[0]];
      EncodeOne(v[0], v[1]);
    }
    LowDigits(v[1]);
    assert back == v <==> back[1] == v[1];
  }

  lemma EncodeTwo(v: Sextet, w: Sextet, x: Sextet)
    ensures Encode(Triple(v, w, x, 0)[..2]) == [v, w, x / 4 * 4]
  {
    var t := Triple(v, w, x, 0);
    Digits(v, w / 16);
    Digits(w % 16, x / 4);
    assert t[0] / 4 == v && t[0] % 4 == w / 16;
    assert t[1] / 16 == w % 16 && t[1] % 16 == x / 4;
  }

  lemma {:induction false} LastOfTwo(v: seq<Sextet>)
    requires |v| == 3
    ensures Encode(Decode(v)) == v <==> v[2] % 4 == 0
  {
    var back: seq<Sextet> := [v[0], v[1], v[2] / 4 * 4];
    assert Encode(Decode(v)) == back by {
      assert Decode(v) == Triple(v[0], v[1], v[2], 0)[..2];
      EncodeTwo(v[0], v[1], v[2]);
    }
    LowDigits(v[2]);
    assert back == v <==> back[2] == v[2];
  }

  lemma ValuesOfChars(v: seq<Sextet>)
    ensures Values(Chars(v)) == v
  {
    forall i | 0 <= i < |v|
      ensures Values(Chars(v))[i] == v[i]
    {
      ValueOfChar(v[i]);
    }
  }

  lemma CharsOfValues(s: string)
    requires AllInAlphabet(s)
    ensures Chars(Values(s)) == s
  {
  }

  /**
   * Both decoders accept exactly the non-empty texts over the alphabet whose
   * length leaves no character alone and whose unused trailing bits are zero.
   */
  lemma AcceptsExactlyCanonical(s: string)
    ensures StrictBase64url(s).Some? <==> s != "" && AllInAlphabet(s) && Canonical(Values(s))
    ensures Base64urlBytes(s) == StrictBase64url(s)
  {
    if s != "" && AllInAlphabet(s) {
      var v := Values(s);
      var b := Decode(v);
      EncodeOfDecode(v);
      CharsOfValues(s);
      ValuesOfChars(Encode(b));
      DecodeOfEncode(b);
    }
  }

  /** They accept exactly the encodings of non-empty bytes, and give back the bytes encoded. */
  lemma AcceptsExactlyEncodings(s: string, b: seq<Byte>)
    ensures StrictBase64url(s) == Some(b) <==> b != [] && s == TextOf(b)
  {
    DecodeOfEncode(b);
    ValuesOfChars(Encode(b));
    if s != "" && AllInAlphabet(s) {
      DecodeOfEncode(Decode(Values(s)));
    }
  }
}
