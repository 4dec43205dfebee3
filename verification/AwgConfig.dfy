/** A tunnel's configuration, and the reader of the .conf form. */
module AwgConfig {
  import opened Wrappers
  import opened Strings

  // ---- The obfuscation parameters ----

  datatype Param =
    | Jc | Jmin | Jmax | S1 | S2 | S3 | S4 | H1 | H2 | H3 | H4 | I1 | I2 | I3 | I4 | I5
    | HeaderProtectionKey | ContentPaddingAddition | RekeyAfterTime | RekeyTimeout | RejectAfterTime
    | KeepaliveTimeout | MaxHandshakeAttempts | RandomTrailers | DisableCookies

  /** In the order they are rendered. */
  const PARAMS: seq<Param> :=
    [Jc, Jmin, Jmax, S1, S2, S3, S4, H1, H2, H3, H4, I1, I2, I3, I4, I5,
     HeaderProtectionKey, ContentPaddingAddition, RekeyAfterTime, RekeyTimeout, RejectAfterTime,
     KeepaliveTimeout, MaxHandshakeAttempts, RandomTrailers, DisableCookies]

  lemma AllParams(p: Param)
    ensures p in PARAMS
  {
    match p
    case Jc => assert PARAMS[0] == p;
    case Jmin => assert PARAMS[1] == p;
    case Jmax => assert PARAMS[2] == p;
    case S1 => assert PARAMS[3] == p;
    case S2 => assert PARAMS[4] == p;
    case S3 => assert PARAMS[5] == p;
    case S4 => assert PARAMS[6] == p;
    case H1 => assert PARAMS[7] == p;
    case H2 => assert PARAMS[8] == p;
    case H3 => assert PARAMS[9] == p;
    case H4 => assert PARAMS[10] == p;
    case I1 => assert PARAMS[11] == p;
    case I2 => assert PARAMS[12] == p;
    case I3 => assert PARAMS[13] == p;
    case I4 => assert PARAMS[14] == p;
    case I5 => assert PARAMS[15] == p;
    case HeaderProtectionKey => assert PARAMS[16] == p;
    case ContentPaddingAddition => assert PARAMS[17] == p;
    case RekeyAfterTime => assert PARAMS[18] == p;
    case RekeyTimeout => assert PARAMS[19] == p;
    case RejectAfterTime => assert PARAMS[20] == p;
    case KeepaliveTimeout => assert PARAMS[21] == p;
    case MaxHandshakeAttempts => assert PARAMS[22] == p;
    case RandomTrailers => assert PARAMS[23] == p;
    case DisableCookies => assert PARAMS[24] == p;
  }

  /** What the readers know a key as, and None for a key that is no obfuscation parameter. */
  function ParamOf(key: string): Option<Param> {
    if key == "jc" then Some(Jc) else if key == "jmin" then Some(Jmin) else if key == "jmax" then Some(Jmax)
    else if key == "s1" then Some(S1) else if key == "s2" then Some(S2)
    else if key == "s3" then Some(S3) else if key == "s4" then Some(S4)
    else if key == "h1" then Some(H1) else if key == "h2" then Some(H2)
    else if key == "h3" then Some(H3) else if key == "h4" then Some(H4)
    else if key == "i1" then Some(I1) else if key == "i2" then Some(I2) else if key == "i3" then Some(I3)
    else if key == "i4" then Some(I4) else if key == "i5" then Some(I5)
    else if key == "headerprotectionkey" then Some(HeaderProtectionKey)
    else if key == "contentpaddingaddition" then Some(ContentPaddingAddition)
    else if key == "rekeyaftertime" then Some(RekeyAfterTime)
    else if key == "rekeytimeout" then Some(RekeyTimeout)
    else if key == "rejectaftertime" then Some(RejectAfterTime)
    else if key == "keepalivetimeout" then Some(KeepaliveTimeout)
    else if key == "maxhandshakeattempts" then Some(MaxHandshakeAttempts)
    else if key == "randomtrailers" then Some(RandomTrailers)
    else if key == "disablecookies" then Some(DisableCookies)
    else None
  }

  // ---- Keys ----

  function Sextet(c: char): int {
    if 'A' <= c <= 'Z' then c as int - 'A' as int
    else if 'a' <= c <= 'z' then c as int - 'a' as int + 26
    else if '0' <= c <= '9' then c as int - '0' as int + 52
    else if c == '+' then 62
    else if c == '/' then 63
    else -1
  }

  ghost predicate Hexadecimal(s: string) {
    forall c | c in s :: '0' <= c <= '9' || 'a' <= c <= 'f'
  }

  function Nibble(n: int): (c: char)
    requires 0 <= n < 16
    ensures '0' <= c <= '9' || 'a' <= c <= 'f'
  {
    if n < 10 then ('0' as int + n) as char else ('a' as int + n - 10) as char
  }

  /** The first two bytes of three or four digits, in hex. */
  function TwoBytes(a: int, b: int, c: int): (h: string)
    requires 0 <= a < 64 && 0 <= b < 64 && 0 <= c < 64
    ensures Hexadecimal(h)
  {
    [Nibble(a / 4), Nibble(a % 4 * 4 + b / 16), Nibble(b % 16), Nibble(c / 4)]
  }

  function ThirdByte(c: int, d: int): (h: string)
    requires 0 <= c < 64 && 0 <= d < 64
    ensures Hexadecimal(h)
  {
    [Nibble(c % 4 * 4 + d / 16), Nibble(d % 16)]
  }

  /** The hex of what the base64 digits stand for, four digits to three bytes; three left over are two. */
  function HexOf(t: string): (h: string)
    requires forall i | 0 <= i < |t| :: 0 <= Sextet(t[i]) < 64
    ensures Hexadecimal(h)
  {
    if |t| < 3 then ""
    else
      var two := TwoBytes(Sextet(t[0]), Sextet(t[1]), Sextet(t[2]));
      if |t| == 3 then two else two + (ThirdByte(Sextet(t[2]), Sextet(t[3])) + HexOf(t[4..]))
  }

  /** The base64 reader passes over line ends. */
  function WithoutLineEnds(s: string): string {
    if s == "" then ""
    else (if s[0] == '\r' || s[0] == '\n' then "" else [s[0]]) + WithoutLineEnds(s[1..])
  }

  /** keyToHex: base64 of exactly 32 bytes, which is 43 digits and one pad. */
  function KeyToHex(value: string): (r: Option<string>)
    ensures r.Some? ==> Hexadecimal(r.value) && r.value != ""
  {
    var t := WithoutLineEnds(value);
    if |t| == 44 && t[43] == '=' && forall i | 0 <= i < 43 :: 0 <= Sextet(t[i]) < 64
    then
      Some(HexOf(t[..43]))
    else None
  }

  /** The base64 digit of a number. */
  function Digit64(n: int): char
    requires 0 <= n < 64
  {
    if n < 26 then ('A' as int + n) as char
    else if n < 52 then ('a' as int + n - 26) as char
    else if n < 62 then ('0' as int + n - 52) as char
    else if n == 62 then '+'
    else '/'
  }

  /** The base64 of bytes that leave two over, without the pad. */
  function Base64(b: seq<Byte>): (t: string)
    requires |b| % 3 == 2
    ensures forall i | 0 <= i < |t| :: 0 <= Sextet(t[i]) < 64
  {
    if |b| == 2 then Triple(b[0], b[1]) else Quad(b[0], b[1], b[2]) + Base64(b[3..])
  }

  function Triple(a: int, b: int): (t: string)
    requires 0 <= a < 256 && 0 <= b < 256
    ensures |t| == 3 && forall i | 0 <= i < |t| :: 0 <= Sextet(t[i]) < 64
  {
    [Digit64(a / 4), Digit64(a % 4 * 16 + b / 16), Digit64(b % 16 * 4)]
  }

  function Quad(a: int, b: int, c: int): (t: string)
    requires 0 <= a < 256 && 0 <= b < 256 && 0 <= c < 256
    ensures |t| == 4 && forall i | 0 <= i < |t| :: 0 <= Sextet(t[i]) < 64
  {
    [Digit64(a / 4), Digit64(a % 4 * 16 + b / 16), Digit64(b % 16 * 4 + c / 64), Digit64(c % 64)]
  }

  function HexBytes(b: seq<Byte>): string {
    if b == [] then "" else [Nibble(b[0] / 16), Nibble(b[0] % 16)] + HexBytes(b[1..])
  }

  lemma SextetOfDigit(n: int)
    requires 0 <= n < 64
    ensures Sextet(Digit64(n)) == n
  {
  }

  lemma HexStep(w: int, x: int, y: int, z: int, rest: string)
    requires 0 <= w < 64 && 0 <= x < 64 && 0 <= y < 64 && 0 <= z < 64
    requires forall i | 0 <= i < |rest| :: 0 <= Sextet(rest[i]) < 64
    ensures var t := [Digit64(w), Digit64(x), Digit64(y), Digit64(z)] + rest;
      && (forall i | 0 <= i < |t| :: 0 <= Sextet(t[i]) < 64)
      && HexOf(t) == [Nibble(w / 4), Nibble(w % 4 * 4 + x / 16), Nibble(x % 16), Nibble(y / 4),
                      Nibble(y % 4 * 4 + z / 16), Nibble(z % 16)] + HexOf(rest)
  {
    hide Digit64, Nibble, Sextet;
    SextetOfDigit(w);
    SextetOfDigit(x);
    SextetOfDigit(y);
    SextetOfDigit(z);
    var t := [Digit64(w), Digit64(x), Digit64(y), Digit64(z)] + rest;
    assert t[4..] == rest;
    assert t[0] == Digit64(w) && t[1] == Digit64(x) && t[2] == Digit64(y) && t[3] == Digit64(z);
  }

  lemma HexEnd(w: int, x: int, y: int)
    requires 0 <= w < 64 && 0 <= x < 64 && 0 <= y < 64
    ensures var t := [Digit64(w), Digit64(x), Digit64(y)];
      && (forall i | 0 <= i < |t| :: 0 <= Sextet(t[i]) < 64)
      && HexOf(t) == [Nibble(w / 4), Nibble(w % 4 * 4 + x / 16), Nibble(x % 16), Nibble(y / 4)]
  {
    hide Digit64, Nibble, Sextet;
    SextetOfDigit(w);
    SextetOfDigit(x);
    SextetOfDigit(y);
  }

  /** Four digits of six bits hold the same six half-bytes as three bytes do. */
  lemma ThreeBytes(a: int, b: int, c: int)
    requires 0 <= a < 256 && 0 <= b < 256 && 0 <= c < 256
    ensures var w, x := a / 4, a % 4 * 16 + b / 16;
      var y, z := b % 16 * 4 + c / 64, c % 64;
      && w / 4 == a / 16 && w % 4 * 4 + x / 16 == a % 16
      && x % 16 == b / 16 && y / 4 == b % 16
      && y % 4 * 4 + z / 16 == c / 16 && z % 16 == c % 16
  {
  }

  lemma QuadHex(a: int, b: int, c: int, rest: string)
    requires 0 <= a < 256 && 0 <= b < 256 && 0 <= c < 256
    requires forall i | 0 <= i < |rest| :: 0 <= Sextet(rest[i]) < 64
    ensures var t := Quad(a, b, c) + rest;
      && (forall i | 0 <= i < |t| :: 0 <= Sextet(t[i]) < 64)
      && HexOf(t) == [Nibble(a / 16), Nibble(a % 16), Nibble(b / 16), Nibble(b % 16), Nibble(c / 16), Nibble(c % 16)]
        + HexOf(rest)
  {
    hide Digit64, Nibble, Sextet, HexOf;
    ThreeBytes(a, b, c);
    HexStep(a / 4, a % 4 * 16 + b / 16, b % 16 * 4 + c / 64, c % 64, rest);
  }

  lemma TripleHex(a: int, b: int)
    requires 0 <= a < 256 && 0 <= b < 256
    ensures HexOf(Triple(a, b)) == [Nibble(a / 16), Nibble(a % 16), Nibble(b / 16), Nibble(b % 16)]
  {
    hide Digit64, Nibble, Sextet, HexOf;
    ThreeBytes(a, b, 0);
    HexEnd(a / 4, a % 4 * 16 + b / 16, b % 16 * 4);
  }

  lemma HexBytesOfThree(b: seq<Byte>)
    requires |b| >= 3
    ensures HexBytes(b) == [Nibble(b[0] / 16), Nibble(b[0] % 16), Nibble(b[1] / 16), Nibble(b[1] % 16),
                            Nibble(b[2] / 16), Nibble(b[2] % 16)] + HexBytes(b[3..])
  {
    hide Nibble, HexBytes;
    assert b[1..][1..] == b[2..] && b[2..][1..] == b[3..];
    HexBytesOfOne(b[2..]);
    HexBytesOfOne(b[1..]);
    HexBytesOfOne(b);
  }

  lemma HexBytesOfOne(b: seq<Byte>)
    requires b != []
    ensures HexBytes(b) == [Nibble(b[0] / 16), Nibble(b[0] % 16)] + HexBytes(b[1..])
  {
    hide Nibble;
  }

  lemma HexBytesOfTwo(a: Byte, b: Byte)
    ensures HexBytes([a, b]) == [Nibble(a / 16), Nibble(a % 16), Nibble(b / 16), Nibble(b % 16)]
  {
    hide Nibble;
    assert [a, b][1..] == [b] && [b][1..] == [];
    assert HexBytes([b]) == [Nibble(b / 16), Nibble(b % 16)];
  }

  lemma NibbleIs(n: int)
    requires 0 <= n < 16
    ensures Nibble(n) == "0123456789abcdef"[n]
  {
  }

  /** The hex of bytes is two digits of each, the higher half first, in order. */
  lemma {:induction false} HexBytesExactly(b: seq<Byte>)
    ensures |HexBytes(b)| == 2 * |b|
    ensures forall i | 0 <= i < |b| ::
      HexBytes(b)[2 * i] == "0123456789abcdef"[b[i] / 16] && HexBytes(b)[2 * i + 1] == "0123456789abcdef"[b[i] % 16]
  {
    hide Nibble, HexBytes;
    if b == [] {
      NoHex();
    } else {
      HexBytesOfOne(b);
      HexBytesExactly(b[1..]);
      NibbleIs(b[0] / 16);
      NibbleIs(b[0] % 16);
      var first, rest := [Nibble(b[0] / 16), Nibble(b[0] % 16)], HexBytes(b[1..]);
      forall i | 0 <= i < |b|
        ensures HexBytes(b)[2 * i] == "0123456789abcdef"[b[i] / 16]
        ensures HexBytes(b)[2 * i + 1] == "0123456789abcdef"[b[i] % 16]
      {
        if i > 0 {
          assert b[i] == b[1..][i - 1];
          assert HexBytes(b)[2 * i] == rest[2 * (i - 1)] && HexBytes(b)[2 * i + 1] == rest[2 * (i - 1) + 1];
        }
      }
    }
  }

  lemma {:induction false} HexOfBase64(b: seq<Byte>)
    requires |b| % 3 == 2
    ensures HexOf(Base64(b)) == HexBytes(b) && 3 * |Base64(b)| == 4 * |b| + 1
  {
    hide Nibble, Sextet, HexOf, HexBytes, Triple, Quad;
    if |b| == 2 {
      assert b == [b[0], b[1]];
      TripleHex(b[0], b[1]);
      HexBytesOfTwo(b[0], b[1]);
    } else {
      HexOfBase64(b[3..]);
      QuadHex(b[0], b[1], b[2], Base64(b[3..]));
      HexBytesOfThree(b);
    }
  }

  /** A key of 32 bytes, written as every WireGuard key is, reaches the device as the hex of those bytes. */
  lemma KeyIsItsBytes(b: seq<Byte>)
    requires |b| == 32
    ensures KeyToHex(Base64(b) + "=") == Some(HexBytes(b))
  {
    hide HexOf, Base64, HexBytes, Sextet;
    HexOfBase64(b);
    DigitsAreNoLineEnds(Base64(b));
    var t := Base64(b) + "=";
    assert t[..43] == Base64(b);
    NoLineEnds(t);
  }

  /** What base64 digits stand for (section 4 of RFC 4648): six bits each, four digits to three bytes; three digits
      left over are two bytes. */
  ghost function Decoded(t: string): seq<Byte>
    requires forall i | 0 <= i < |t| :: 0 <= Sextet(t[i]) < 64
  {
    if |t| < 3 then []
    else if |t| == 3 then
      var v := Sextet(t[0]) * 4096 + Sextet(t[1]) * 64 + Sextet(t[2]);
      [v / 1024, v / 4 % 256]
    else
      var v := Sextet(t[0]) * 262144 + Sextet(t[1]) * 4096 + Sextet(t[2]) * 64 + Sextet(t[3]);
      [v / 65536, v / 256 % 256, v % 256] + Decoded(t[4..])
  }

  lemma FirstEight(a: int, b: int, c: int)
    requires 0 <= a < 64 && 0 <= b < 64 && 0 <= c < 64
    ensures (a * 4096 + b * 64 + c) / 1024 == a * 4 + b / 16
  {
    var low := b % 16 * 64 + c;
    assert a * 4096 + b * 64 + c == 1024 * (a * 4 + b / 16) + low && 0 <= low < 1024;
  }

  lemma NextEight(a: int, b: int, c: int)
    requires 0 <= a < 64 && 0 <= b < 64 && 0 <= c < 64
    ensures (a * 4096 + b * 64 + c) / 4 % 256 == b % 16 * 16 + c / 4
  {
    var v, mid := a * 4096 + b * 64 + c, b % 16 * 16 + c / 4;
    assert v / 4 == a * 1024 + b * 16 + c / 4;
    assert v / 4 == 256 * (a * 4 + b / 16) + mid && 0 <= mid < 256;
  }

  lemma TwoHex(a: int, b: int, c: int)
    requires 0 <= a < 64 && 0 <= b < 64 && 0 <= c < 64
    ensures var v := a * 4096 + b * 64 + c;
      && 0 <= v / 1024 < 256 && TwoBytes(a, b, c) == HexBytes([v / 1024, v / 4 % 256])
  {
    hide Nibble, HexBytes;
    FirstEight(a, b, c);
    NextEight(a, b, c);
    var x, y := a * 4 + b / 16, b % 16 * 16 + c / 4;
    HexBytesOfTwo(x, y);
    assert x / 16 == a / 4 && x % 16 == a % 4 * 4 + b / 16;
    assert y / 16 == b % 16 && y % 16 == c / 4;
  }

  lemma FourDigits(a: int, b: int, c: int, d: int)
    requires 0 <= a < 64 && 0 <= b < 64 && 0 <= c < 64 && 0 <= d < 64
    ensures var v, w := a * 262144 + b * 4096 + c * 64 + d, a * 4096 + b * 64 + c;
      && v / 65536 == w / 1024 && v / 256 % 256 == w / 4 % 256 && v % 256 == c % 4 * 64 + d
  {
    var w := a * 4096 + b * 64 + c;
    assert w % 4 == c % 4;
    ByteBelow(64 * w + d, w / 4, 64 * (w % 4) + d);
    assert w == 4 * (w / 4) + w % 4;
  }

  lemma ByteBelow(v: int, high: int, low: int)
    requires v == 256 * high + low && 0 <= low < 256
    ensures v / 256 == high && v % 256 == low && v / 65536 == high / 256
  {
  }

  lemma {:induction false} HexOfDecoded(t: string)
    requires forall i | 0 <= i < |t| :: 0 <= Sextet(t[i]) < 64
    ensures HexOf(t) == HexBytes(Decoded(t))
  {
    hide Sextet, Nibble, TwoBytes, HexBytes;
    if |t| >= 3 {
      var a, b, c := Sextet(t[0]), Sextet(t[1]), Sextet(t[2]);
      TwoHex(a, b, c);
      if |t| > 3 {
        var d := Sextet(t[3]);
        HexOfDecoded(t[4..]);
        FourDigits(a, b, c, d);
        var w, rest := a * 4096 + b * 64 + c, Decoded(t[4..]);
        HexOfQuad(w / 1024, w / 4 % 256, c, d, rest);
      }
    } else {
      NoHex();
    }
  }

  lemma NoHex()
    ensures HexBytes([]) == ""
  {
  }

  lemma HexOfQuad(x: Byte, y: Byte, c: int, d: int, rest: seq<Byte>)
    requires 0 <= c < 64 && 0 <= d < 64
    ensures HexBytes([x, y, c % 4 * 64 + d] + rest) == HexBytes([x, y]) + (ThirdByte(c, d) + HexBytes(rest))
  {
    hide Nibble, HexBytes;
    var z := c % 4 * 64 + d;
    var all := [x, y, z] + rest;
    HexBytesOfThree(all);
    HexBytesOfTwo(x, y);
    assert all[3..] == rest;
    assert z / 16 == c % 4 * 4 + d / 16 && z % 16 == d % 16;
  }

  lemma SextetExactly(c: char)
    ensures 0 <= Sextet(c) < 64 ==> Digit64(Sextet(c)) == c
    ensures Sextet(c) == -1 || 0 <= Sextet(c) < 64
  {
  }

  lemma LargeLetters(i: nat)
    requires i < 26
    ensures "ABCDEFGHIJKLMNOPQRSTUVWXYZ"[i] == ('A' as int + i) as char
  {
  }

  lemma SmallLetters(i: nat)
    requires i < 26
    ensures "abcdefghijklmnopqrstuvwxyz"[i] == ('a' as int + i) as char
  {
  }

  lemma Figures(i: nat)
    requires i < 10
    ensures "0123456789"[i] == ('0' as int + i) as char
  {
  }

  /** The 64 digits are the letters, large and small, the figures, plus and slash. */
  lemma AlphabetIs(i: nat)
    ensures i < 26 ==> Sextet("ABCDEFGHIJKLMNOPQRSTUVWXYZ"[i]) == i
    ensures i < 26 ==> Sextet("abcdefghijklmnopqrstuvwxyz"[i]) == 26 + i
    ensures i < 10 ==> Sextet("0123456789"[i]) == 52 + i
    ensures Sextet('+') == 62 && Sextet('/') == 63
  {
    if i < 26 {
      LargeLetters(i);
      SmallLetters(i);
    }
    if i < 10 {
      Figures(i);
    }
  }

  /** A value is a key exactly when, passing over line ends, it is 43 base64 digits and a pad; and it is then the hex
      of what they stand for. */
  lemma KeyExactly(value: string, hex: string)
    ensures KeyToHex(value) == Some(hex) <==>
      exists digits: string ::
        && WithoutLineEnds(value) == digits + "=" && |digits| == 43
        && (forall i | 0 <= i < |digits| :: 0 <= Sextet(digits[i]) < 64) && hex == HexBytes(Decoded(digits))
  {
    hide Sextet, HexOf, HexBytes, Decoded;
    var t := WithoutLineEnds(value);
    if |t| == 44 {
      assert forall digits: string | t == digits + "=" :: digits == t[..43];
      assert t[43] == '=' ==> t == t[..43] + "=";
      if forall i | 0 <= i < 43 :: 0 <= Sextet(t[i]) < 64 {
        HexOfDecoded(t[..43]);
      }
    }
  }

  /** Line ends in a key, of either kind, are passed over. */
  lemma LineEndIsPassedOver(a: string, c: char, b: string)
    requires c == '\r' || c == '\n'
    ensures WithoutLineEnds(a + [c] + b) == WithoutLineEnds(a + b)
  {
    WithoutLineEndsConcat(a + [c], b);
    WithoutLineEndsConcat(a, [c]);
    WithoutLineEndsConcat(a, b);
    assert [c][1..] == "" && WithoutLineEnds([c]) == "";
  }

  lemma DigitsAreNoLineEnds(t: string)
    requires forall i | 0 <= i < |t| :: 0 <= Sextet(t[i]) < 64
    ensures '\n' !in t + "=" && '\r' !in t + "="
  {
    assert Sextet('\n') == -1 && Sextet('\r') == -1;
  }

  lemma {:induction false} NoLineEnds(s: string)
    requires '\n' !in s && '\r' !in s
    ensures WithoutLineEnds(s) == s
  {
    if s != "" {
      NoLineEnds(s[1..]);
    }
  }

  // ---- The configuration ----

  datatype Addr = Addr(bytes: seq<int>, zone: string)

  /** Reads an address, or the address of a prefix. */
  type AddrReader = string -> Option<Addr>

  datatype Peer = Peer(
    publicKey: string,
    presharedKey: string,
    endpoint: string,
    allowedIPs: seq<string>,
    keepalive: int
  )

  datatype Config = Config(
    privateKey: string,
    addresses: seq<Addr>,
    mtu: int,
    dns: seq<Addr>,
    obfuscation: map<Param, string>,
    peer: Peer
  )

  const EMPTY: Config := Config("", [], 1420, [], map[], Peer("", "", "", [], 0))

  // ---- What one key sets ----

  function SetObfuscation(c: Config, p: Param, value: string): Option<Config> {
    if p.HeaderProtectionKey? then
      match KeyToHex(value)
      case Some(hex) => Some(c.(obfuscation := c.obfuscation[p := hex]))
      case None => None
    else Some(c.(obfuscation := c.obfuscation[p := value]))
  }

  /** One part of a list of addresses. */
  function AddAddr(addrs: Option<seq<Addr>>, part: string, read: AddrReader): Option<seq<Addr>> {
    match addrs
    case None => None
    case Some(before) =>
      if Trim(part) == "" then addrs
      else
        match read(Trim(part))
        case Some(a) => Some(before + [a])
        case None => None
  }

  function AddAddrs(parts: seq<string>, read: AddrReader): Option<seq<Addr>> {
    if parts == [] then Some([])
    else AddAddr(AddAddrs(parts[..|parts| - 1], read), parts[|parts| - 1], read)
  }

  function ParseAddrList(value: string, read: AddrReader): Option<seq<Addr>> {
    AddAddrs(Split(value, ','), read)
  }

  /** The parts of a list that are not empty, trimmed. */
  function Kept(parts: seq<string>): seq<string> {
    if parts == [] then []
    else
      var part := Trim(parts[|parts| - 1]);
      Kept(parts[..|parts| - 1]) + if part == "" then [] else [part]
  }

  function SetInterface(c: Config, key: string, value: string, read: AddrReader): Option<Config> {
    if ParamOf(key).Some? then SetObfuscation(c, ParamOf(key).value, value)
    else if key == "privatekey" then
      match KeyToHex(value)
      case Some(hex) => Some(c.(privateKey := hex))
      case None => None
    else if key == "address" then
      match ParseAddrList(value, read)
      case Some(addrs) => Some(c.(addresses := c.addresses + addrs))
      case None => None
    else if key == "dns" then
      match ParseAddrList(value, read)
      case Some(addrs) => Some(c.(dns := c.dns + addrs))
      case None => None
    else if key == "mtu" then
      match Atoi(value)
      case Some(n) => Some(c.(mtu := n))
      case None => None
    else Some(c)
  }

  function SetPeer(p: Peer, key: string, value: string): Option<Peer> {
    if key == "publickey" then
      match KeyToHex(value)
      case Some(hex) => Some(p.(publicKey := hex))
      case None => None
    else if key == "presharedkey" then
      match KeyToHex(value)
      case Some(hex) => Some(p.(presharedKey := hex))
      case None => None
    else if key == "endpoint" then Some(p.(endpoint := value))
    else if key == "allowedips" then Some(p.(allowedIPs := p.allowedIPs + Kept(Split(value, ','))))
    else if key == "persistentkeepalive" then
      match Atoi(value)
      case Some(n) => Some(p.(keepalive := n))
      case None => None
    else Some(p)
  }

  // ---- Reading the file ----

  datatype Reader = Reader(section: string, config: Config)

  function TrimBrackets(s: string): string {
    if s != "" && (s[0] == '[' || s[0] == ']') then TrimBrackets(s[1..])
    else if s != "" && (s[|s| - 1] == '[' || s[|s| - 1] == ']') then TrimBrackets(s[..|s| - 1])
    else s
  }

  predicate IsBracket(c: char) {
    c == '[' || c == ']'
  }

  /** strings.Trim of brackets: every one of either kind goes from both ends, and nothing from between. */
  lemma {:induction false} BracketsExactly(a: string, word: string, b: string)
    requires (forall i | 0 <= i < |a| :: IsBracket(a[i])) && (forall i | 0 <= i < |b| :: IsBracket(b[i]))
    requires word != "" && !IsBracket(word[0]) && !IsBracket(word[|word| - 1])
    ensures TrimBrackets(a + word + b) == word
    decreases |a| + |b|
  {
    var s := a + word + b;
    if a != "" {
      assert s[0] == a[0] && s[1..] == a[1..] + word + b;
      BracketsExactly(a[1..], word, b);
    } else if b != "" {
      assert s[0] == word[0] && s[|s| - 1] == b[|b| - 1] && s[..|s| - 1] == a + word + b[..|b| - 1];
      BracketsExactly(a, word, b[..|b| - 1]);
    } else {
      assert s == word;
    }
  }

  function SetKey(r: Reader, key: string, value: string, read: AddrReader): Option<Reader> {
    if r.section == "interface" then
      match SetInterface(r.config, key, value, read)
      case Some(c) => Some(r.(config := c))
      case None => None
    else if r.section == "peer" then
      match SetPeer(r.config.peer, key, value)
      case Some(p) => Some(r.(config := r.config.(peer := p)))
      case None => None
    else None
  }

  function ReadLine(r: Reader, raw: string, read: AddrReader): Option<Reader> {
    var line := Trim(raw);
    if line == "" || line[0] == '#' || line[0] == ';' then Some(r)
    else if line[0] == '[' && line[|line| - 1] == ']' then Some(r.(section := Lower(TrimBrackets(line))))
    else
      match Cut(line, '=')
      case None => None
      case Some((key, value)) => SetKey(r, Lower(Trim(key)), Trim(value), read)
  }

  function ReadLines(start: Option<Reader>, lines: seq<string>, read: AddrReader): Option<Reader> {
    if lines == [] then start
    else
      match ReadLines(start, lines[..|lines| - 1], read)
      case None => None
      case Some(r) => ReadLine(r, lines[|lines| - 1], read)
  }

  function Complete(c: Config): Option<Config> {
    if c.privateKey == "" || c.peer.publicKey == "" || c.addresses == [] then None else Some(c)
  }

  function ReadConf(text: string, read: AddrReader): Option<Config> {
    match ReadLines(Some(Reader("", EMPTY)), Split(text, '\n'), read)
    case None => None
    case Some(r) => Complete(r.config)
  }

  // ---- What a list means ----

  lemma KeptSnoc(parts: seq<string>, part: string)
    ensures Kept(parts + [part]) == Kept(parts) + if Trim(part) == "" then [] else [Trim(part)]
  {
    hide Trim;
    assert (parts + [part])[..|parts|] == parts;
  }

  lemma {:induction false} KeptConcat(a: seq<string>, b: seq<string>)
    ensures Kept(a + b) == Kept(a) + Kept(b)
  {
    hide Trim, Kept;
    if b == [] {
      assert a + b == a;
      NothingKept();
    } else {
      var n := |b| - 1;
      KeptConcat(a, b[..n]);
      KeptSnoc(b[..n], b[n]);
      KeptSnoc(a + b[..n], b[n]);
      assert b == b[..n] + [b[n]] && a + b == a + b[..n] + [b[n]];
    }
  }

  lemma NothingKept()
    ensures Kept([]) == []
  {
  }

  lemma KeptOne(part: string)
    ensures Kept([part]) == if Trim(part) == "" then [] else [Trim(part)]
  {
    hide Trim;
    assert [part][..0] == [];
  }

  ghost predicate ReadAs(parts: seq<string>, addrs: seq<Addr>, read: AddrReader) {
    |addrs| == |parts| && forall i | 0 <= i < |parts| :: read(parts[i]) == Some(addrs[i])
  }

  lemma {:induction false} AddAddrsExactly(parts: seq<string>, read: AddrReader)
    ensures AddAddrs(parts, read).Some? ==> ReadAs(Kept(parts), AddAddrs(parts, read).value, read)
    ensures (exists addrs :: ReadAs(Kept(parts), addrs, read)) ==> AddAddrs(parts, read).Some?
  {
    hide Trim;
    if parts != [] {
      var n := |parts| - 1;
      AddAddrsExactly(parts[..n], read);
      if addrs :| ReadAs(Kept(parts), addrs, read) {
        var k := |Kept(parts[..n])|;
        assert Kept(parts)[..k] == Kept(parts[..n]);
        assert ReadAs(Kept(parts[..n]), addrs[..k], read);
        if Trim(parts[n]) != "" {
          assert read(Kept(parts)[k]) == Some(addrs[k]) && Kept(parts)[k] == Trim(parts[n]);
        }
      }
    }
  }

  /** A list reads as these addresses exactly when each of its parts between commas that is not empty, trimmed, reads
      as one of them, in order. */
  lemma ListExactly(value: string, addrs: seq<Addr>, read: AddrReader)
    ensures ParseAddrList(value, read) == Some(addrs) <==> ReadAs(Kept(Split(value, ',')), addrs, read)
  {
    hide Kept, Split;
    AddAddrsExactly(Split(value, ','), read);
    if ReadAs(Kept(Split(value, ',')), addrs, read) && ParseAddrList(value, read).Some? {
      var found := ParseAddrList(value, read).value;
      assert forall i | 0 <= i < |addrs| :: Some(found[i]) == Some(addrs[i]);
      assert found == addrs;
    }
  }

  // ---- What trimming does not change ----

  lemma {:induction false} SameTrimsSameAddrs(a: seq<string>, b: seq<string>, read: AddrReader)
    requires SameTrims(a, b)
    ensures AddAddrs(a, read) == AddAddrs(b, read)
  {
    hide Trim;
    if a != [] {
      SameTrimsSameAddrs(a[..|a| - 1], b[..|b| - 1], read);
    }
  }

  lemma {:induction false} SameTrimsSameKept(a: seq<string>, b: seq<string>)
    requires SameTrims(a, b)
    ensures Kept(a) == Kept(b)
  {
    hide Trim;
    if a != [] {
      SameTrimsSameKept(a[..|a| - 1], b[..|b| - 1]);
    }
  }

  /** A list of addresses means the same with spaces around it. */
  lemma TrimmedListIsSame(value: string, read: AddrReader)
    ensures ParseAddrList(Trim(value), read) == ParseAddrList(value, read)
    ensures Kept(Split(Trim(value), ',')) == Kept(Split(value, ','))
  {
    hide Trim, Split;
    SplitTrim(value, ',');
    SameTrimsSameAddrs(Split(Trim(value), ','), Split(value, ','), read);
    SameTrimsSameKept(Split(Trim(value), ','), Split(value, ','));
  }

  ghost predicate NoSpaces(s: string) {
    forall i | 0 <= i < |s| :: !IsSpace(s[i])
  }

  lemma NoSpacesConcat(a: string, b: string)
    requires NoSpaces(a + b)
    ensures NoSpaces(a) && NoSpaces(b)
  {
    assert forall i | 0 <= i < |a| :: (a + b)[i] == a[i];
    assert forall i | 0 <= i < |b| :: (a + b)[|a| + i] == b[i];
  }

  lemma SpaceIsSpace(c: char)
    ensures NoSpaces([c]) <==> !IsSpace(c)
  {
    assert [c][0] == c;
  }

  lemma {:induction false} WithoutLineEndsConcat(a: string, b: string)
    ensures WithoutLineEnds(a + b) == WithoutLineEnds(a) + WithoutLineEnds(b)
  {
    if a == "" {
      assert a + b == b;
    } else {
      assert (a + b)[1..] == a[1..] + b;
      WithoutLineEndsConcat(a[1..], b);
    }
  }

  lemma {:induction false} KeyTrimLeft(s: string)
    requires NoSpaces(WithoutLineEnds(s))
    ensures WithoutLineEnds(TrimLeft(s)) == WithoutLineEnds(s)
  {
    if s != "" && IsSpace(s[0]) {
      var rest := WithoutLineEnds(s[1..]);
      NoSpacesConcat(if s[0] == '\r' || s[0] == '\n' then "" else [s[0]], rest);
      SpaceIsSpace(s[0]);
      assert WithoutLineEnds(s) == rest;
      KeyTrimLeft(s[1..]);
    }
  }

  lemma {:induction false} KeyTrimRight(s: string)
    requires NoSpaces(WithoutLineEnds(s))
    ensures WithoutLineEnds(TrimRight(s)) == WithoutLineEnds(s)
  {
    if s != "" && IsSpace(s[|s| - 1]) {
      var n := |s| - 1;
      var last := [s[n]];
      assert s == s[..n] + last;
      WithoutLineEndsConcat(s[..n], last);
      var before := WithoutLineEnds(s[..n]);
      assert last[1..] == "";
      assert WithoutLineEnds(last) == if s[n] == '\r' || s[n] == '\n' then "" else last;
      NoSpacesConcat(before, WithoutLineEnds(last));
      SpaceIsSpace(s[n]);
      assert WithoutLineEnds(s) == before;
      KeyTrimRight(s[..n]);
    }
  }

  /** A key that reads at all reads the same with the spaces around it gone. */
  lemma TrimmedKeyIsSame(value: string)
    requires KeyToHex(value).Some?
    ensures KeyToHex(Trim(value)) == KeyToHex(value)
  {
    hide HexOf, TrimLeft, TrimRight;
    var t := WithoutLineEnds(value);
    assert NoSpaces(t) by {
      forall i | 0 <= i < |t|
        ensures !IsSpace(t[i])
      {
        assert i < 43 ==> 0 <= Sextet(t[i]) < 64;
      }
    }
    KeyTrimLeft(value);
    KeyTrimRight(TrimLeft(value));
  }

  // ---- What every configuration that was read is like ----

  /** No field that is rendered as text spans lines, and the keepalive is a 64-bit number. */
  ghost predicate Clean(c: Config) {
    && OneLine(c.privateKey)
    && (forall p | p in c.obfuscation :: OneLine(c.obfuscation[p]))
    && OneLine(c.peer.publicKey) && OneLine(c.peer.presharedKey) && OneLine(c.peer.endpoint)
    && (forall a | a in c.peer.allowedIPs :: OneLine(a))
    && -MAX_INT - 1 <= c.peer.keepalive <= MAX_INT
  }

  lemma {:induction false} KeptIsClean(parts: seq<string>)
    requires forall p | p in parts :: OneLine(p)
    ensures forall a | a in Kept(parts) :: OneLine(a)
  {
    if parts != [] {
      var part := parts[|parts| - 1];
      KeptIsClean(parts[..|parts| - 1]);
      TrimIs(part);
      assert part in parts && OneLine(Trim(part));
    }
  }

  lemma SetKeyIsClean(r: Reader, key: string, value: string, read: AddrReader)
    requires Clean(r.config) && OneLine(value)
    ensures SetKey(r, key, value, read).Some? ==> Clean(SetKey(r, key, value, read).value.config)
  {
    hide SetInterface, SetPeer, Clean;
    if r.section == "interface" {
      SetInterfaceIsClean(r.config, key, value, read);
    } else if r.section == "peer" {
      SetPeerIsClean(r.config, key, value);
    }
  }

  lemma SetInterfaceIsClean(c: Config, key: string, value: string, read: AddrReader)
    requires Clean(c) && OneLine(value)
    ensures SetInterface(c, key, value, read).Some? ==> Clean(SetInterface(c, key, value, read).value)
  {
    hide KeyToHex, Atoi, ParseAddrList, ParamOf;
  }

  lemma SetPeerIsClean(c: Config, key: string, value: string)
    requires Clean(c) && OneLine(value)
    ensures SetPeer(c.peer, key, value).Some? ==> Clean(c.(peer := SetPeer(c.peer, key, value).value))
  {
    hide KeyToHex, Atoi, Split, Kept;
    SplitParts(value, ',');
    KeptIsClean(Split(value, ','));
    AtoiFits(value);
  }

  lemma AtoiFits(s: string)
    ensures Atoi(s).Some? ==> -MAX_INT - 1 <= Atoi(s).value <= MAX_INT
  {
  }

  lemma ReadLineIsClean(r: Reader, raw: string, read: AddrReader)
    requires Clean(r.config) && OneLine(raw)
    ensures ReadLine(r, raw, read).Some? ==> Clean(ReadLine(r, raw, read).value.config)
  {
    hide SetKey, Clean;
    TrimIs(raw);
    var line := Trim(raw);
    var cut := Cut(line, '=');
    if cut.Some? {
      TrimIs(cut.value.1);
      assert forall c | c in cut.value.1 :: c in line;
      SetKeyIsClean(r, Lower(Trim(cut.value.0)), Trim(cut.value.1), read);
    }
  }

  lemma {:induction false} ReadLinesIsClean(start: Reader, lines: seq<string>, read: AddrReader)
    requires Clean(start.config) && forall l | l in lines :: OneLine(l)
    ensures ReadLines(Some(start), lines, read).Some? ==> Clean(ReadLines(Some(start), lines, read).value.config)
  {
    hide ReadLine;
    if lines != [] {
      var before := ReadLines(Some(start), lines[..|lines| - 1], read);
      ReadLinesIsClean(start, lines[..|lines| - 1], read);
      if before.Some? {
        ReadLineIsClean(before.value, lines[|lines| - 1], read);
      }
    }
  }

  /** No configuration is read without a private key, a peer's public key and an address. */
  lemma ReadConfIsComplete(text: string, read: AddrReader)
    ensures ReadConf(text, read).Some? ==>
      var c := ReadConf(text, read).value; c.privateKey != "" && c.peer.publicKey != "" && c.addresses != []
  {
    hide ReadLines, Split;
  }

  /** Whatever text it was read from, no rendered field of a configuration spans lines. */
  lemma ReadConfIsClean(text: string, read: AddrReader)
    ensures ReadConf(text, read).Some? ==> Clean(ReadConf(text, read).value)
  {
    SplitParts(text, '\n');
    ReadLinesIsClean(Reader("", EMPTY), Split(text, '\n'), read);
  }

  // ---- As the program runs it ----

  class MutableConfig {
    var privateKey: string
    var addresses: seq<Addr>
    var mtu: int
    var dns: seq<Addr>
    var obfuscation: map<Param, string>
    var peer: Peer

    ghost function View(): Config
      reads this
    {
      Config(privateKey, addresses, mtu, dns, obfuscation, peer)
    }

    constructor ()
      ensures View() == EMPTY
    {
      privateKey, addresses, mtu, dns, obfuscation, peer := "", [], 1420, [], map[], EMPTY.peer;
    }

    /** An error leaves the configuration as it was. */
    ghost predicate Became(before: Config, after: Option<Config>, ok: bool)
      reads this
    {
      ok == after.Some? && View() == if ok then after.value else before
    }

    method SetParam(p: Param, value: string) returns (ok: bool)
      modifies this
      ensures Became(old(View()), SetObfuscation(old(View()), p, value), ok)
    {
      if p.HeaderProtectionKey? {
        var hex := KeyToHex(value);
        if hex.None? {
          return false;
        }
        obfuscation := obfuscation[p := hex.value];
        return true;
      }
      obfuscation := obfuscation[p := value];
      return true;
    }

    method SetInterfaceKey(key: string, value: string, read: AddrReader) returns (ok: bool)
      modifies this
      ensures Became(old(View()), SetInterface(old(View()), key, value, read), ok)
    {
      hide ParamOf, KeyToHex, Atoi, AddAddrs, Split;
      if ParamOf(key).Some? {
        ok := SetParam(ParamOf(key).value, value);
        return;
      }
      ok := true;
      if key == "privatekey" {
        var hex := KeyToHex(value);
        if hex.None? { return false; }
        privateKey := hex.value;
      } else if key == "address" {
        var addrs := ReadAddrList(value, read);
        if addrs.None? { return false; }
        addresses := addresses + addrs.value;
      } else if key == "dns" {
        var addrs := ReadAddrList(value, read);
        if addrs.None? { return false; }
        dns := dns + addrs.value;
      } else if key == "mtu" {
        var n := Atoi(value);
        if n.None? { return false; }
        mtu := n.value;
      }
    }

    method SetKeyIn(section: string, key: string, value: string, read: AddrReader) returns (ok: bool)
      modifies this
      ensures ok == SetKey(Reader(section, old(View())), key, value, read).Some?
      ensures ok ==> Some(Reader(section, View())) == SetKey(Reader(section, old(View())), key, value, read)
    {
      hide SetInterface, SetPeer;
      ok := false;
      if section == "interface" {
        ok := SetInterfaceKey(key, value, read);
      } else if section == "peer" {
        ok := SetPeerKey(key, value);
      }
    }

    method SetPeerKey(key: string, value: string) returns (ok: bool)
      modifies this
      ensures Became(old(View()), match SetPeer(old(peer), key, value)
                                  case Some(p) => Some(old(View()).(peer := p))
                                  case None => None, ok)
    {
      hide KeyToHex, Atoi, Split;
      ok := true;
      if key == "publickey" {
        var hex := KeyToHex(value);
        if hex.None? { return false; }
        peer := peer.(publicKey := hex.value);
      } else if key == "presharedkey" {
        var hex := KeyToHex(value);
        if hex.None? { return false; }
        peer := peer.(presharedKey := hex.value);
      } else if key == "endpoint" {
        peer := peer.(endpoint := value);
      } else if key == "allowedips" {
        var parts := Split(value, ',');
        for i := 0 to |parts|
          invariant View() == old(View()).(peer := old(peer).(allowedIPs := old(peer).allowedIPs + Kept(parts[..i])))
        {
          assert parts[..i + 1][..i] == parts[..i];
          var part := Trim(parts[i]);
          if part != "" {
            peer := peer.(allowedIPs := peer.allowedIPs + [part]);
          }
        }
        assert parts[..|parts|] == parts;
      } else if key == "persistentkeepalive" {
        var n := Atoi(value);
        if n.None? { return false; }
        peer := peer.(keepalive := n.value);
      }
    }
  }

  method ReadAddrList(value: string, read: AddrReader) returns (addrs: Option<seq<Addr>>)
    ensures addrs == ParseAddrList(value, read)
  {
    var parts := Split(value, ',');
    var list := [];
    for i := 0 to |parts|
      invariant AddAddrs(parts[..i], read) == Some(list)
    {
      assert parts[..i + 1][..i] == parts[..i];
      var part := Trim(parts[i]);
      if part == "" {
        continue;
      }
      var addr := read(part);
      if addr.None? {
        StaysNone(parts, i + 1, read);
        return None;
      }
      list := list + [addr.value];
    }
    assert parts[..|parts|] == parts;
    return Some(list);
  }

  lemma {:induction false} StaysNone(parts: seq<string>, n: nat, read: AddrReader)
    requires n <= |parts| && AddAddrs(parts[..n], read).None?
    ensures AddAddrs(parts, read).None?
    decreases |parts|
  {
    if n == |parts| {
      assert parts[..n] == parts;
    } else {
      assert parts[..|parts| - 1][..n] == parts[..n];
      StaysNone(parts[..|parts| - 1], n, read);
    }
  }

  lemma {:induction false} LinesStayNone(start: Option<Reader>, lines: seq<string>, n: nat, read: AddrReader)
    requires n <= |lines| && ReadLines(start, lines[..n], read).None?
    ensures ReadLines(start, lines, read).None?
    decreases |lines|
  {
    if n == |lines| {
      assert lines[..n] == lines;
    } else {
      assert lines[..|lines| - 1][..n] == lines[..n];
      LinesStayNone(start, lines[..|lines| - 1], n, read);
    }
  }

  method ParseConfig(text: string, read: AddrReader) returns (r: Option<Config>)
    ensures r == ReadConf(text, read)
  {
    hide SetKey, Trim, Cut, Lower, TrimBrackets, Split;
    var cfg := new MutableConfig();
    var section := "";
    var lines := Split(text, '\n');
    ghost var start := Some(Reader("", EMPTY));
    for i := 0 to |lines|
      invariant ReadLines(start, lines[..i], read) == Some(Reader(section, cfg.View()))
    {
      assert lines[..i + 1][..i] == lines[..i];
      var line := Trim(lines[i]);
      if line == "" || line[0] == '#' || line[0] == ';' {
        continue;
      }
      if line[0] == '[' && line[|line| - 1] == ']' {
        section := Lower(TrimBrackets(line));
        continue;
      }
      var cut := Cut(line, '=');
      if cut.None? {
        LinesStayNone(start, lines, i + 1, read);
        return None;
      }
      var key, value := Lower(Trim(cut.value.0)), Trim(cut.value.1);
      var ok := cfg.SetKeyIn(section, key, value, read);
      if !ok {
        LinesStayNone(start, lines, i + 1, read);
        return None;
      }
    }
    assert lines[..|lines|] == lines;
    if cfg.privateKey == "" || cfg.peer.publicKey == "" || |cfg.addresses| == 0 {
      return None;
    }
    return Some(Config(cfg.privateKey, cfg.addresses, cfg.mtu, cfg.dns, cfg.obfuscation, cfg.peer));
  }
}
