/** UTF-8, and what a reader makes of bytes that are not (RFC 3629). Text is a sequence of Unicode scalar
    values; what cannot be read becomes U+FFFD, one for each maximal piece of a character. */
module Unicode {

  type Byte = n: nat | n < 256

  const REPLACEMENT: char := '\U{fffd}'

  /** The octets of a scalar value in UTF-8. */
  function Utf8(c: char): (bytes: seq<Byte>)
    ensures c as int >= 128 ==> forall i :: 0 <= i < |bytes| ==> bytes[i] >= 128
    ensures |bytes| > 0
  {
    var n := c as int;
    if n < 0x80 then [n]
    else if n < 0x800 then [0xC0 + n / 0x40, 0x80 + n % 0x40]
    else if n < 0x1_0000 then [0xE0 + n / 0x1000, 0x80 + n / 0x40 % 0x40, 0x80 + n % 0x40]
    else [0xF0 + n / 0x4_0000, 0x80 + n / 0x1000 % 0x40, 0x80 + n / 0x40 % 0x40, 0x80 + n % 0x40]
  }

  function Encode(s: string): seq<Byte> {
    if |s| == 0 then [] else Utf8(s[0]) + Encode(s[1..])
  }

  /** How many bytes have to follow the first one; none when it starts no character. */
  function Following(first: Byte): nat {
    if 0xC2 <= first <= 0xDF then 1 else if 0xE0 <= first <= 0xEF then 2 else if 0xF0 <= first <= 0xF4 then 3 else 0
  }

  /** The second byte is restricted further: no overlong forms, no surrogates, nothing beyond U+10FFFF. */
  predicate CanBeSecond(first: Byte, b: Byte) {
    && (if first == 0xE0 then 0xA0 else if first == 0xF0 then 0x90 else 0x80) <= b
    && b <= (if first == 0xED then 0x9F else if first == 0xF4 then 0x8F else 0xBF)
  }

  predicate CanFollow(b: Byte) {
    0x80 <= b <= 0xBF
  }

  /** How many of the bytes that have to follow are there. */
  function Found(bs: seq<Byte>): (n: nat)
    requires |bs| > 0
    ensures n <= Following(bs[0]) && n < |bs|
  {
    var wanted := Following(bs[0]);
    if wanted == 0 || |bs| < 2 || !CanBeSecond(bs[0], bs[1]) then 0
    else if wanted == 1 || |bs| < 3 || !CanFollow(bs[2]) then 1
    else if wanted == 2 || |bs| < 4 || !CanFollow(bs[3]) then 2
    else 3
  }

  /** The scalar value that a whole sequence of bytes stands for. */
  function Scalar(bs: seq<Byte>): char
    requires |bs| > 0 && Following(bs[0]) > 0 && Found(bs) == Following(bs[0])
  {
    if Following(bs[0]) == 1 then ScalarOfTwo(bs[0], bs[1])
    else if Following(bs[0]) == 2 then ScalarOfThree(bs[0], bs[1], bs[2])
    else ScalarOfFour(bs[0], bs[1], bs[2], bs[3])
  }

  function ScalarOfTwo(a: int, b: int): char
    requires 0xC2 <= a <= 0xDF && 0x80 <= b <= 0xBF
  {
    ((a - 0xC0) * 0x40 + (b - 0x80)) as char
  }

  function ScalarOfThree(a: Byte, b: Byte, c: Byte): char
    requires 0xE0 <= a <= 0xEF && CanBeSecond(a, b) && CanFollow(c)
  {
    var x: int, y: int, z: int := a - 0xE0, b as int - 0x80, c - 0x80;
    (x * 0x1000 + y * 0x40 + z) as char
  }

  function ScalarOfFour(a: Byte, b: Byte, c: Byte, d: Byte): char
    requires 0xF0 <= a <= 0xF4 && CanBeSecond(a, b) && CanFollow(c) && CanFollow(d)
  {
    var x: int, y: int, z: int, w: int := a - 0xF0, b as int - 0x80, c - 0x80, d - 0x80;
    (x * 0x4_0000 + y * 0x1000 + z * 0x40 + w) as char
  }

  /** What Buffer.toString("utf8") yields. */
  function Decode(bs: seq<Byte>): string {
    if |bs| == 0 then ""
    else if bs[0] < 0x80 then [bs[0] as char] + Decode(bs[1..])
    else if Following(bs[0]) > 0 && Found(bs) == Following(bs[0]) then [Scalar(bs)] + Decode(bs[Found(bs) + 1..])
    else [REPLACEMENT] + Decode(bs[Found(bs) + 1..])
  }

  // ---------------------------------------------------------------------------------------

  lemma DecodeOne(c: char, rest: seq<Byte>)
    ensures Decode(Utf8(c) + rest) == [c] + Decode(rest)
  {
    var bs := Utf8(c) + rest;
    if c as int < 0x80 {
      assert bs[1..] == rest;
    } else {
      OneIsWhole(c, rest);
      assert bs[|Utf8(c)|..] == rest;
    }
  }

  lemma TwoBytes(n: int)
    requires 0x80 <= n < 0x800
    ensures 0xC2 <= 0xC0 + n / 0x40 <= 0xDF && 0x80 <= 0x80 + n % 0x40 <= 0xBF
    ensures (n / 0x40) * 0x40 + n % 0x40 == n
  {
  }

  lemma ThreeBytes(n: int)
    requires 0x800 <= n < 0x1_0000 && !(0xD800 <= n < 0xE000)
    ensures var a, b, c := n / 0x1000, n / 0x40 % 0x40, n % 0x40;
            && a < 0x10 && (a == 0 ==> b >= 0x20) && (a == 0xD ==> b <= 0x1F)
            && a * 0x1000 + b * 0x40 + c == n
  {
  }

  lemma FourBytes(n: int)
    requires 0x1_0000 <= n < 0x11_0000
    ensures var a, b, c, d := n / 0x4_0000, n / 0x1000 % 0x40, n / 0x40 % 0x40, n % 0x40;
            && a <= 4 && (a == 0 ==> b >= 0x10) && (a == 4 ==> b <= 0xF)
            && a * 0x4_0000 + b * 0x1000 + c * 0x40 + d == n
  {
    var m := n / 0x40;
    var l := n / 0x1000;
    assert n == m * 0x40 + n % 0x40;
    assert m == l * 0x40 + m % 0x40;
    assert l == (n / 0x4_0000) * 0x40 + l % 0x40;
  }

  lemma OneIsWhole(c: char, rest: seq<Byte>)
    requires c as int >= 0x80
    ensures var bs := Utf8(c) + rest;
            Following(bs[0]) == |Utf8(c)| - 1 > 0 && Found(bs) == Following(bs[0]) && Scalar(bs) == c
  {
    var n, u := c as int, Utf8(c);
    var bs := u + rest;
    assert bs[..|u|] == u;
    if n < 0x800 {
      TwoBytes(n);
      assert bs[0] == u[0] && bs[1] == u[1];
    } else if n < 0x1_0000 {
      ThreeBytes(n);
      assert bs[0] == u[0] && bs[1] == u[1] && bs[2] == u[2];
    } else {
      FourBytes(n);
      assert bs[0] == u[0] && bs[1] == u[1] && bs[2] == u[2] && bs[3] == u[3];
    }
  }

  /** A piece of a character is read as one replacement, whatever ASCII comes behind it. */
  lemma DecodePiece(c: char, k: nat, rest: seq<Byte>)
    requires 0 < k < |Utf8(c)| && (|rest| > 0 ==> rest[0] < 0x80)
    ensures Decode(Utf8(c)[..k] + rest) == [REPLACEMENT] + Decode(rest)
  {
    var bs := Utf8(c)[..k] + rest;
    PieceIsShort(c, k, rest);
    assert bs[k..] == rest;
  }

  lemma PieceIsShort(c: char, k: nat, rest: seq<Byte>)
    requires 0 < k < |Utf8(c)| && (|rest| > 0 ==> rest[0] < 0x80)
    ensures var bs := Utf8(c)[..k] + rest; bs[0] >= 0x80 && Found(bs) == k - 1 < Following(bs[0])
  {
  }

  /** Reading what was written gives it back. */
  lemma {:induction false} DecodeAfter(s: string, rest: seq<Byte>)
    ensures Decode(Encode(s) + rest) == s + Decode(rest)
  {
    if |s| == 0 {
      assert Encode(s) + rest == rest;
    } else {
      assert Encode(s) + rest == Utf8(s[0]) + (Encode(s[1..]) + rest);
      DecodeOne(s[0], Encode(s[1..]) + rest);
      DecodeAfter(s[1..], rest);
      assert [s[0]] + (s[1..] + Decode(rest)) == s + Decode(rest);
    }
  }

  lemma RoundTrip(s: string)
    ensures Decode(Encode(s)) == s
  {
    DecodeAfter(s, []);
    assert Encode(s) + [] == Encode(s) && s + Decode([]) == s;
  }

  /** Every prefix of the bytes of a text reads as a prefix of the text, with one replacement behind
      it when the cut went through a character. */
  lemma {:induction false} DecodePrefix(s: string, k: nat, rest: seq<Byte>) returns (m: nat, mark: string)
    requires k <= |Encode(s)| && (|rest| > 0 ==> rest[0] < 0x80)
    ensures m <= |s| && (mark == "" || (mark == [REPLACEMENT] && m < |s|))
    ensures Decode(Encode(s)[..k] + rest) == s[..m] + mark + Decode(rest)
    ensures k > 0 ==> m > 0 || mark != ""
    ensures k < |Encode(s)| ==> m < |s|
    decreases |s|
  {
    if k == 0 {
      m, mark := 0, "";
      assert Encode(s)[..0] + rest == rest && s[..0] + mark + Decode(rest) == Decode(rest);
    } else {
      var w := |Utf8(s[0])|;
      if k < w {
        m, mark := 0, [REPLACEMENT];
        assert Encode(s)[..k] == Utf8(s[0])[..k];
        DecodePiece(s[0], k, rest);
      } else {
        var n;
        n, mark := DecodePrefix(s[1..], k - w, rest);
        m := n + 1;
        PrefixFromSecond(s, k, rest);
        OneMore(s, n, mark, Decode(rest));
      }
    }
  }

  lemma PrefixFromSecond(s: string, k: nat, rest: seq<Byte>)
    requires |s| > 0 && |Utf8(s[0])| <= k <= |Encode(s)|
    ensures Decode(Encode(s)[..k] + rest) == [s[0]] + Decode(Encode(s[1..])[..k - |Utf8(s[0])|] + rest)
  {
    var w := |Utf8(s[0])|;
    assert Encode(s)[..k] + rest == Utf8(s[0]) + (Encode(s[1..])[..k - w] + rest);
    DecodeOne(s[0], Encode(s[1..])[..k - w] + rest);
  }

  lemma OneMore(s: string, n: nat, mark: string, tail: string)
    requires n < |s|
    ensures [s[0]] + (s[1..][..n] + mark + tail) == s[..n + 1] + mark + tail
  {
  }

  /** A line feed is a byte of its own. */
  lemma {:induction false} NoLineFeedInside(s: string)
    requires '\n' !in s
    ensures forall i :: 0 <= i < |Encode(s)| ==> Encode(s)[i] != 10
  {
    if |s| > 0 {
      assert s[0] in s;
      assert forall c :: c in s[1..] ==> c in s;
      NoLineFeedInside(s[1..]);
      NoLineFeedInOne(s[0]);
    }
  }

  lemma NoLineFeedInOne(c: char)
    requires c != '\n'
    ensures forall i :: 0 <= i < |Utf8(c)| ==> Utf8(c)[i] != 10
  {
  }

  lemma {:induction false} EncodeBoth(a: string, b: string)
    ensures Encode(a + b) == Encode(a) + Encode(b)
  {
    if |a| == 0 {
      assert a + b == b;
    } else {
      EncodeBoth(a[1..], b);
      assert (a + b)[1..] == a[1..] + b;
      EncodeFirst(a + b);
      EncodeFirst(a);
      Regroup(Utf8(a[0]), Encode(a[1..]), Encode(b));
    }
  }

  lemma EncodeFirst(s: string)
    requires |s| > 0
    ensures Encode(s) == Utf8(s[0]) + Encode(s[1..])
  {
  }

  lemma Regroup(x: seq<Byte>, y: seq<Byte>, z: seq<Byte>)
    ensures x + (y + z) == x + y + z
  {
  }
}
