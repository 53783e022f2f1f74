/** Percent-normalisation of robots.txt paths and patterns (src/robots/matcher.ts, section 2.2.2 of
    RFC 9309). Text is a sequence of Unicode scalar values. */
module RobotsText {
  import opened Unicode

  predicate IsHex(c: char) {
    '0' <= c <= '9' || 'A' <= c <= 'F' || 'a' <= c <= 'f'
  }

  function HexValue(c: char): (n: nat)
    requires IsHex(c)
    ensures n < 16
  {
    if c <= '9' then c as int - '0' as int
    else if c <= 'F' then c as int - 'A' as int + 10
    else c as int - 'a' as int + 10
  }

  function HexDigit(n: nat): (c: char)
    requires n < 16
    ensures IsHex(c) && HexValue(c) == n
  {
    if n < 10 then (48 + n) as char else (55 + n) as char
  }

  predicate IsUnreserved(byte: Byte) {
    || ('a' as int <= byte <= 'z' as int) || ('A' as int <= byte <= 'Z' as int) || ('0' as int <= byte <= '9' as int)
    || byte == '.' as int || byte == '_' as int || byte == '~' as int || byte == '-' as int
  }

  function PercentByte(byte: Byte): (s: string)
    ensures |s| == 3 && s[0] == '%' && IsHex(s[1]) && IsHex(s[2])
    ensures HexValue(s[1]) * 16 + HexValue(s[2]) == byte
  {
    ['%', HexDigit(byte / 16), HexDigit(byte % 16)]
  }

  function PercentBytes(bytes: seq<Byte>): string {
    if |bytes| == 0 then "" else PercentByte(bytes[0]) + PercentBytes(bytes[1..])
  }

  predicate StartsEscape(s: string) {
    |s| >= 3 && s[0] == '%' && IsHex(s[1]) && IsHex(s[2])
  }

  /** What an escape becomes: the character itself when it needs none, upper-case digits otherwise. */
  function Escape(high: char, low: char): string
    requires IsHex(high) && IsHex(low)
  {
    var byte := HexValue(high) * 16 + HexValue(low);
    if IsUnreserved(byte) then [byte as char] else PercentByte(byte)
  }

  function Normalize(value: string, preserveSyntax: bool): string {
    if |value| == 0 then ""
    else if preserveSyntax && (value[0] == '*' || value[0] == '$') then [value[0]] + Normalize(value[1..], preserveSyntax)
    else if StartsEscape(value) then Escape(value[1], value[2]) + Normalize(value[3..], preserveSyntax)
    else if value[0] as int < 128 then [value[0]] + Normalize(value[1..], preserveSyntax)
    else PercentBytes(Utf8(value[0])) + Normalize(value[1..], preserveSyntax)
  }

  method NormalizeRobotsValue(value: string, preserveSyntax: bool) returns (output: string)
    ensures output == Normalize(value, preserveSyntax)
  {
    output := "";
    var index := 0;
    while index < |value|
      invariant index <= |value|
      invariant output + Normalize(value[index..], preserveSyntax) == Normalize(value, preserveSyntax)
    {
      var piece, width := NextPiece(value, index, preserveSyntax);
      NormalizeAt(value, index, preserveSyntax, piece, width, output);
      output, index := output + piece, index + width;
    }
  }

  /** One turn of the loop: what is added to the output and how far the index moves. */
  method NextPiece(value: string, index: nat, preserveSyntax: bool) returns (piece: string, width: nat)
    requires index < |value|
    ensures IsPiece(value[index..], preserveSyntax, piece, width)
  {
    var character := value[index];
    if preserveSyntax && (character == '*' || character == '$') {
      return [character], 1;
    }
    if index + 2 < |value| && character == '%' && IsHex(value[index + 1]) && IsHex(value[index + 2]) {
      return Escape(value[index + 1], value[index + 2]), 3;
    }
    return if character as int < 128 then [character] else PercentBytes(Utf8(character)), 1;
  }

  lemma NormalizeAt(value: string, index: nat, preserveSyntax: bool, piece: string, width: nat, output: string)
    requires index < |value| && IsPiece(value[index..], preserveSyntax, piece, width)
    ensures index + width <= |value|
    ensures output + Normalize(value[index..], preserveSyntax)
            == (output + piece) + Normalize(value[index + width..], preserveSyntax)
  {
    NormalizeStep(value[index..], preserveSyntax, piece, width);
    assert value[index..][width..] == value[index + width..];
  }

  /** What the text starts with, and what becomes of it. */
  predicate IsPiece(s: string, preserveSyntax: bool, piece: string, width: nat)
    requires |s| > 0
  {
    var plain := preserveSyntax && (s[0] == '*' || s[0] == '$');
    if !plain && StartsEscape(s) then width == 3 && piece == Escape(s[1], s[2])
    else width == 1 && piece == if plain || s[0] as int < 128 then [s[0]] else PercentBytes(Utf8(s[0]))
  }

  lemma NormalizeStep(s: string, preserveSyntax: bool, piece: string, width: nat)
    requires |s| > 0 && IsPiece(s, preserveSyntax, piece, width)
    ensures Normalize(s, preserveSyntax) == piece + Normalize(s[width..], preserveSyntax)
  {
  }

  // ---------------------------------------------------------------------------------------
  // The normal form of the rest of this module: the flag makes no difference

  function Normal(value: string): string {
    Normalize(value, false)
  }

  /** Patterns and paths have the same normal form: the marks of a pattern are plain characters. */
  lemma {:induction false} SyntaxIsPreservedAnyway(value: string)
    ensures Normalize(value, true) == Normalize(value, false)
  {
    if |value| > 0 {
      SyntaxIsPreservedAnyway(value[1..]);
      if StartsEscape(value) {
        SyntaxIsPreservedAnyway(value[3..]);
      }
    }
  }

  /** An escape that normalisation leaves as it is. */
  predicate IsSettled(high: char, low: char)
    requires IsHex(high) && IsHex(low)
  {
    Escape(high, low) == ['%', high, low]
  }

  /** ASCII only, and every escape in it settled. */
  predicate IsCanonical(s: string) {
    |s| == 0 ||
    if StartsEscape(s) then IsSettled(s[1], s[2]) && IsCanonical(s[3..])
    else s[0] as int < 128 && IsCanonical(s[1..])
  }

  lemma PercentByteIsSettled(byte: Byte)
    requires !IsUnreserved(byte)
    ensures IsSettled(PercentByte(byte)[1], PercentByte(byte)[2])
  {
    var s := PercentByte(byte);
    assert Escape(s[1], s[2]) == s == ['%', s[1], s[2]];
  }

  lemma {:induction false} PercentBytesAreCanonical(bytes: seq<Byte>, rest: string)
    requires forall i :: 0 <= i < |bytes| ==> bytes[i] >= 128
    ensures IsCanonical(PercentBytes(bytes) + rest) <==> IsCanonical(rest)
  {
    if |bytes| == 0 {
      assert PercentBytes(bytes) + rest == rest;
    } else {
      var s := PercentBytes(bytes) + rest;
      PercentByteIsSettled(bytes[0]);
      assert s[3..] == PercentBytes(bytes[1..]) + rest;
      assert s[..3] == PercentByte(bytes[0]);
      PercentBytesAreCanonical(bytes[1..], rest);
    }
  }

  /** Normalisation leaves exactly the canonical texts alone. */
  lemma {:induction false} FixedIffCanonical(s: string)
    ensures Normal(s) == s <==> IsCanonical(s)
  {
    if |s| > 0 {
      if StartsEscape(s) {
        FixedIffCanonical(s[3..]);
        var e, tail := Escape(s[1], s[2]), Normal(s[3..]);
        assert s == ['%', s[1], s[2]] + s[3..];
        if |e| == 3 {
          assert (e + tail)[..3] == e && (e + tail)[3..] == tail;
          assert s[..3] == ['%', s[1], s[2]];
        } else {
          assert (e + tail)[0] == e[0] != '%';
        }
      } else {
        FixedIffCanonical(s[1..]);
        assert s == [s[0]] + s[1..];
        if s[0] as int < 128 {
          assert ([s[0]] + Normal(s[1..]))[1..] == Normal(s[1..]);
        } else {
          assert Normal(s)[0] == '%';
        }
      }
    }
  }

  // ---------------------------------------------------------------------------------------
  // When normalising twice is normalising once

  /** The hexadecimal digit that the text starts with once normalised, and where it goes on. */
  function LeadingDigit(s: string): (n: nat)
    ensures n <= |s| && (n == 0 || n == 1 || n == 3)
    ensures n == 1 ==> IsHex(s[0])
    ensures n == 3 ==> StartsEscape(s)
  {
    if |s| > 0 && IsHex(s[0]) then 1
    else if StartsEscape(s) && IsHexByte(HexValue(s[1]) * 16 + HexValue(s[2])) then 3
    else 0
  }

  predicate IsHexByte(byte: Byte) {
    '0' as int <= byte <= '9' as int || 'A' as int <= byte <= 'F' as int || 'a' as int <= byte <= 'f' as int
  }

  function DigitOf(s: string): (c: char)
    requires LeadingDigit(s) > 0
    ensures IsHex(c)
  {
    if LeadingDigit(s) == 1 then s[0] else (HexValue(s[1]) * 16 + HexValue(s[2])) as char
  }

  /** A percent sign that starts no escape is harmless unless two digits end up behind it that were
      not both there before, and then only if the escape they form is settled. */
  predicate IsHarmless(behind: string) {
    var n := LeadingDigit(behind);
    n > 0 && LeadingDigit(behind[n..]) > 0 ==> IsSettled(DigitOf(behind), DigitOf(behind[n..]))
  }

  /** Every stray percent sign of the text is harmless. */
  predicate IsClean(value: string) {
    |value| == 0 ||
    if StartsEscape(value) then IsClean(value[3..])
    else (value[0] == '%' ==> IsHarmless(value[1..])) && IsClean(value[1..])
  }

  lemma DigitLeads(s: string)
    ensures LeadingDigit(s) > 0 ==> Normal(s) == [DigitOf(s)] + Normal(s[LeadingDigit(s)..])
    ensures LeadingDigit(s) == 0 ==> Normal(s) == "" || !IsHex(Normal(s)[0])
  {
    if |s| > 0 && !IsHex(s[0]) && !StartsEscape(s) && s[0] as int >= 128 {
      assert Normal(s)[0] == '%';
    }
  }

  lemma PlainIsCanonical(c: char, rest: string)
    requires c != '%' && c as int < 128
    ensures IsCanonical([c] + rest) <==> IsCanonical(rest)
  {
    assert ([c] + rest)[1..] == rest;
  }

  lemma StrayIsCanonical(behind: string)
    ensures IsCanonical("%" + Normal(behind)) <==> IsHarmless(behind) && IsCanonical(Normal(behind))
  {
    var n, out := LeadingDigit(behind), Normal(behind);
    var s := "%" + out;
    assert s[1..] == out;
    DigitLeads(behind);
    if n > 0 {
      DigitLeads(behind[n..]);
      var second := Normal(behind[n..]);
      assert out[1..] == second && out[0] == DigitOf(behind);
      PlainIsCanonical(DigitOf(behind), second);
      if LeadingDigit(behind[n..]) > 0 {
        assert StartsEscape(s) && s[1] == out[0] && s[2] == second[0];
        assert s[3..] == second[1..];
        PlainIsCanonical(second[0], second[1..]);
        assert second == [second[0]] + second[1..];
      } else {
        assert !StartsEscape(s);
      }
    } else {
      assert !StartsEscape(s);
    }
  }

  lemma {:induction false} NormalIsCanonicalIff(value: string)
    ensures IsCanonical(Normal(value)) <==> IsClean(value)
  {
    if |value| > 0 {
      if StartsEscape(value) {
        NormalIsCanonicalIff(value[3..]);
        EscapeIsCanonical(value[1], value[2], Normal(value[3..]));
      } else {
        NormalIsCanonicalIff(value[1..]);
        if value[0] == '%' {
          StrayIsCanonical(value[1..]);
        } else if value[0] as int < 128 {
          PlainIsCanonical(value[0], Normal(value[1..]));
        } else {
          PercentBytesAreCanonical(Utf8(value[0]), Normal(value[1..]));
        }
      }
    }
  }

  lemma EscapeIsCanonical(high: char, low: char, rest: string)
    requires IsHex(high) && IsHex(low)
    ensures IsCanonical(Escape(high, low) + rest) <==> IsCanonical(rest)
  {
    var byte := HexValue(high) * 16 + HexValue(low);
    if IsUnreserved(byte) {
      PlainIsCanonical(byte as char, rest);
    } else {
      PercentByteIsSettled(byte);
      var s := PercentByte(byte) + rest;
      assert s[..3] == PercentByte(byte) && s[3..] == rest;
    }
  }

  /** Normalising again changes nothing exactly when every stray percent sign is harmless. */
  lemma IdempotentIff(value: string)
    ensures Normal(Normal(value)) == Normal(value) <==> IsClean(value)
  {
    FixedIffCanonical(Normal(value));
    NormalIsCanonicalIff(value);
  }

  /** Percent-encoding as RFC 3986 has it: every percent sign starts an escape. */
  predicate IsWellFormed(value: string) {
    |value| == 0 ||
    if StartsEscape(value) then IsWellFormed(value[3..]) else value[0] != '%' && IsWellFormed(value[1..])
  }

  lemma {:induction false} WellFormedIsClean(value: string)
    requires IsWellFormed(value)
    ensures IsClean(value) && Normal(Normal(value)) == Normal(value)
  {
    if |value| > 0 {
      if StartsEscape(value) {
        WellFormedIsClean(value[3..]);
      } else {
        WellFormedIsClean(value[1..]);
      }
    }
    IdempotentIff(value);
  }

  /** A stray percent sign in front of an escaped digit: %%341 becomes %41, and that becomes A. */
  lemma StrayPercentIsNotIdempotent()
    ensures Normal("%%341") == "%41" && Normal("%41") == "A"
    ensures !IsClean("%%341")
  {
    var v := "%%341";
    assert v[1..] == "%341" && v[1..][3..] == "1" && v[1..][3..][1..] == "";
    assert !StartsEscape(v) && StartsEscape(v[1..]);
    assert Escape('3', '4') == "4";
    assert Normal("1") == "1" && Normal("%341") == "41" && Normal(v) == "%41";
    var w := "%41";
    assert w[3..] == "" && Escape('4', '1') == "A";
    IdempotentIff(v);
  }

  // ---------------------------------------------------------------------------------------
  // When normalising the parts is normalising the whole

  /** No escape runs across the seam, or one that is settled does. */
  predicate SeamHolds(a: string, b: string) {
    |a| == 0 ||
    if StartsEscape(a) then SeamHolds(a[3..], b)
    else if StartsEscape(a + b) then IsSettled((a + b)[1], (a + b)[2])
    else SeamHolds(a[1..], b)
  }

  lemma HexStaysPut(c: char, rest: string)
    requires IsHex(c)
    ensures Normal([c] + rest) == [c] + Normal(rest)
  {
    assert ([c] + rest)[1..] == rest;
  }

  lemma EscapeAcrossSeam(a: string, b: string)
    requires |a| > 0 && !StartsEscape(a) && StartsEscape(a + b)
    ensures Normal(a + b) == Normal(a) + Normal(b) <==> IsSettled((a + b)[1], (a + b)[2])
  {
    var s := a + b;
    var h, l, tail := s[1], s[2], Normal(s[3..]);
    assert Normal(a) + Normal(b) == ['%', h, l] + tail by {
      if |a| == 1 {
        assert a == "%" && b == [h] + ([l] + s[3..]);
        HexStaysPut(h, [l] + s[3..]);
        HexStaysPut(l, s[3..]);
        assert a[1..] == "" && Normal("") == "" && Normal(a) == ['%'] + "";
      } else {
        assert a == ['%', h] && b == [l] + s[3..];
        HexStaysPut(h, "");
        HexStaysPut(l, s[3..]);
        assert a[1..] == [h] + "";
        assert Normal(a) == ['%', h];
      }
    }
    var e := Escape(h, l);
    assert Normal(s) == e + tail;
    if |e| == 3 {
      assert (e + tail)[..3] == e && (['%', h, l] + tail)[..3] == ['%', h, l];
    } else {
      assert (e + tail)[0] != '%' && (['%', h, l] + tail)[0] == '%';
    }
  }

  /** A piece that the seam leaves whole can be taken off both sides. */
  lemma TakeOff(a: string, b: string, piece: string, width: nat)
    requires width <= |a|
    requires Normal(a) == piece + Normal(a[width..]) && Normal(a + b) == piece + Normal((a + b)[width..])
    ensures Normal(a + b) == Normal(a) + Normal(b) <==> Normal(a[width..] + b) == Normal(a[width..]) + Normal(b)
  {
    assert (a + b)[width..] == a[width..] + b;
    var whole, parts, tail := Normal(a[width..] + b), Normal(a[width..]), Normal(b);
    assert piece + (parts + tail) == (piece + parts) + tail;
    SamePrefix(piece, whole, parts + tail);
  }

  /** Normalisation distributes over concatenation exactly when the seam holds. */
  lemma {:induction false} DistributesIff(a: string, b: string)
    ensures Normal(a + b) == Normal(a) + Normal(b) <==> SeamHolds(a, b)
  {
    if |a| == 0 {
      assert a + b == b;
    } else if StartsEscape(a) {
      DistributesIff(a[3..], b);
      NormalizeStep(a, false, Escape(a[1], a[2]), 3);
      NormalizeStep(a + b, false, Escape(a[1], a[2]), 3);
      TakeOff(a, b, Escape(a[1], a[2]), 3);
    } else if StartsEscape(a + b) {
      EscapeAcrossSeam(a, b);
    } else {
      DistributesIff(a[1..], b);
      var piece := if a[0] as int < 128 then [a[0]] else PercentBytes(Utf8(a[0]));
      NormalizeStep(a, false, piece, 1);
      NormalizeStep(a + b, false, piece, 1);
      TakeOff(a, b, piece, 1);
    }
  }

  /** An escape that the seam cuts in two: %4 and 1 stay apart, but %41 becomes A. */
  lemma CutEscapeDoesNotDistribute()
    ensures Normal("%4") + Normal("1") == "%41" && Normal("%4" + "1") == "A"
    ensures !SeamHolds("%4", "1")
  {
    var a := "%4";
    assert a[1..] == "4" && a[1..][1..] == "";
    assert Normal("4") == "4" && Normal(a) == "%4" && Normal("1") == "1";
    var s := a + "1";
    assert s == "%41" && s[3..] == "" && Escape('4', '1') == "A";
    assert Normal(s) == "A" + "";
    DistributesIff(a, "1");
  }

  lemma SamePrefix(e: string, x: string, y: string)
    ensures e + x == e + y <==> x == y
  {
    assert (e + x)[|e|..] == x && (e + y)[|e|..] == y;
  }

  lemma {:induction false} WellFormedSeamHolds(a: string, b: string)
    requires IsWellFormed(a)
    ensures SeamHolds(a, b) && Normal(a + b) == Normal(a) + Normal(b)
  {
    if |a| > 0 {
      if StartsEscape(a) {
        WellFormedSeamHolds(a[3..], b);
      } else {
        WellFormedSeamHolds(a[1..], b);
      }
    }
    DistributesIff(a, b);
  }
}
