/** Octets, strings as octets, and big-endian 16-bit fields shared by every codec of the daemon. */
module Bytes {

  type Byte = b: int | 0 <= b < 256
  type U16 = n: int | 0 <= n < 0x1_0000
  type Octets = seq<Byte>

  datatype Option<+T> = None | Some(value: T)
  datatype Result<+T, +E> = Ok(value: T) | Err(error: E)

  /** `saturating_sub`. */
  function SaturatingSub(a: nat, b: nat): nat { if a >= b then a - b else 0 }

  function Min(a: nat, b: nat): nat { if a <= b then a else b }

  lemma Associate(a: Octets, b: Octets, c: Octets)
    ensures a + (b + c) == (a + b) + c
  {
  }

  /** The middle of three pieces stands between the outer ones. */
  lemma Middle(a: Octets, b: Octets, c: Octets)
    ensures var m := a + (b + c); m[..|a|] == a && m[|a|..|a| + |b|] == b && m[|a| + |b|..] == c
  {
  }

  const CR: Byte := 13
  const LF: Byte := 10
  const DOT: Byte := 46

  function PutU16(n: U16): (s: Octets)
    ensures |s| == 2 && GetU16(s, 0) == n
  {
    [n / 256, n % 256]
  }

  function GetU16(s: Octets, at: nat): U16
    requires at + 2 <= |s|
  {
    (s[at] as int) * 256 + s[at + 1]
  }

  /** Reading a 16-bit field back and writing it again reproduces its two octets. */
  lemma U16RoundTrip(s: Octets, at: nat)
    requires at + 2 <= |s|
    ensures PutU16(GetU16(s, at)) == s[at..at + 2]
  {
    var n := GetU16(s, at);
    assert n / 256 == s[at] && n % 256 == s[at + 1];
  }

  predicate IsAsciiByte(b: Byte) { b < 128 }

  predicate IsAscii(s: Octets) { forall i :: 0 <= i < |s| ==> IsAsciiByte(s[i]) }

  predicate IsUpperByte(b: Byte) { 65 <= b <= 90 }

  function LowerByte(b: Byte): Byte { if IsUpperByte(b) then b + 32 else b }

  /** `to_ascii_lowercase`. */
  function Lower(s: Octets): (r: Octets)
    ensures |r| == |s|
  {
    seq(|s|, i requires 0 <= i < |s| => LowerByte(s[i]))
  }

  predicate IsLower(s: Octets) { forall i :: 0 <= i < |s| ==> !IsUpperByte(s[i]) }

  /** The 26 letters, and nothing else, change. */
  lemma LowerLetters(b: Byte)
    ensures LowerByte(b) == if 65 <= b <= 90 then 97 + (b - 65) else b
    ensures IsUpperByte(b) <==> 'A' as int <= b <= 'Z' as int
  {
  }

  lemma LowerFixedPoint(s: Octets)
    ensures IsLower(Lower(s))
    ensures Lower(s) == s <==> IsLower(s)
    ensures IsAscii(Lower(s)) <==> IsAscii(s)
  {
    if Lower(s) == s {
      forall i | 0 <= i < |s| ensures !IsUpperByte(s[i]) { assert Lower(s)[i] == s[i]; }
    }
    if IsAscii(Lower(s)) {
      forall i | 0 <= i < |s| ensures IsAsciiByte(s[i]) { assert IsAsciiByte(Lower(s)[i]); }
    }
  }

  /** `trim_end_matches('.')`. */
  function TrimEnd(s: Octets): (r: Octets)
    ensures r <= s
    ensures r == [] || r[|r| - 1] != DOT
  {
    if |s| > 0 && s[|s| - 1] == DOT then TrimEnd(s[..|s| - 1]) else s
  }

  /** `trim_start_matches('.')`. */
  function TrimStart(s: Octets): (r: Octets)
    ensures |r| <= |s|
    ensures r == [] || r[0] != DOT
  {
    if |s| > 0 && s[0] == DOT then TrimStart(s[1..]) else s
  }

  /** `trim_matches('.')`. */
  function TrimDots(s: Octets): (r: Octets)
  {
    TrimStart(TrimEnd(s))
  }

  /** Octets taken by the UTF-8 scalar at the head of `s`, 0 when there is none (table 3-7 of the Unicode standard). */
  function ScalarWidth(s: Octets): (k: nat)
    requires |s| > 0
    ensures k <= |s|
    ensures forall j :: 1 <= j < k ==> s[j] >= 128
    ensures k > 1 ==> s[0] >= 128
  {
    var b := s[0];
    if b < 0x80 then 1
    else if |s| >= 2 && 0xC2 <= b <= 0xDF && 0x80 <= s[1] <= 0xBF then 2
    else if |s| >= 3 && 0xE0 <= b <= 0xEF
            && (if b == 0xE0 then 0xA0 else 0x80) <= s[1] <= (if b == 0xED then 0x9F else 0xBF)
            && 0x80 <= s[2] <= 0xBF then 3
    else if |s| >= 4 && 0xF0 <= b <= 0xF4
            && (if b == 0xF0 then 0x90 else 0x80) <= s[1] <= (if b == 0xF4 then 0x8F else 0xBF)
            && 0x80 <= s[2] <= 0xBF && 0x80 <= s[3] <= 0xBF then 4
    else 0
  }

  /** `str::from_utf8(s).is_ok()`. */
  predicate IsUtf8(s: Octets)
  {
    s == [] || (var k := ScalarWidth(s); k > 0 && IsUtf8(s[k..]))
  }

  lemma {:induction false} LowerKeepsUtf8(s: Octets)
    requires IsUtf8(s)
    ensures IsUtf8(Lower(s))
    decreases |s|
  {
    if s != [] {
      var k := ScalarWidth(s);
      LowerKeepsUtf8(s[k..]);
      assert Lower(s)[k..] == Lower(s[k..]);
      assert ScalarWidth(Lower(s)) == k;
    }
  }

  /** A final dot is a scalar of its own, so dropping it leaves UTF-8. */
  lemma {:induction false} DropLastDotKeepsUtf8(s: Octets)
    requires IsUtf8(s) && s != [] && s[|s| - 1] == DOT
    ensures IsUtf8(s[..|s| - 1])
    decreases |s|
  {
    var k := ScalarWidth(s);
    var t := s[..|s| - 1];
    if k < |s| {
      DropLastDotKeepsUtf8(s[k..]);
      assert s[k..][..|s| - k - 1] == t[k..];
      assert ScalarWidth(t) == k;
    }
  }

  lemma {:induction false} TrimEndKeepsUtf8(s: Octets)
    requires IsUtf8(s)
    ensures IsUtf8(TrimEnd(s))
    decreases |s|
  {
    if |s| > 0 && s[|s| - 1] == DOT {
      DropLastDotKeepsUtf8(s);
      TrimEndKeepsUtf8(s[..|s| - 1]);
    }
  }

  lemma {:induction false} AsciiIsUtf8(s: Octets)
    requires IsAscii(s)
    ensures IsUtf8(s)
    decreases |s|
  {
    if s != [] {
      assert IsAsciiByte(s[0]);
      AsciiIsUtf8(s[1..]);
    }
  }

  // ---------------------------------------------------------------- UTF-8 by code points

  predicate Continues(b: Byte) { 0x80 <= b < 0xC0 }

  /** Unicode scalar values: code points that are no surrogates. */
  predicate IsScalarValue(c: int) { 0 <= c < 0xD800 || 0xE000 <= c < 0x11_0000 }

  /** The octets spell this code point in the shortest form (sections 3 and 4 of RFC 3629). */
  predicate Spelled(s: Octets, c: int)
  {
    && IsScalarValue(c)
    && match |s|
       case 1 => c < 0x80 && s[0] == c
       case 2 => 0x80 <= c < 0x800 && Continues(s[1]) && c == (s[0] as int - 0xC0) * 64 + (s[1] as int - 0x80)
                 && 0xC0 <= s[0] < 0xE0
       case 3 => 0x800 <= c < 0x1_0000 && Continues(s[1]) && Continues(s[2]) && 0xE0 <= s[0] < 0xF0
                 && c == (s[0] as int - 0xE0) * 4096 + (s[1] as int - 0x80) * 64 + (s[2] as int - 0x80)
       case 4 => 0x1_0000 <= c && Continues(s[1]) && Continues(s[2]) && Continues(s[3]) && 0xF0 <= s[0] < 0xF8
                 && c == (s[0] as int - 0xF0) * 262144 + (s[1] as int - 0x80) * 4096
                         + (s[2] as int - 0x80) * 64 + (s[3] as int - 0x80)
       case _ => false
  }

  /** The width that a text begins with is that of the scalar value it spells; none means it spells none. */
  lemma ScalarWidthIff(s: Octets, k: nat)
    requires 0 < k <= |s|
    ensures ScalarWidth(s) == k <==> exists c :: Spelled(s[..k], c)
  {
    var t := s[..k];
    if k == 1 {
      if ScalarWidth(s) == 1 { assert Spelled(t, s[0]); }
    } else if k == 2 {
      var c := (s[0] as int - 0xC0) * 64 + (s[1] as int - 0x80);
      if ScalarWidth(s) == 2 { assert Spelled(t, c); }
    } else if k == 3 {
      var c := (s[0] as int - 0xE0) * 4096 + (s[1] as int - 0x80) * 64 + (s[2] as int - 0x80);
      if ScalarWidth(s) == 3 { assert Spelled(t, c); }
    } else if k == 4 {
      var c := (s[0] as int - 0xF0) * 262144 + (s[1] as int - 0x80) * 4096
               + (s[2] as int - 0x80) * 64 + (s[3] as int - 0x80);
      if ScalarWidth(s) == 4 { assert Spelled(t, c); }
    }
  }

  // ---------------------------------------------------------------- trimming dots

  predicate AllDots(s: Octets) { forall i :: 0 <= i < |s| ==> s[i] == DOT }

  lemma {:induction false} TrimEndExact(s: Octets, dots: Octets)
    requires AllDots(dots) && (s == [] || s[|s| - 1] != DOT)
    ensures TrimEnd(s + dots) == s
    decreases |dots|
  {
    if dots == [] {
      assert s + dots == s;
    } else {
      assert (s + dots)[..|s + dots| - 1] == s + dots[..|dots| - 1];
      TrimEndExact(s, dots[..|dots| - 1]);
    }
  }

  lemma {:induction false} TrimStartExact(dots: Octets, s: Octets)
    requires AllDots(dots) && (s == [] || s[0] != DOT)
    ensures TrimStart(dots + s) == s
    decreases |dots|
  {
    if dots == [] {
      assert dots + s == s;
    } else {
      assert (dots + s)[1..] == dots[1..] + s;
      TrimStartExact(dots[1..], s);
    }
  }

  /** Dots around a text without outer dots are trimmed, and nothing else. */
  lemma TrimDotsExact(before: Octets, s: Octets, after: Octets)
    requires AllDots(before) && AllDots(after) && s != [] && s[0] != DOT && s[|s| - 1] != DOT
    ensures TrimDots(before + s + after) == s
  {
    TrimEndExact(before + s, after);
    TrimStartExact(before, s);
  }

  lemma {:induction false} TrimStartSuffix(s: Octets)
    ensures TrimStart(s) == s[|s| - |TrimStart(s)|..]
    decreases |s|
  {
    if |s| > 0 && s[0] == DOT { TrimStartSuffix(s[1..]); }
  }

  lemma TrimDotsTwice(s: Octets)
    ensures TrimDots(TrimDots(s)) == TrimDots(s)
    ensures TrimDots(s) != [] ==> TrimDots(s)[0] != DOT && TrimDots(s)[|TrimDots(s)| - 1] != DOT
  {
    var t := TrimEnd(s);
    TrimStartSuffix(t);
  }
}
