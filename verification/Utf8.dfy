/**
 UTF-8 (section 3 of RFC 3629) over whole Unicode scalar values, and the lossy
 decoder that the truncation helpers rely on: `bytes.decode("utf-8", errors="ignore")`.
 The two cut theorems say what decoding a cut encoding yields: the longest run of
 whole characters that the cut left intact, never a split one.
 */
module Utf8 {
  type Byte = b: int | 0 <= b < 256

  datatype Decoded = Invalid | Valid(c: char, width: nat)

  function EncodeChar(c: char): (bs: seq<Byte>)
    ensures 1 <= |bs| <= 4
  {
    var n := c as int;
    if n < 0x80 then [n]
    else if n < 0x800 then [0xC0 + n / 64, 0x80 + n % 64]
    else if n < 0x1_0000 then [0xE0 + n / 4096, 0x80 + n / 64 % 64, 0x80 + n % 64]
    else [0xF0 + n / 262144, 0x80 + n / 4096 % 64, 0x80 + n / 64 % 64, 0x80 + n % 64]
  }

  function Encode(s: string): seq<Byte> {
    if s == "" then [] else EncodeChar(s[0]) + Encode(s[1..])
  }

  /** The number of bytes a string takes: `len(s.encode("utf-8"))`. */
  function Len(s: string): nat {
    |Encode(s)|
  }

  predicate IsTail(b: Byte) {
    0x80 <= b < 0xC0
  }

  predicate IsScalar(n: int) {
    0 <= n < 0xD800 || 0xE000 <= n < 0x11_0000
  }

  /** Reads `lead` as a digit above `offset` and the bytes after it as base-64 digits. */
  function Digits2(lead: int, b: int): int {
    lead * 64 + (b - 0x80)
  }

  function Digits3(lead: int, b: int, c: int): int {
    Digits2(lead, b) * 64 + (c - 0x80)
  }

  function Digits4(lead: int, b: int, c: int, d: int): int {
    Digits3(lead, b, c) * 64 + (d - 0x80)
  }

  /** The well-formed character at the front of `bs`, if there is one. */
  function FirstChar(bs: seq<Byte>): (d: Decoded)
    ensures d.Valid? ==> 1 <= d.width <= |bs|
  {
    if |bs| >= 1 && bs[0] < 0x80 then
      Valid(bs[0] as char, 1)
    else if |bs| >= 2 && 0xC2 <= bs[0] < 0xE0 && IsTail(bs[1]) then
      Valid(Digits2(bs[0] - 0xC0, bs[1]) as char, 2)
    else if |bs| >= 3 && 0xE0 <= bs[0] < 0xF0 && IsTail(bs[1]) && IsTail(bs[2]) then
      var n := Digits3(bs[0] - 0xE0, bs[1], bs[2]);
      if n >= 0x800 && IsScalar(n) then Valid(n as char, 3) else Invalid
    else if |bs| >= 4 && 0xF0 <= bs[0] < 0xF5 && IsTail(bs[1]) && IsTail(bs[2]) && IsTail(bs[3]) then
      var n := Digits4(bs[0] - 0xF0, bs[1], bs[2], bs[3]);
      if n >= 0x1_0000 && IsScalar(n) then Valid(n as char, 4) else Invalid
    else
      Invalid
  }

  /** Decodes what is well formed and drops every byte that is not. */
  function DecodeIgnore(bs: seq<Byte>): string {
    if bs == [] then ""
    else
      match FirstChar(bs)
      case Valid(c, width) => [c] + DecodeIgnore(bs[width..])
      case Invalid => DecodeIgnore(bs[1..])
  }

  // ----- one character

  lemma DigitsOfNumber(n: nat)
    ensures Digits2(n / 64, 0x80 + n % 64) == n
    ensures Digits3(n / 4096, 0x80 + n / 64 % 64, 0x80 + n % 64) == n
    ensures Digits4(n / 262144, 0x80 + n / 4096 % 64, 0x80 + n / 64 % 64, 0x80 + n % 64) == n
  {
    assert n / 4096 == n / 64 / 64;
    assert n / 262144 == n / 64 / 64 / 64;
  }

  lemma FirstCharOfEncoding(c: char, rest: seq<Byte>)
    ensures FirstChar(EncodeChar(c) + rest) == Valid(c, |EncodeChar(c)|)
  {
    DigitsOfNumber(c as int);
    var bs := EncodeChar(c) + rest;
    assert forall i :: 0 <= i < |EncodeChar(c)| ==> bs[i] == EncodeChar(c)[i];
  }

  lemma DecodeChar(c: char, rest: seq<Byte>)
    ensures DecodeIgnore(EncodeChar(c) + rest) == [c] + DecodeIgnore(rest)
  {
    FirstCharOfEncoding(c, rest);
    assert (EncodeChar(c) + rest)[|EncodeChar(c)|..] == rest;
  }

  lemma EncodingShape(c: char)
    ensures forall i :: 1 <= i < |EncodeChar(c)| ==> IsTail(EncodeChar(c)[i])
    ensures |EncodeChar(c)| > 1 ==> EncodeChar(c)[0] >= 0xC0
    ensures |EncodeChar(c)| > 2 ==> EncodeChar(c)[0] >= 0xE0
    ensures |EncodeChar(c)| > 3 ==> EncodeChar(c)[0] >= 0xF0
  {
  }

  /** Bytes that only continue a character never start one, so they are dropped. */
  lemma {:induction false} TailsAreDropped(tails: seq<Byte>, rest: seq<Byte>)
    requires forall i :: 0 <= i < |tails| ==> IsTail(tails[i])
    ensures DecodeIgnore(tails + rest) == DecodeIgnore(rest)
  {
    if tails == [] {
      assert tails + rest == rest;
    } else {
      assert (tails + rest)[1..] == tails[1..] + rest;
      TailsAreDropped(tails[1..], rest);
    }
  }

  /** A character cut short leaves nothing behind. */
  lemma CutCharIsDropped(c: char, k: nat)
    requires k < |EncodeChar(c)|
    ensures DecodeIgnore(EncodeChar(c)[..k]) == ""
  {
    EncodingShape(c);
    var cut := EncodeChar(c)[..k];
    if k > 0 {
      assert FirstChar(cut) == Invalid;
      var tails := cut[1..];
      assert tails + [] == tails;
      TailsAreDropped(tails, []);
    }
  }

  // ----- whole strings

  lemma {:induction false} EncodeConcat(a: string, b: string)
    ensures Encode(a + b) == Encode(a) + Encode(b)
    ensures Len(a + b) == Len(a) + Len(b)
  {
    if a == "" {
      assert a + b == b;
    } else {
      assert (a + b)[1..] == a[1..] + b;
      EncodeConcat(a[1..], b);
    }
  }

  lemma {:induction false} DecodeAfterWhole(s: string, rest: seq<Byte>)
    ensures DecodeIgnore(Encode(s) + rest) == s + DecodeIgnore(rest)
  {
    hide EncodeChar, FirstChar;
    if s == "" {
      assert Encode(s) + rest == rest;
    } else {
      var head := EncodeChar(s[0]);
      var tail := Encode(s[1..]) + rest;
      assert Encode(s) + rest == head + tail;
      DecodeChar(s[0], tail);
      DecodeAfterWhole(s[1..], rest);
    }
  }

  lemma RoundTrip(s: string)
    ensures DecodeIgnore(Encode(s)) == s
  {
    DecodeAfterWhole(s, []);
    assert Encode(s) + [] == Encode(s);
  }

  lemma EncodeInjective(a: string, b: string)
    requires Encode(a) == Encode(b)
    ensures a == b
  {
    RoundTrip(a);
    RoundTrip(b);
  }

  /** `k` characters is the longest prefix of `s` that fits into `n` bytes. */
  ghost predicate LongestPrefix(s: string, n: nat, k: nat) {
    && k <= |s|
    && Len(s[..k]) <= n
    && (k < |s| ==> Len(s[..k + 1]) > n)
  }

  /** Dropping `k` characters leaves the longest suffix of `s` that fits into `n` bytes. */
  ghost predicate LongestSuffix(s: string, n: nat, k: nat) {
    && k <= |s|
    && Len(s[k..]) <= n
    && (k > 0 ==> Len(s[k - 1..]) > n)
  }

  lemma {:induction false} DecodeCutPrefix(s: string, n: nat) returns (k: nat)
    requires n <= Len(s)
    ensures LongestPrefix(s, n, k)
    ensures DecodeIgnore(Encode(s)[..n]) == s[..k]
  {
    hide EncodeChar, FirstChar;
    if s == "" {
      k := 0;
    } else {
      var head, tail := EncodeChar(s[0]), Encode(s[1..]);
      assert s == [s[0]] + s[1..];
      if n < |head| {
        assert Encode(s)[..n] == head[..n];
        CutCharIsDropped(s[0], n);
        k := 0;
        assert s[..1] == [s[0]];
        assert Encode(s[..1]) == head + Encode("");
      } else {
        k := DecodeCutPrefix(s[1..], n - |head|);
        var m := n - |head|;
        assert Encode(s)[..n] == head + tail[..m];
        DecodeChar(s[0], tail[..m]);
        assert s[..k + 1] == [s[0]] + s[1..][..k];
        EncodeConcat([s[0]], s[1..][..k]);
        SingleLen(s[0]);
        if k < |s[1..]| {
          assert s[..k + 2] == [s[0]] + s[1..][..k + 1];
          EncodeConcat([s[0]], s[1..][..k + 1]);
        }
        k := k + 1;
      }
    }
  }

  lemma SingleLen(c: char)
    ensures Encode([c]) == EncodeChar(c) && Len([c]) == |EncodeChar(c)|
  {
    assert Encode([c]) == EncodeChar(c) + Encode("");
  }

  lemma CutInsideFirstChar(s: string, cut: nat)
    requires s != "" && 1 <= cut <= |EncodeChar(s[0])|
    ensures DecodeIgnore(Encode(s)[cut..]) == s[1..]
  {
    var head, tail := EncodeChar(s[0]), Encode(s[1..]);
    EncodingShape(s[0]);
    assert Encode(s)[cut..] == head[cut..] + tail;
    TailsAreDropped(head[cut..], tail);
    RoundTrip(s[1..]);
  }

  lemma {:induction false} DecodeCutSuffix(s: string, n: nat) returns (k: nat)
    requires n <= Len(s)
    ensures LongestSuffix(s, n, k)
    ensures DecodeIgnore(Encode(s)[Len(s) - n..]) == s[k..]
  {
    hide EncodeChar, FirstChar, DecodeIgnore;
    if n == Len(s) {
      k := 0;
      assert s[0..] == s;
      assert Encode(s)[0..] == Encode(s);
      RoundTrip(s);
    } else {
      var head, tail := EncodeChar(s[0]), Encode(s[1..]);
      if n <= |tail| {
        k := DecodeCutSuffix(s[1..], n);
        assert Encode(s)[Len(s) - n..] == tail[|tail| - n..];
        assert s[1..][k..] == s[k + 1..];
        if k > 0 {
          assert s[1..][k - 1..] == s[k..];
        }
        k := k + 1;
      } else {
        CutInsideFirstChar(s, Len(s) - n);
        k := 1;
        assert s[0..] == s;
      }
    }
  }

  /** Only one prefix length is the longest that fits. */
  lemma LongestPrefixUnique(s: string, n: nat, j: nat, k: nat)
    requires LongestPrefix(s, n, j) && LongestPrefix(s, n, k)
    ensures j == k
  {
    if j < k {
      PrefixLenMonotone(s, j + 1, k);
    } else if k < j {
      PrefixLenMonotone(s, k + 1, j);
    }
  }

  lemma PrefixLenMonotone(s: string, i: nat, j: nat)
    requires i <= j <= |s|
    ensures Len(s[..i]) <= Len(s[..j])
  {
    assert s[..j] == s[..i] + s[i..j];
    EncodeConcat(s[..i], s[i..j]);
  }
}
