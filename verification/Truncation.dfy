/**
 Cutting a text to a byte limit without splitting a character:
 `_truncate_utf8_safe` keeps the head, `_truncate_utf8_safe_head_tail` both ends.
 */
module Truncation {
  import opened Utf8
  import opened Rounding

  const MARKER := "[...]"

  function Max(a: int, b: int): int {
    if a > b then a else b
  }

  /** Python's `bs[:n]` for `n >= 0`. */
  function Head(bs: seq<Byte>, n: nat): seq<Byte> {
    if n <= |bs| then bs[..n] else bs
  }

  /** Python's `bs[-n:]` for `n >= 1`. */
  function Tail(bs: seq<Byte>, n: nat): seq<Byte> {
    if n <= |bs| then bs[|bs| - n..] else bs
  }

  /** The bytes left for text once the marker is accounted for, at least one. */
  function Available(maxBytes: int): nat {
    Max(maxBytes - 5, 1)
  }

  function TruncateHead(text: string, maxBytes: int): (string, bool) {
    if Len(text) <= maxBytes then (text, false)
    else (DecodeIgnore(Head(Encode(text), Available(maxBytes))) + MARKER, true)
  }

  lemma MarkerLen(a: string, b: string)
    ensures Len(a + MARKER) == Len(a) + 5
    ensures Len(a + MARKER + b) == Len(a) + 5 + Len(b)
  {
    assert Len(MARKER) == 5;
    EncodeConcat(a, MARKER);
    EncodeConcat(a + MARKER, b);
  }

  /** Decoding the first bytes of a text gives its longest prefix of whole characters within them. */
  lemma HeadChars(text: string, n: nat) returns (k: nat)
    ensures k <= |text| && Len(text[..k]) <= n
    ensures DecodeIgnore(Head(Encode(text), n)) == text[..k]
    ensures if n <= Len(text) then LongestPrefix(text, n, k) else k == |text|
  {
    hide Encode, DecodeIgnore;
    if n <= Len(text) {
      k := DecodeCutPrefix(text, n);
    } else {
      k := |text|;
      assert text[..k] == text;
      RoundTrip(text);
    }
  }

  /**
   A cut text is a whole-character prefix, as long as the limit allows, and the marker.
   The result respects the limit exactly when nothing was cut, when at least 6 bytes are
   allowed, or when 5 are and not even one single-byte character was kept.
   */
  lemma HeadTruncation(text: string, maxBytes: int) returns (k: nat)
    ensures k <= |text|
    ensures TruncateHead(text, maxBytes) == if Len(text) <= maxBytes then (text, false) else (text[..k] + "[...]", true)
    ensures var room := if maxBytes > 6 then maxBytes - 5 else 1;
            Len(text) > maxBytes && room <= Len(text) ==> LongestPrefix(text, room, k)
    ensures Len(TruncateHead(text, maxBytes).0) <= maxBytes <==>
            Len(text) <= maxBytes || maxBytes >= 6 || (maxBytes == 5 && Len(text[..if text == "" then 0 else 1]) > 1)
  {
    hide Encode, DecodeIgnore;
    k := HeadChars(text, Available(maxBytes));
    MarkerLen(text[..k], "");
    if Len(text) > maxBytes && maxBytes == 5 {
      assert text[..0] == "";
      EmptyLen();
      assert text[..1] == [text[0]];
      SingleLen(text[0]);
      if k > 0 {
        PrefixLenMonotone(text, 1, k);
      }
    }
  }

  lemma EmptyLen()
    ensures Len("") == 0
  {
  }

  // ----- both ends

  /** `int(x)`: towards zero. */
  function TowardsZero(x: real): int {
    if x >= 0.0 then x.Floor else -((-x).Floor)
  }

  function Share(total: nat, ratio: real): real {
    total as real * ratio
  }

  /** The head's share; `round` rounds the product. */
  function HeadBytes(total: nat, headRatio: real, round: real -> real): nat {
    Max(1, TowardsZero(round(Share(total, headRatio))))
  }

  /** The head's share: the whole part of the product, and at least one byte. */
  lemma HeadShare(total: nat, headRatio: real, round: real -> real)
    ensures var share := round(total as real * headRatio);
            HeadBytes(total, headRatio, round) == if share < 1.0 then 1 else share.Floor
  {
  }

  /** A rounding that never lifts a share below one to the whole; binary64 and exact products do not. */
  ghost predicate KeepsBelow(round: real -> real) {
    forall n: nat, ratio: real :: n > 0 && ratio < 1.0 ==> round(Share(n, ratio)) < n as real
  }

  lemma HeadLeavesRoom(total: nat, headRatio: real, round: real -> real)
    requires total >= 2 && headRatio < 1.0 && KeepsBelow(round)
    ensures HeadBytes(total, headRatio, round) <= total - 1
  {
    hide Share;
  }

  lemma ExactKeepsBelow()
    ensures KeepsBelow(Identity)
  {
    forall n: nat, ratio: real | n > 0 && ratio < 1.0 ensures Identity(Share(n, ratio)) < n as real {
      assert n as real * ratio == n as real - n as real * (1.0 - ratio);
      assert n as real * (1.0 - ratio) > 0.0;
    }
  }

  lemma TailChars(text: string, n: nat) returns (j: nat)
    requires n <= Len(text)
    ensures LongestSuffix(text, n, j)
    ensures DecodeIgnore(Tail(Encode(text), n)) == text[j..]
  {
    hide Encode, DecodeIgnore;
    j := DecodeCutSuffix(text, n);
  }

  lemma Apart(text: string, k: nat, j: nat)
    requires k <= |text| && j <= |text|
    requires Len(text[..k]) + Len(text[j..]) < Len(text)
    ensures k < j
  {
    hide Encode;
    if j <= k {
      assert text == text[..j] + text[j..];
      EncodeConcat(text[..j], text[j..]);
      PrefixLenMonotone(text, j, k);
    }
  }

  /** The longest whole-character head within `n` bytes, or all of the text. */
  ghost predicate KeptHead(text: string, n: nat, k: nat) {
    if n <= Len(text) then LongestPrefix(text, n, k) else k == |text|
  }

  /** Some prefix of the text has more bytes than are left beside the marker, but not more than the head may have. */
  ghost predicate HeadOverruns(text: string, total: nat, headBytes: nat) {
    exists i :: 0 <= i <= |text| && total < Len(text[..i]) <= headBytes
  }

  /** A head is too long for the limit exactly if some prefix within its share is. */
  lemma OverrunExactly(text: string, total: nat, headBytes: nat, k: nat)
    requires KeptHead(text, headBytes, k)
    ensures k <= |text| && (Len(text[..k]) > total <==> HeadOverruns(text, total, headBytes))
  {
    hide Encode;
    assert text[..|text|] == text;
    forall i | 0 <= i <= |text| && total < Len(text[..i]) <= headBytes ensures Len(text[..k]) > total {
      if i <= k {
        PrefixLenMonotone(text, i, k);
      } else {
        PrefixLenMonotone(text, k + 1, i);
        assert false;
      }
    }
  }

  /**
   Keeps both ends. `k` characters from the front and the characters `j` to `e` are kept: the
   longest head within its share of the bytes, and of the longest end within its share as
   much as the limit allows. For a ratio below one the parts do not overlap, the end is kept
   whole, the limit holds, and the shrinking loop never runs (`rounds` counts it). For any
   other ratio the limit fails exactly if some prefix of the text has more bytes than
   remain beside the marker and no more than the head's share.
   */
  method TruncateHeadTail(text: string, maxBytes: int, headRatio: real, round: real -> real)
    returns (r: string, truncated: bool, ghost k: nat, ghost j: nat, ghost e: nat, ghost rounds: nat)
    requires KeepsBelow(round)
    ensures Len(text) <= maxBytes ==> r == text && !truncated
    ensures Len(text) > maxBytes && maxBytes < 9 ==> (r, truncated) == TruncateHead(text, maxBytes)
    ensures Len(text) > maxBytes >= 9 ==>
              var total := maxBytes - 5;
              var headBytes := HeadBytes(total, headRatio, round);
              && truncated && k <= |text| && j <= e <= |text|
              && r == text[..k] + "[...]" + text[j..e]
              && KeptHead(text, headBytes, k) && LongestSuffix(text, Max(1, total - headBytes), j)
              && (e < |text| ==> Len(text[..k]) + 5 + Len(text[j..e + 1]) > maxBytes)
              && (Len(r) > maxBytes <==> headRatio >= 1.0 && HeadOverruns(text, total, headBytes))
              && (Len(r) > maxBytes ==> e == j)
              && (headRatio < 1.0 ==> k < j && e == |text| && rounds == 0)
  {
    hide Encode, DecodeIgnore, HeadBytes, HeadOverruns, KeepsBelow;
    k, j, e, rounds := 0, 0, 0, 0;
    if Len(text) <= maxBytes {
      return text, false, k, j, e, rounds;
    }
    if maxBytes < 9 {
      r, truncated := TruncateHead(text, maxBytes).0, TruncateHead(text, maxBytes).1;
      return;
    }
    var total := maxBytes - 5;
    var headBytes := HeadBytes(total, headRatio, round);
    var tailBytes := Max(1, total - headBytes);
    if headRatio < 1.0 {
      HeadLeavesRoom(total, headRatio, round);
    }
    var head := DecodeIgnore(Head(Encode(text), headBytes));
    k := HeadChars(text, headBytes);
    OverrunExactly(text, total, headBytes, k);
    var tail := DecodeIgnore(Tail(Encode(text), tailBytes));
    j := TailChars(text, tailBytes);
    e := |text|;
    r, truncated := head + MARKER + tail, true;
    MarkerLen(head, tail);
    if headRatio < 1.0 {
      Apart(text, k, j);
    }
    while Len(r) > maxBytes && |tail| > 0
      invariant j <= e <= |text| && tail == text[j..e] && r == head + MARKER + tail
      invariant Len(r) == Len(head) + 5 + Len(tail)
      invariant e < |text| ==> Len(head) + 5 + Len(text[j..e + 1]) > maxBytes
      invariant headRatio < 1.0 ==> rounds == 0 && e == |text| && Len(r) <= maxBytes
      decreases |tail|
    {
      tail := tail[..|tail| - 1];
      e, rounds := e - 1, rounds + 1;
      r := head + MARKER + tail;
      MarkerLen(head, tail);
    }
    EmptyLen();
    assert |tail| == 0 ==> tail == "";
  }

  /** Limits that are not kept: one byte for "aa", and nine for ten letters with a ratio of two. */
  lemma LimitsExceeded()
    ensures Len(TruncateHead("aa", 1).0) > 1
    ensures Len("aaaaaaaaaa") > 9 && HeadOverruns("aaaaaaaaaa", 4, HeadBytes(4, 2.0, Identity))
  {
    hide Encode, DecodeIgnore;
    Letters("aa");
    Letters("aaaaaaaaaa");
    Letters("aaaaaaaaaa"[..8]);
    assert "aa"[..1] == "a";
    Letters("a");
    var k := HeadTruncation("aa", 1);
    assert HeadBytes(4, 2.0, Identity) == 8;
    assert 4 < Len("aaaaaaaaaa"[..8]) <= 8;
  }

  lemma {:induction false} Letters(s: string)
    requires forall i :: 0 <= i < |s| ==> s[i] == 'a'
    ensures Len(s) == |s|
  {
    if s != "" {
      Letters(s[1..]);
    }
  }
}
