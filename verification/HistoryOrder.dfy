/**
 The chronological order of history messages: `sorted(messages, key=sort_key)`.
 A sort key is the normalised timestamp text and the row id. Python's sort is stable,
 and a stable sort of a list is unique, so the insertion sort below is that sort.
 */
module HistoryOrder {
  import opened Timestamps

  datatype SortKey = SortKey(stamp: string, id: int)

  datatype ChatMessage = ChatMessage(role: string, content: string, sourceId: string, sortKey: SortKey)

  predicate KeyLess(a: SortKey, b: SortKey) {
    TextLess(a.stamp, b.stamp) || (a.stamp == b.stamp && a.id < b.id)
  }

  lemma KeyLessTransitive(a: SortKey, b: SortKey, c: SortKey)
    requires KeyLess(a, b) && KeyLess(b, c)
    ensures KeyLess(a, c)
  {
    if TextLess(a.stamp, b.stamp) && TextLess(b.stamp, c.stamp) {
      TextLessTransitive(a.stamp, b.stamp, c.stamp);
    }
  }

  lemma KeyLessTotal(a: SortKey, b: SortKey)
    ensures a == b || KeyLess(a, b) || KeyLess(b, a)
  {
    TextLessTotal(a.stamp, b.stamp);
  }

  lemma KeyLessAsymmetric(a: SortKey, b: SortKey)
    ensures !(KeyLess(a, b) && KeyLess(b, a))
  {
    if KeyLess(a, b) && KeyLess(b, a) {
      KeyLessTransitive(a, b, a);
      TextLessIrreflexive(a.stamp);
    }
  }

  // ----- the sort

  function Insert(m: ChatMessage, s: seq<ChatMessage>): seq<ChatMessage> {
    if s == [] || !KeyLess(s[0].sortKey, m.sortKey) then [m] + s
    else [s[0]] + Insert(m, s[1..])
  }

  function SortByKey(s: seq<ChatMessage>): seq<ChatMessage> {
    if s == [] then [] else Insert(s[0], SortByKey(s[1..]))
  }

  lemma {:induction false} InsertPermutes(m: ChatMessage, s: seq<ChatMessage>)
    ensures multiset(Insert(m, s)) == multiset{m} + multiset(s)
  {
    hide KeyLess;
    if s != [] {
      InsertPermutes(m, s[1..]);
      assert s == [s[0]] + s[1..];
    }
  }

  lemma {:induction false} SortPermutes(s: seq<ChatMessage>)
    ensures multiset(SortByKey(s)) == multiset(s)
  {
    if s != [] {
      SortPermutes(s[1..]);
      InsertPermutes(s[0], SortByKey(s[1..]));
      assert s == [s[0]] + s[1..];
    }
  }

  ghost predicate Sorted(s: seq<ChatMessage>) {
    forall i, j :: 0 <= i < j < |s| ==> !KeyLess(s[j].sortKey, s[i].sortKey)
  }

  /** The messages that carry key `k`, in their order. */
  ghost function WithKey(s: seq<ChatMessage>, k: SortKey): seq<ChatMessage> {
    if s == [] then []
    else (if s[0].sortKey == k then [s[0]] else []) + WithKey(s[1..], k)
  }

  /** A stable sort: in key order, and equal keys keep the order they came in. */
  ghost predicate IsStableSort(r: seq<ChatMessage>, s: seq<ChatMessage>) {
    Sorted(r) && forall k :: WithKey(r, k) == WithKey(s, k)
  }

  lemma {:induction false} InsertWithKey(m: ChatMessage, s: seq<ChatMessage>, k: SortKey)
    requires Sorted(s)
    ensures WithKey(Insert(m, s), k) == WithKey([m] + s, k)
  {
    hide KeyLess;
    assert ([m] + s)[1..] == s;
    if s != [] && KeyLess(s[0].sortKey, m.sortKey) {
      KeyLessAsymmetric(s[0].sortKey, m.sortKey);
      InsertWithKey(m, s[1..], k);
      assert Sorted(s[1..]);
      assert Insert(m, s)[1..] == Insert(m, s[1..]);
      assert ([m] + s[1..])[1..] == s[1..];
    }
  }

  lemma {:induction false} InsertSorted(m: ChatMessage, s: seq<ChatMessage>)
    requires Sorted(s)
    ensures Sorted(Insert(m, s))
  {
    hide KeyLess;
    var r := Insert(m, s);
    if s == [] || !KeyLess(s[0].sortKey, m.sortKey) {
      forall j | 0 <= j < |s| ensures !KeyLess(s[j].sortKey, m.sortKey) {
        if KeyLess(s[j].sortKey, m.sortKey) {
          KeyLessTotal(s[0].sortKey, s[j].sortKey);
          if s[0].sortKey != s[j].sortKey {
            KeyLessTransitive(s[0].sortKey, s[j].sortKey, m.sortKey);
          }
        }
      }
    } else {
      InsertSorted(m, s[1..]);
      InsertPermutes(m, s[1..]);
      var tail := Insert(m, s[1..]);
      KeyLessAsymmetric(s[0].sortKey, m.sortKey);
      forall j | 0 <= j < |tail| ensures !KeyLess(tail[j].sortKey, s[0].sortKey) {
        assert tail[j] in multiset(tail);
        if tail[j] != m {
          assert tail[j] in s[1..];
        }
      }
    }
  }

  lemma {:induction false} SortIsStable(s: seq<ChatMessage>)
    ensures IsStableSort(SortByKey(s), s)
  {
    if s != [] {
      SortIsStable(s[1..]);
      var tail := SortByKey(s[1..]);
      InsertSorted(s[0], tail);
      forall k ensures WithKey(SortByKey(s), k) == WithKey(s, k) {
        InsertWithKey(s[0], tail, k);
        assert ([s[0]] + tail)[1..] == tail;
      }
    }
  }

  lemma {:induction false} KeyOccurs(s: seq<ChatMessage>, k: SortKey)
    ensures WithKey(s, k) != [] <==> exists i :: 0 <= i < |s| && s[i].sortKey == k
  {
    if s != [] {
      KeyOccurs(s[1..], k);
      if exists i :: 0 <= i < |s| && s[i].sortKey == k {
        var i :| 0 <= i < |s| && s[i].sortKey == k;
        if i > 0 {
          assert s[1..][i - 1].sortKey == k;
        }
      }
    }
  }

  lemma HeadIsLeast(r: seq<ChatMessage>, s: seq<ChatMessage>)
    requires Sorted(r) && r != [] && s != []
    requires forall k :: WithKey(r, k) == WithKey(s, k)
    ensures !KeyLess(s[0].sortKey, r[0].sortKey)
  {
    var k := s[0].sortKey;
    KeyOccurs(s, k);
    KeyOccurs(r, k);
    var i :| 0 <= i < |r| && r[i].sortKey == k;
    KeyLessAsymmetric(r[0].sortKey, k);
  }

  /** Two stable sorts of the same list are equal. */
  lemma {:induction false} StableSortUnique(r: seq<ChatMessage>, s: seq<ChatMessage>)
    requires Sorted(r) && Sorted(s)
    requires forall k :: WithKey(r, k) == WithKey(s, k)
    ensures r == s
  {
    hide KeyLess;
    if r == [] || s == [] {
      if r != [] {
        assert WithKey(r, r[0].sortKey) != WithKey(s, r[0].sortKey);
      } else if s != [] {
        assert WithKey(r, s[0].sortKey) != WithKey(s, s[0].sortKey);
      }
    } else {
      HeadIsLeast(r, s);
      HeadIsLeast(s, r);
      KeyLessTotal(r[0].sortKey, s[0].sortKey);
      var k0 := r[0].sortKey;
      assert WithKey(r, k0)[0] == r[0] && WithKey(s, k0)[0] == s[0];
      forall k ensures WithKey(r[1..], k) == WithKey(s[1..], k) {
        assert WithKey(r, k) == WithKey(s, k);
        assert WithKey(r[1..], k) == if k == k0 then WithKey(r, k)[1..] else WithKey(r, k);
        assert WithKey(s[1..], k) == if k == k0 then WithKey(s, k)[1..] else WithKey(s, k);
      }
      StableSortUnique(r[1..], s[1..]);
      assert r == [r[0]] + r[1..] && s == [s[0]] + s[1..];
    }
  }

  // ----- lists that are already in order

  ghost predicate Ascending(s: seq<ChatMessage>) {
    forall i, j :: 0 <= i < j < |s| ==> KeyLess(s[i].sortKey, s[j].sortKey)
  }

  function Reverse<T>(s: seq<T>): (r: seq<T>)
    ensures |r| == |s|
    ensures forall i :: 0 <= i < |s| ==> r[i] == s[|s| - 1 - i]
  {
    if s == [] then [] else Reverse(s[1..]) + [s[0]]
  }

  lemma {:induction false} ReversePermutes<T>(s: seq<T>)
    ensures multiset(Reverse(s)) == multiset(s)
  {
    if s != [] {
      ReversePermutes(s[1..]);
      assert s == [s[0]] + s[1..];
    }
  }

  lemma {:induction false} SortOfAscending(s: seq<ChatMessage>)
    requires Ascending(s)
    ensures SortByKey(s) == s
  {
    if s != [] {
      SortOfAscending(s[1..]);
      if |s| > 1 {
        KeyLessAsymmetric(s[0].sortKey, s[1].sortKey);
      }
    }
  }

  lemma {:induction false} InsertLargest(m: ChatMessage, s: seq<ChatMessage>)
    requires forall i :: 0 <= i < |s| ==> KeyLess(s[i].sortKey, m.sortKey)
    ensures Insert(m, s) == s + [m]
  {
    if s != [] {
      InsertLargest(m, s[1..]);
    }
  }

  /** Sorting the newest-first list of distinct keys restores the oldest-first list. */
  lemma {:induction false} SortOfReversed(s: seq<ChatMessage>)
    requires Ascending(s)
    ensures SortByKey(Reverse(s)) == s
    decreases |s|
  {
    hide KeyLess;
    if s != [] {
      var n := |s| - 1;
      var front := s[..n];
      var r := Reverse(s);
      assert r[0] == s[n];
      assert r[1..] == Reverse(front);
      SortOfReversed(front);
      InsertLargest(s[n], front);
    }
  }
}
