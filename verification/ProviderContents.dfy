/**
 What `fit_optional_context` returns, read off the request: why it fails, every message of a
 success, and the order in which sections win.
 */
module ProviderContents {
  import opened Options
  import opened JsonSize
  import opened Selection
  import opened Truncation
  import opened ProviderEnvelope
  import opened ProviderTheorems

  /** The suffix as it is appended, if there is one. */
  function Closing(suffix: string): string {
    if suffix == "" then "" else "\n\n" + suffix
  }

  /** The first of the system messages. */
  predicate IsSystemMessage(ms: seq<Message>, at: nat) {
    at < |ms| && ms[at].role == "system" && forall j :: 0 <= j < at ==> ms[j].role != "system"
  }

  predicate IsPermutation(p: seq<int>, n: nat) {
    |p| == n && (forall i :: 0 <= i < n ==> 0 <= p[i] < n) && forall i, j :: 0 <= i < j < n ==> p[i] != p[j]
  }

  ghost predicate BadRole(ms: seq<Message>) {
    exists i :: 0 <= i < |ms| && ms[i].role != "system" && ms[i].role != "user" && ms[i].role != "assistant"
  }

  ghost predicate NoSystem(ms: seq<Message>) {
    forall i :: 0 <= i < |ms| ==> ms[i].role != "system"
  }

  /** The mandatory messages with the suffix behind message `at`. */
  function Closed(q: FitRequest, at: nat): seq<Message>
    requires at < |q.messages|
  {
    q.messages[at := Message("system", q.messages[at].content + Closing(q.suffix))]
  }

  /** The first reason a request has to fail; `at` is its system message. Optional sections are never one. */
  ghost function Reason(q: FitRequest, at: nat): Option<EnvelopeError>
    requires NoSystem(q.messages) || IsSystemMessage(q.messages, at)
  {
    if q.messages == [] then Some(EmptyMessages)
    else if BadRole(q.messages) then Some(InvalidRole)
    else if Units(q.messages) > q.maxUnits then Some(BudgetExceeded)
    else if q.components == [] && q.suffix == "" then None
    else if NoSystem(q.messages) then Some(NoSystemMessage)
    else if q.components != [] && q.priority.Some? && !IsPermutation(q.priority.value, |q.components|)
    then Some(InvalidPriority)
    else if Units(Closed(q, at)) > q.maxUnits then Some(BudgetExceeded)
    else None
  }

  lemma RefusalExactly(q: FitRequest, at: nat)
    requires NoSystem(q.messages) || IsSystemMessage(q.messages, at)
    ensures q.Refusal() == Reason(q, at)
  {
    hide Units;
    var i := SystemIndex(q.messages);
    assert i < |q.messages| ==> i == at;
  }

  /** Each text on a line of its own. */
  function Lines(texts: seq<string>): string {
    if texts == [] then "" else "\n" + texts[0] + Lines(texts[1..])
  }

  lemma {:induction false} BodyIsLines(contents: seq<string>, mask: Mask)
    requires |contents| == |mask|
    ensures Body(contents, mask) == Lines(Select(contents, mask))
  {
    if contents != [] {
      BodyIsLines(contents[1..], mask[1..]);
      var rest := Select(contents[1..], mask[1..]);
      if mask[0] {
        assert Select(contents, mask)[1..] == rest;
      } else {
        assert Select(contents, mask) == rest;
      }
    }
  }

  /** The sections of a success as they are kept: whole, but for one that was cut. */
  function Sections(q: FitRequest, cut: Cut): (r: seq<string>)
    requires cut.CutAt? ==> cut.index < |q.components|
    ensures |r| == |q.components|
  {
    var all := seq(|q.components|, i requires 0 <= i < |q.components| => q.components[i].content);
    if cut.CutAt? then all[cut.index := cut.text] else all
  }

  /**
   A success: the first system message is what it was, a line for each chosen section in visual
   order, and the suffix. No other message changes, and the choice is reported.
   */
  lemma ResultExactly(q: FitRequest, r: FitResult, mask: Mask, cut: Cut, at: nat)
    requires q.Refusal().None? && q.Success(r, mask, cut) && IsSystemMessage(q.messages, at) && q.components != []
    ensures |mask| == |q.components| && (cut.CutAt? ==> q.truncate && cut.index < |q.components|)
    ensures r.messages == q.messages[at := Message("system",
              q.messages[at].content + Lines(Select(Sections(q, cut), mask)) + Closing(q.suffix))]
    ensures forall i: nat :: i in r.selected <==> i < |mask| && mask[i]
    ensures r.pruned <==> exists i :: 0 <= i < |mask| && !mask[i]
  {
    hide Units, PlainOutcome, CutOutcome, CutsFirst, Tried, FitRequest.Refusal, Body, Greedy, Lines, Select,
         ValidPriority, SectionBudget;
    assert at == SystemIndex(q.messages);
    assert Kept(Contents(q.components), cut) == Sections(q, cut);
    BodyIsLines(Sections(q, cut), mask);
  }

  /** A success without sections: the suffix is appended, if there is one. */
  lemma ResultWithoutSections(q: FitRequest, r: FitResult, mask: Mask, cut: Cut, at: nat)
    requires q.Refusal().None? && q.Success(r, mask, cut) && q.components == []
    requires NoSystem(q.messages) || IsSystemMessage(q.messages, at)
    ensures r.selected == {} && !r.pruned
    ensures NoSystem(q.messages) ==> q.suffix == "" && r.messages == q.messages
    ensures !NoSystem(q.messages) ==> r.messages == Closed(q, at)
  {
    hide Units;
    var i := SystemIndex(q.messages);
    if i < |q.messages| {
      assert i == at;
      assert q.messages[at].content + "" == q.messages[at].content;
      assert q.messages[at := q.messages[at]] == q.messages;
    }
  }

  // ----- the order in which sections win

  lemma {:induction false} LexFirst(order: seq<nat>, p: Mask, q: Mask) returns (t: nat)
    requires |p| == |q| && IsOrder(order, |p|) && LexAtLeast(order, p, q)
    ensures t <= |order| && forall u :: 0 <= u < t ==> p[order[u]] == q[order[u]]
    ensures t < |order| ==> p[order[t]] && !q[order[t]]
  {
    if order == [] {
      t := 0;
    } else if p[order[0]] != q[order[0]] {
      t := 0;
    } else {
      t := LexFirst(order[1..], p, q);
      t := t + 1;
      forall u | 0 <= u < t ensures p[order[u]] == q[order[u]] {
        assert u == 0 || order[u] == order[1..][u - 1];
      }
    }
  }

  /** Where a section that is tried stands in the order; the ones before it are empty or tried before it. */
  lemma {:induction false} TriedAt(order: seq<nat>, contents: seq<string>, k: nat, t: nat) returns (j: nat)
    requires k <= |order| && IsOrder(order, |contents|) && t < |Tried(order, contents, k)|
    ensures j < k && order[j] == Tried(order, contents, k)[t]
    ensures forall u :: 0 <= u < j ==> contents[order[u]] == "" || order[u] in Tried(order, contents, k)[..t]
    decreases k
  {
    var before, all := Tried(order, contents, k - 1), Tried(order, contents, k);
    if t < |before| {
      j := TriedAt(order, contents, k - 1, t);
      assert all[..t] == before[..t];
    } else {
      j := k - 1;
      assert all[..t] == before;
      forall u | 0 <= u < j && contents[order[u]] != "" ensures order[u] in all[..t] {
        TriedHas(order, contents, k - 1, u);
      }
    }
  }

  /** The section tried as number `j`. */
  function Ranked(q: FitRequest, j: nat): (i: nat)
    requires j < |q.components| && (q.priority.Some? ==> IsPermutation(q.priority.value, |q.components|))
    ensures i < |q.components|
  {
    if q.priority.Some? then q.priority.value[j] else j
  }

  /**
   Against any other selection of non-empty sections whose envelope fits: going through the
   priority list, or the sections themselves if there is none, the first on which the two differ is
   one that was chosen.
   */
  lemma FirstDifference(q: FitRequest, r: FitResult, mask: Mask, cut: Cut, other: Mask) returns (j: nat)
    requires q.Refusal().None? && q.Success(r, mask, cut) && q.components != [] && cut.Uncut?
    requires |other| == |mask| && forall i :: 0 <= i < |mask| && q.components[i].content == "" ==> !other[i]
    requires Units(With(q.Base(), Contents(q.components), other, q.Payload())) <= q.maxUnits
    requires mask != other
    ensures j < |mask| == |q.components| && (q.priority.Some? ==> IsPermutation(q.priority.value, |q.components|))
    ensures mask[Ranked(q, j)] && !other[Ranked(q, j)]
    ensures forall u :: 0 <= u < j ==> mask[Ranked(q, u)] == other[Ranked(q, u)]
  {
    hide Units, With, Greedy, Tried, FitRequest.Refusal, Weight, LexAtLeast;
    SectionsLexGreatest(q, r, mask, cut, other);
    var contents := Contents(q.components);
    var tried := Tried(q.Order(), contents, |q.components|);
    var t := LexFirst(tried, mask, other);
    TriedCovers(q.Order(), contents);
    EmptyNotChosen(q, r, mask, cut);
    if t == |tried| {
      forall i | 0 <= i < |mask| ensures mask[i] == other[i] {
        if contents[i] != "" {
          assert i in tried;
        }
      }
      assert false;
    }
    j := TriedAt(q.Order(), contents, |q.components|, t);
    var order := q.Order();
    forall u | 0 <= u < j ensures mask[Ranked(q, u)] == other[Ranked(q, u)] {
      assert order[u] == Ranked(q, u);
      var i := q.Order()[u];
      if contents[i] != "" {
        assert i in tried[..t];
      }
    }
  }

  /** Empty sections are passed over. */
  lemma EmptyNotChosen(q: FitRequest, r: FitResult, mask: Mask, cut: Cut)
    requires q.Refusal().None? && q.Success(r, mask, cut) && q.components != [] && cut.Uncut?
    ensures forall i :: 0 <= i < |mask| && q.components[i].content == "" ==> !mask[i]
  {
    hide Units, With, Greedy, Tried, FitRequest.Refusal, Weight, ValidPriority;
    var contents := Contents(q.components);
    var b, tried := SectionBudget(q.Base(), contents), Tried(q.Order(), contents, |q.components|);
    TriedCovers(q.Order(), contents);
    forall i | 0 <= i < |mask| && q.components[i].content == "" ensures !mask[i] {
      assert i !in tried;
      GreedyUntouched(b, tried, Nothing(|mask|), i);
    }
  }
}
