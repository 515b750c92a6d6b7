/**
 `fit_optional_context`: optional sections are added to the system message while the
 envelope stays within budget, tried in priority order and rendered in visual order.
 In truncating mode a section that does not fit may be cut; the loop below is the
 source's, which rebuilds every trial from the full sections.
 */
module ProviderEnvelope {
  import opened Options
  import opened Utf8
  import opened JsonSize
  import opened Selection
  import opened Truncation

  datatype Component = Component(name: string, content: string)

  datatype EnvelopeError = EmptyMessages | InvalidRole | BudgetExceeded | NoSystemMessage | InvalidPriority

  datatype FitResult =
    | Fitted(messages: seq<Message>, selected: set<nat>, pruned: bool)
    | Failed(error: EnvelopeError)

  // ----- validation

  predicate ValidRole(role: string) {
    role == "system" || role == "user" || role == "assistant"
  }

  function Validate(ms: seq<Message>, maxUnits: int): Option<EnvelopeError> {
    if ms == [] then Some(EmptyMessages)
    else if exists i :: 0 <= i < |ms| && !ValidRole(ms[i].role) then Some(InvalidRole)
    else if Units(ms) > maxUnits then Some(BudgetExceeded)
    else None
  }

  /** The first system message, or the length of the list if there is none. */
  function SystemIndex(ms: seq<Message>): (i: nat)
    ensures i <= |ms|
    ensures i < |ms| ==> ms[i].role == "system"
    ensures forall j :: 0 <= j < i ==> ms[j].role != "system"
  {
    if ms == [] || ms[0].role == "system" then 0 else 1 + SystemIndex(ms[1..])
  }

  predicate ValidPriority(p: seq<int>, n: nat) {
    && |p| == n
    && (forall i :: 0 <= i < |p| ==> 0 <= p[i] < n)
    && (forall i, j :: 0 <= i < j < |p| ==> p[i] != p[j])
  }

  // ----- the system message under construction

  /** Everything a trial is built from: `suffix` is the suffix as it is appended. */
  datatype Frame = Frame(messages: seq<Message>, at: nat, maxUnits: int, suffix: string, contents: seq<string>) {
    predicate Valid() {
      at < |messages| && messages[at].role == "system"
    }
  }

  /** Selected sections in visual order, each on its own line. */
  function Body(contents: seq<string>, mask: Mask): string
    requires |contents| == |mask|
  {
    if contents == [] then ""
    else (if mask[0] then "\n" + contents[0] else "") + Body(contents[1..], mask[1..])
  }

  function With(f: Frame, contents: seq<string>, mask: Mask, tail: string): seq<Message>
    requires f.Valid() && |contents| == |mask|
  {
    f.messages[f.at := Message("system", f.messages[f.at].content + Body(contents, mask) + tail)]
  }

  function SectionCosts(contents: seq<string>): (c: seq<nat>)
    ensures |c| == |contents|
  {
    seq(|contents|, i requires 0 <= i < |contents| => EscapedLen("\n" + contents[i]))
  }

  function SectionBudget(f: Frame, contents: seq<string>): (b: Budget)
    requires f.Valid()
    ensures |b.costs| == |b.grouped| == |contents| && b.max == f.maxUnits
  {
    Budget(f.maxUnits,
           Units(f.messages[f.at := Message("system", f.messages[f.at].content + f.suffix)]),
           SectionCosts(contents), seq(|contents|, _ => false), 0)
  }

  lemma UnitsReplace(ms: seq<Message>, at: nat, m: Message)
    requires at < |ms|
    ensures Units(ms[at := m]) == Units(ms) - Cost(ms[at]) + Cost(m)
  {
    hide Units, Cost;
    UnitsAreCosts(ms);
    UnitsAreCosts(ms[at := m]);
    TotalCostRemove(ms, at);
    TotalCostRemove(ms[at := m], at);
    assert ms[at := m][..at] == ms[..at] && ms[at := m][at + 1..] == ms[at + 1..];
  }

  lemma NothingEscapes()
    ensures EscapedLen("") == 0
  {
  }

  lemma {:induction false} BodyWeight(contents: seq<string>, mask: Mask)
    requires |contents| == |mask|
    ensures EscapedLen(Body(contents, mask)) == Sum(SectionCosts(contents), mask)
  {
    hide EscapedLen;
    NothingEscapes();
    if contents != [] {
      BodyWeight(contents[1..], mask[1..]);
      assert SectionCosts(contents)[1..] == SectionCosts(contents[1..]);
      EscapeConcat(if mask[0] then "\n" + contents[0] else "", Body(contents[1..], mask[1..]));
    }
  }

  /** The size of a trial is the weight of its mask. */
  lemma TrialWeight(f: Frame, contents: seq<string>, mask: Mask)
    requires f.Valid() && |contents| == |mask|
    ensures Units(With(f, contents, mask, f.suffix)) == Weight(SectionBudget(f, contents), mask)
  {
    hide Units, Cost, EscapedLen, SectionCosts, Body, Sum;
    var header, body := f.messages[f.at].content, Body(contents, mask);
    UnitsReplace(f.messages, f.at, Message("system", header + body + f.suffix));
    UnitsReplace(f.messages, f.at, Message("system", header + f.suffix));
    CostOfAppend("system", header + body, f.suffix);
    CostOfAppend("system", header, body);
    CostOfAppend("system", header, f.suffix);
    BodyWeight(contents, mask);
  }

  // ----- the selection loop

  /** Sections tried among the first `k` of `order`: empty ones are passed over. */
  function Tried(order: seq<nat>, contents: seq<string>, k: nat): seq<nat>
    requires k <= |order| && IsOrder(order, |contents|)
  {
    if k == 0 then []
    else Tried(order, contents, k - 1) + if contents[order[k - 1]] != "" then [order[k - 1]] else []
  }

  lemma {:induction false} TriedIsOrder(order: seq<nat>, contents: seq<string>, k: nat)
    requires k <= |order| && IsOrder(order, |contents|)
    ensures IsOrder(Tried(order, contents, k), |contents|)
    ensures forall i :: i in Tried(order, contents, k) ==> i in order[..k] && contents[i] != ""
    ensures forall j :: k <= j < |order| ==> order[j] !in Tried(order, contents, k)
  {
    if k > 0 {
      TriedIsOrder(order, contents, k - 1);
      assert order[..k] == order[..k - 1] + [order[k - 1]];
    }
  }

  /** What a cut section may weigh by the loop's estimate, with room set aside for the suffix. */
  function Remaining(f: Frame, current: seq<Message>): nat {
    Max(0, f.maxUnits - Units(current) - if f.suffix != "" then TextUnits(f.suffix) else 0)
  }

  /** A section that was cut: where in the tried order, which, and what is left of it. */
  datatype Cut = Uncut | CutAt(position: nat, index: nat, limit: nat, text: string)

  function Kept(contents: seq<string>, cut: Cut): seq<string>
    requires cut.CutAt? ==> cut.index < |contents|
  {
    if cut.CutAt? then contents[cut.index := cut.text] else contents
  }

  /** What the sections tried so far have led to, without a cut. */
  ghost predicate PlainOutcome(b: Budget, tried: seq<nat>, mask: Mask) {
    |b.costs| == |b.grouped| == |mask| && IsOrder(tried, |mask|) && mask == Greedy(b, tried, Nothing(|mask|))
  }

  /** Next to the selection `before`, section `i` does not fit whole but would be accepted cut. */
  ghost predicate CutWorks(f: Frame, b: Budget, before: Mask, i: nat)
    requires f.Valid() && |f.contents| == |before| && b.Covers(before) && i < |before|
  {
    var limit := Remaining(f, With(f, f.contents, before, ""));
    var text := TruncateHead(f.contents[i], limit).0;
    && !Fits(b, before[i := true]) && limit > 0 && text != f.contents[i]
    && Units(With(f, f.contents[i := text], before[i := true], f.suffix)) <= f.maxUnits
  }

  /** Among the first `n` sections tried, none could be accepted cut. */
  ghost predicate NoCutWorks(f: Frame, b: Budget, tried: seq<nat>, n: nat, size: nat)
    requires f.Valid() && |f.contents| == |b.costs| == |b.grouped| == size && n <= |tried|
  {
    forall t :: 0 <= t < n ==> NoCutAt(f, b, tried, t, size)
  }

  ghost predicate NoCutAt(f: Frame, b: Budget, tried: seq<nat>, t: nat, size: nat)
    requires f.Valid() && |f.contents| == |b.costs| == |b.grouped| == size && t < |tried|
  {
    IsOrder(tried[..t], size) && tried[t] < size && !CutWorks(f, b, Greedy(b, tried[..t], Nothing(size)), tried[t])
  }

  /** A cut was the last acceptance: without it the selection does not fit. */
  ghost predicate CutOutcome(f: Frame, b: Budget, tried: seq<nat>, mask: Mask, cut: Cut)
    requires f.Valid() && |f.contents| == |mask| && b.Covers(mask)
  {
    && cut.CutAt? && cut.index < |mask| && cut.position < |tried| && tried[cut.position] == cut.index
    && IsOrder(tried[..cut.position], |mask|)
    && mask == Greedy(b, tried[..cut.position], Nothing(|mask|))[cut.index := true]
    && !Greedy(b, tried[..cut.position], Nothing(|mask|))[cut.index]
    && cut.limit == Remaining(f, With(f, f.contents, Greedy(b, tried[..cut.position], Nothing(|mask|)), "")) > 0
    && cut.text == TruncateHead(f.contents[cut.index], cut.limit).0 != f.contents[cut.index]
    && !Fits(b, mask)
    && Units(With(f, Kept(f.contents, cut), mask, f.suffix)) <= f.maxUnits
  }

  /** The first section that can be cut is. */
  ghost predicate CutsFirst(f: Frame, b: Budget, tried: seq<nat>, cut: Cut, size: nat) {
    && f.Valid() && |f.contents| == |b.costs| == |b.grouped| == size && (cut.CutAt? ==> cut.position <= |tried|)
    && NoCutWorks(f, b, tried, if cut.CutAt? then cut.position else |tried|, size)
  }

  ghost predicate FitLoop(f: Frame, b: Budget, tried: seq<nat>, mask: Mask, cut: Cut, current: seq<Message>) {
    && f.Valid() && b == SectionBudget(f, f.contents) && |f.contents| == |mask|
    && IsOrder(tried, |mask|)
    && (forall i :: 0 <= i < |mask| && mask[i] ==> i in tried)
    && (if cut.Uncut? then PlainOutcome(b, tried, mask) else CutOutcome(f, b, tried, mask, cut))
    && current == With(f, Kept(f.contents, cut), mask, "")
  }

  /** A section that fits next to the ones selected: only possible while nothing is cut. */
  lemma Accept(f: Frame, b: Budget, tried: seq<nat>, mask: Mask, cut: Cut, current: seq<Message>, i: nat)
    requires FitLoop(f, b, tried, mask, cut, current) && IsOrder(tried + [i], |mask|)
    requires i < |mask| && Units(With(f, f.contents, mask[i := true], f.suffix)) <= f.maxUnits
    ensures cut.Uncut?
    ensures FitLoop(f, b, tried + [i], mask[i := true], Uncut, With(f, f.contents, mask[i := true], ""))
  {
    hide Units, With, SectionBudget, Greedy, Weight, IsOrder;
    TrialWeight(f, f.contents, mask[i := true]);
    if cut.CutAt? {
      FitsBelow(b, mask, mask[i := true]);
      assert false;
    }
    GreedySnoc(b, tried, i, Nothing(|mask|));
  }

  /** A section that neither fits whole nor was cut. */
  lemma Reject(f: Frame, b: Budget, tried: seq<nat>, mask: Mask, cut: Cut, current: seq<Message>, i: nat)
    requires FitLoop(f, b, tried, mask, cut, current) && IsOrder(tried + [i], |mask|)
    requires i < |mask| && Units(With(f, f.contents, mask[i := true], f.suffix)) > f.maxUnits
    ensures FitLoop(f, b, tried + [i], mask, cut, current)
  {
    hide Units, With, SectionBudget, Greedy, Weight, IsOrder;
    TrialWeight(f, f.contents, mask[i := true]);
    if cut.Uncut? {
      GreedySnoc(b, tried, i, Nothing(|mask|));
    } else {
      assert (tried + [i])[..cut.position] == tried[..cut.position];
    }
  }

  lemma {:induction false} SumAgree(c: seq<nat>, d: seq<nat>, mask: Mask)
    requires |c| == |d| == |mask|
    requires forall i :: 0 <= i < |mask| && mask[i] ==> c[i] == d[i]
    ensures Sum(c, mask) == Sum(d, mask)
  {
    if mask != [] {
      SumAgree(c[1..], d[1..], mask[1..]);
    }
  }

  /** Cutting a section outside the selection does not make the selection lighter. */
  lemma CutElsewhere(f: Frame, mask: Mask, i: nat, text: string)
    requires f.Valid() && |f.contents| == |mask| && i < |mask| && !mask[i]
    requires !Fits(SectionBudget(f, f.contents), mask)
    ensures Units(With(f, f.contents[i := text], mask[i := true], f.suffix)) > f.maxUnits
  {
    hide Units, With, EscapedLen;
    var cutted := f.contents[i := text];
    TrialWeight(f, cutted, mask[i := true]);
    SumAgree(SectionCosts(f.contents), SectionCosts(cutted), mask);
    WeightMonotone(SectionBudget(f, cutted), mask, mask[i := true]);
  }

  /** A section accepted in a cut form: only possible while nothing is cut. */
  lemma AcceptCut(
    f: Frame, b: Budget, tried: seq<nat>, mask: Mask, cut: Cut, current: seq<Message>, i: nat, limit: nat, text: string)
    requires FitLoop(f, b, tried, mask, cut, current) && IsOrder(tried + [i], |mask|) && i !in tried
    requires i < |mask| && Units(With(f, f.contents, mask[i := true], f.suffix)) > f.maxUnits
    requires limit == Remaining(f, current) > 0 && text == TruncateHead(f.contents[i], limit).0 != f.contents[i]
    requires Units(With(f, f.contents[i := text], mask[i := true], f.suffix)) <= f.maxUnits
    ensures cut.Uncut?
    ensures FitLoop(f, b, tried + [i], mask[i := true], CutAt(|tried|, i, limit, text),
                    With(f, f.contents[i := text], mask[i := true], ""))
  {
    hide Units, With, SectionBudget, Greedy, Weight, IsOrder, TruncateHead, Remaining;
    TrialWeight(f, f.contents, mask[i := true]);
    if cut.CutAt? {
      CutElsewhere(f, mask, i, text);
      assert false;
    }
    assert (tried + [i])[..|tried|] == tried;
  }

  lemma NoCutLater(f: Frame, b: Budget, tried: seq<nat>, i: nat, n: nat, size: nat)
    requires f.Valid() && |f.contents| == |b.costs| == |b.grouped| == size && n <= |tried|
    requires NoCutWorks(f, b, tried, n, size)
    ensures NoCutWorks(f, b, tried + [i], n, size)
  {
    hide CutWorks, IsOrder;
    forall t | 0 <= t < n ensures NoCutAt(f, b, tried + [i], t, size) {
      assert (tried + [i])[..t] == tried[..t] && (tried + [i])[t] == tried[t];
      assert NoCutAt(f, b, tried, t, size);
    }
  }

  /** While nothing is cut: one more section that fits whole, or that can not be cut either. */
  lemma StillNoCut(f: Frame, b: Budget, tried: seq<nat>, mask: Mask, current: seq<Message>, i: nat)
    requires FitLoop(f, b, tried, mask, Uncut, current) && CutsFirst(f, b, tried, Uncut, |mask|) && i < |mask|
    requires var limit := Remaining(f, current); var text := TruncateHead(f.contents[i], limit).0;
             || Units(With(f, f.contents, mask[i := true], f.suffix)) <= f.maxUnits
             || limit == 0 || text == f.contents[i]
             || Units(With(f, f.contents[i := text], mask[i := true], f.suffix)) > f.maxUnits
    ensures CutsFirst(f, b, tried + [i], Uncut, |mask|)
  {
    hide Units, With, SectionBudget, Greedy, Weight, IsOrder, TruncateHead, Remaining, NoCutWorks;
    TrialWeight(f, f.contents, mask[i := true]);
    NoCutLater(f, b, tried, i, |tried|, |mask|);
    assert (tried + [i])[..|tried|] == tried;
    assert NoCutAt(f, b, tried + [i], |tried|, |mask|);
    OneMore(f, b, tried + [i], |tried|, |mask|);
  }

  lemma OneMore(f: Frame, b: Budget, tried: seq<nat>, n: nat, size: nat)
    requires f.Valid() && |f.contents| == |b.costs| == |b.grouped| == size && n < |tried|
    requires NoCutWorks(f, b, tried, n, size) && NoCutAt(f, b, tried, n, size)
    ensures NoCutWorks(f, b, tried, n + 1, size)
  {
    hide NoCutAt;
    forall t | 0 <= t < n + 1 ensures NoCutAt(f, b, tried, t, size) {
    }
  }

  /** A cut made now, or one that was made before, stays the first. */
  lemma CutStaysFirst(f: Frame, b: Budget, tried: seq<nat>, cut: Cut, cut': Cut, i: nat, size: nat)
    requires CutsFirst(f, b, tried, cut, size) && cut'.CutAt?
    requires if cut.CutAt? then cut' == cut else cut'.position == |tried|
    ensures CutsFirst(f, b, tried + [i], cut', size)
  {
    hide NoCutWorks;
    NoCutLater(f, b, tried, i, cut'.position, size);
  }

  lemma Begin(f: Frame)
    requires f.Valid()
    ensures CutsFirst(f, SectionBudget(f, f.contents), [], Uncut, |f.contents|)
    ensures FitLoop(f, SectionBudget(f, f.contents), [], Nothing(|f.contents|), Uncut,
              With(f, f.contents, Nothing(|f.contents|), ""))
  {
  }

  lemma TriedNext(order: seq<nat>, contents: seq<string>, k: nat)
    requires k < |order| && IsOrder(order, |contents|) && contents[order[k]] != ""
    ensures Tried(order, contents, k + 1) == Tried(order, contents, k) + [order[k]]
    ensures IsOrder(Tried(order, contents, k), |contents|)
    ensures IsOrder(Tried(order, contents, k) + [order[k]], |contents|)
    ensures order[k] !in Tried(order, contents, k)
  {
    TriedIsOrder(order, contents, k);
    TriedIsOrder(order, contents, k + 1);
  }

  /**
   The loop over the selection order. `current` is the envelope without its suffix;
   every trial is rebuilt from the whole sections.
   */
  method SelectSections(f: Frame, order: seq<nat>, truncate: bool)
    returns (mask: Mask, current: seq<Message>, ghost cut: Cut)
    requires f.Valid() && IsOrder(order, |f.contents|)
    ensures FitLoop(f, SectionBudget(f, f.contents), Tried(order, f.contents, |order|), mask, cut, current)
    ensures !truncate ==> cut.Uncut?
    ensures truncate ==> CutsFirst(f, SectionBudget(f, f.contents), Tried(order, f.contents, |order|), cut,
              |f.contents|)
    ensures !truncate ==> PlainOutcome(SectionBudget(f, f.contents), Tried(order, f.contents, |order|), mask)
    ensures !truncate ==> |mask| == |f.contents| && current == With(f, f.contents, mask, "")
  {
    hide Units, With, SectionBudget, PlainOutcome, CutOutcome, FitLoop, CutsFirst, TruncateHead, Remaining, Tried,
         IsOrder;
    ghost var b := SectionBudget(f, f.contents);
    mask, cut := Nothing(|f.contents|), Uncut;
    current := With(f, f.contents, mask, "");
    Begin(f);
    TriedNone(order, f.contents);
    var k := 0;
    while k < |order|
      invariant k <= |order| && |mask| == |f.contents|
      invariant FitLoop(f, b, Tried(order, f.contents, k), mask, cut, current)
      invariant !truncate ==> cut.Uncut?
      invariant truncate ==> CutsFirst(f, b, Tried(order, f.contents, k), cut, |mask|)
    {
      OrderTail(order, |f.contents|, k);
      var i := order[k];
      if f.contents[i] != "" {
        ghost var tried := Tried(order, f.contents, k);
        TriedNext(order, f.contents, k);
        var trial := mask[i := true];
        if Units(With(f, f.contents, trial, f.suffix)) <= f.maxUnits {
          Accept(f, b, tried, mask, cut, current, i);
          if truncate {
            StillNoCut(f, b, tried, mask, current, i);
          }
          mask, current := trial, With(f, f.contents, trial, "");
        } else {
          Reject(f, b, tried, mask, cut, current, i);
          var limit := Remaining(f, current);
          var text := TruncateHead(f.contents[i], limit).0;
          if truncate && limit > 0 && text != f.contents[i]
              && Units(With(f, f.contents[i := text], trial, f.suffix)) <= f.maxUnits {
            AcceptCut(f, b, tried, mask, cut, current, i, limit, text);
            CutStaysFirst(f, b, tried, cut, CutAt(|tried|, i, limit, text), i, |mask|);
            mask, current := trial, With(f, f.contents[i := text], trial, "");
            cut := CutAt(|tried|, i, limit, text);
          } else if truncate {
            if cut.Uncut? {
              StillNoCut(f, b, tried, mask, current, i);
            } else {
              CutStaysFirst(f, b, tried, cut, cut, i, |mask|);
            }
          }
        }
      } else {
        TriedSkip(order, f.contents, k);
      }
      k := k + 1;
    }
    Unpack(f, b, Tried(order, f.contents, |order|), mask, cut, current);
  }

  lemma TriedNone(order: seq<nat>, contents: seq<string>)
    requires IsOrder(order, |contents|)
    ensures Tried(order, contents, 0) == []
  {
  }

  lemma TriedSkip(order: seq<nat>, contents: seq<string>, k: nat)
    requires k < |order| && IsOrder(order, |contents|) && contents[order[k]] == ""
    ensures Tried(order, contents, k + 1) == Tried(order, contents, k)
  {
  }

  // ----- the whole operation

  function Contents(components: seq<Component>): (r: seq<string>)
    ensures |r| == |components|
  {
    seq(|components|, i requires 0 <= i < |components| => components[i].content)
  }

  function Chosen(mask: Mask): set<nat> {
    set i: nat | i < |mask| && mask[i]
  }

  function Identity(n: nat): (order: seq<nat>)
    ensures |order| == n && IsOrder(order, n) && forall i :: 0 <= i < n ==> order[i] == i
  {
    seq(n, i => i)
  }

  datatype FitRequest = FitRequest(
    messages: seq<Message>, components: seq<Component>, maxUnits: int, truncate: bool,
    suffix: string, priority: Option<seq<int>>)
  {
    function Payload(): string {
      if suffix != "" then "\n\n" + suffix else ""
    }

    function At(): nat {
      SystemIndex(messages)
    }

    function Base(): Frame {
      Frame(messages, At(), maxUnits, Payload(), Contents(components))
    }

    predicate BadPriority() {
      priority.Some? && !ValidPriority(priority.value, |components|)
    }

    /** The sections in the order in which they are tried. */
    function Order(): (order: seq<nat>)
      requires !BadPriority()
      ensures IsOrder(order, |components|) && |order| == |components|
      ensures forall i :: 0 <= i < |order| ==> order[i] == if priority.Some? then priority.value[i] else i
    {
      if priority.Some? then priority.value else Identity(|components|)
    }

    function Appended(ms: seq<Message>): seq<Message>
      requires At() < |ms|
    {
      ms[At() := Message("system", ms[At()].content + Payload())]
    }

    /** When and how a request fails: never because of an optional section. */
    function Refusal(): Option<EnvelopeError> {
      var mandatory := Validate(messages, maxUnits);
      if mandatory.Some? then mandatory
      else if components == [] && suffix == "" then None
      else if At() == |messages| then Some(NoSystemMessage)
      else if components != [] && BadPriority() then Some(InvalidPriority)
      else if Units(Appended(messages)) > maxUnits then Some(BudgetExceeded)
      else None
    }

    /** What a success looks like: header, kept sections in visual order, suffix; nothing else changes. */
    ghost predicate Success(r: FitResult, mask: Mask, cut: Cut)
      requires Refusal().None?
    {
      && r.Fitted? && Units(r.messages) <= maxUnits
      && r.selected == Chosen(mask) && |mask| == |components|
      && (r.pruned <==> exists i :: 0 <= i < |mask| && !mask[i])
      && if components == [] then r.messages == if suffix == "" then messages else Appended(messages)
         else
           && Base().Valid() && !BadPriority()
           && (cut.CutAt? ==> cut.index < |mask| && truncate)
           && r.messages == With(Base(), Kept(Contents(components), cut), mask, Payload())
           && var b := SectionBudget(Base(), Contents(components));
              var tried := Tried(Order(), Contents(components), |components|);
              && (if cut.Uncut? then PlainOutcome(b, tried, mask) else CutOutcome(Base(), b, tried, mask, cut))
              && (truncate ==> CutsFirst(Base(), b, tried, cut, |mask|))
    }
  }

  lemma {:induction false} SystemIndexKept(ms: seq<Message>, content: string)
    requires SystemIndex(ms) < |ms|
    ensures SystemIndex(ms[SystemIndex(ms) := Message("system", content)]) == SystemIndex(ms)
  {
    if ms[0].role != "system" {
      SystemIndexKept(ms[1..], content);
      assert ms[SystemIndex(ms) := Message("system", content)][1..] ==
               ms[1..][SystemIndex(ms[1..]) := Message("system", content)];
    }
  }

  lemma {:induction false} ChosenCount(mask: Mask)
    ensures |Chosen(mask)| <= |mask|
    ensures |Chosen(mask)| < |mask| <==> exists i :: 0 <= i < |mask| && !mask[i]
  {
    if mask != [] {
      var n := |mask| - 1;
      ChosenCount(mask[..n]);
      assert Chosen(mask) == Chosen(mask[..n]) + if mask[n] then {n} else {};
      assert n !in Chosen(mask[..n]);
      assert mask == mask[..n] + [mask[n]];
    }
  }

  /** Without room for the suffix no selection, whole or cut, fits. */
  lemma NothingFitsAbove(f: Frame, contents: seq<string>, mask: Mask)
    requires f.Valid() && |contents| == |mask|
    requires Units(With(f, contents, mask, f.suffix)) <= f.maxUnits
    ensures Units(f.messages[f.at := Message("system", f.messages[f.at].content + f.suffix)]) <= f.maxUnits
  {
    hide Units, With, Sum;
    TrialWeight(f, contents, mask);
  }

  /** The outcome of the loop fits, once its suffix is back, exactly when the mandatory part does. */
  lemma OutcomeWeight(f: Frame, b: Budget, tried: seq<nat>, mask: Mask, cut: Cut, current: seq<Message>)
    requires FitLoop(f, b, tried, mask, cut, current)
    ensures f.Valid() && |f.contents| == |mask| && (cut.CutAt? ==> cut.index < |mask|)
    ensures f.at < |current| && current[f.at := Message("system", current[f.at].content + f.suffix)]
                                == With(f, Kept(f.contents, cut), mask, f.suffix)
    ensures Units(With(f, Kept(f.contents, cut), mask, f.suffix)) <= f.maxUnits
       <==> Units(f.messages[f.at := Message("system", f.messages[f.at].content + f.suffix)]) <= f.maxUnits
  {
    hide Units, Sum, Greedy, IsOrder, Body, TruncateHead, Remaining;
    if cut.Uncut? {
      TrialWeight(f, f.contents, mask);
      if b.base <= f.maxUnits {
        NothingWeighs(b, |mask|);
        GreedyFits(b, tried, Nothing(|mask|));
      }
    } else {
      NothingFitsAbove(f, Kept(f.contents, cut), mask);
    }
    assert With(f, Kept(f.contents, cut), mask, "")[f.at].content + f.suffix
        == f.messages[f.at].content + Body(Kept(f.contents, cut), mask) + f.suffix;
  }

  lemma NothingWeighs(b: Budget, n: nat)
    requires |b.costs| == |b.grouped| == n
    ensures Weight(b, Nothing(n)) == b.base
  {
    SumNothing(b.costs, Nothing(n));
  }

  lemma {:induction false} SumNothing(costs: seq<nat>, mask: Mask)
    requires |costs| == |mask| && forall i :: 0 <= i < |mask| ==> !mask[i]
    ensures Sum(costs, mask) == 0
  {
    if mask != [] {
      SumNothing(costs[1..], mask[1..]);
    }
  }

  /** Roles are not touched, so validating an envelope again is a matter of its size. */
  lemma StillValid(ms: seq<Message>, maxUnits: int, at: nat, content: string)
    requires Validate(ms, maxUnits) == None && at < |ms| && ms[at].role == "system"
    ensures var r := ms[at := Message("system", content)];
            Validate(r, maxUnits) == if Units(r) > maxUnits then Some(BudgetExceeded) else None
  {
    hide Units;
    var r := ms[at := Message("system", content)];
    forall i | 0 <= i < |r| ensures ValidRole(r[i].role) {
      assert i != at ==> r[i] == ms[i];
    }
  }

  method AppendToSystem(ms: seq<Message>, payload: string) returns (r: Option<seq<Message>>)
    ensures SystemIndex(ms) == |ms| ==> r == None
    ensures SystemIndex(ms) < |ms| ==>
      r == Some(ms[SystemIndex(ms) := Message("system", ms[SystemIndex(ms)].content + payload)])
  {
    var i := 0;
    while i < |ms|
      invariant i <= |ms| && forall j :: 0 <= j < i ==> ms[j].role != "system"
    {
      if ms[i].role == "system" {
        return Some(ms[i := Message("system", ms[i].content + payload)]);
      }
      i := i + 1;
    }
    return None;
  }

  /** Fails exactly as `Refusal` says, and otherwise returns an envelope as `Success` says. */
  method FitOptionalContext(q: FitRequest) returns (r: FitResult, ghost mask: Mask, ghost cut: Cut)
    ensures r.Failed? <==> q.Refusal().Some?
    ensures r.Failed? ==> r.error == q.Refusal().value
    ensures r.Fitted? ==> q.Refusal().None? && q.Success(r, mask, cut)
  {
    hide Units, FitLoop, PlainOutcome, CutOutcome, CutsFirst, Tried, ValidPriority;
    mask, cut := Nothing(|q.components|), Uncut;
    var invalid := Validate(q.messages, q.maxUnits);
    if invalid.Some? {
      return Failed(invalid.value), mask, cut;
    }
    if q.components == [] && q.suffix == "" {
      return Fitted(q.messages, {}, false), mask, cut;
    }
    var f := q.Base();
    if f.at == |q.messages| {
      return Failed(NoSystemMessage), mask, cut;
    }
    if q.components != [] && q.BadPriority() {
      return Failed(InvalidPriority), mask, cut;
    }
    if q.components == [] {
      var appended := AppendToSystem(q.messages, q.Payload());
      StillValid(q.messages, q.maxUnits, f.at, q.messages[f.at].content + q.Payload());
      var refused := Validate(appended.value, q.maxUnits);
      if refused.Some? {
        return Failed(refused.value), mask, cut;
      }
      return Fitted(appended.value, {}, false), mask, cut;
    }
    r, mask, cut := FitSections(q);
  }

  /** The part that has sections to select from. */
  method FitSections(q: FitRequest) returns (r: FitResult, ghost mask: Mask, ghost cut: Cut)
    requires Validate(q.messages, q.maxUnits) == None && q.components != []
    requires q.At() < |q.messages| && !q.BadPriority()
    ensures r.Failed? <==> q.Refusal().Some?
    ensures r.Failed? ==> r.error == q.Refusal().value
    ensures r.Fitted? ==> q.Refusal().None? && q.Success(r, mask, cut)
  {
    hide Units, FitLoop, PlainOutcome, CutOutcome, CutsFirst, Tried, ValidPriority, Body, SectionBudget,
         FitRequest.Success, FitRequest.BadPriority;
    var f := q.Base();
    var chosen, current;
    chosen, current, cut := SelectSections(f, q.Order(), q.truncate);
    mask := chosen;
    ghost var b, tried := SectionBudget(f, f.contents), Tried(q.Order(), f.contents, |q.Order()|);
    OutcomeWeight(f, b, tried, mask, cut, current);
    Unpack(f, b, tried, mask, cut, current);
    if q.suffix != "" {
      SystemIndexKept(q.messages, current[f.at].content);
      StillValid(q.messages, q.maxUnits, f.at, current[f.at].content + q.Payload());
      var appended := AppendToSystem(current, q.Payload());
      assert appended == Some(With(f, Kept(f.contents, cut), mask, f.suffix));
      var refused := Validate(appended.value, q.maxUnits);
      if refused.Some? {
        return Failed(refused.value), mask, cut;
      }
      current := appended.value;
    } else {
      assert q.messages[f.at].content + "" == q.messages[f.at].content;
      assert q.Appended(q.messages) == q.messages;
    }
    r := Fitted(current, Chosen(chosen), |Chosen(chosen)| < |q.components|);
    Succeeds(q, r, mask, cut);
  }

  lemma Succeeds(q: FitRequest, r: FitResult, mask: Mask, cut: Cut)
    requires q.Refusal() == None && q.components != [] && |mask| == |q.components|
    requires q.At() < |q.messages| && !q.BadPriority()
    requires r.Fitted? && r.selected == Chosen(mask) && r.pruned == (|Chosen(mask)| < |mask|)
    requires cut.CutAt? ==> cut.index < |mask| && q.truncate
    requires r.messages == With(q.Base(), Kept(Contents(q.components), cut), mask, q.Payload())
    requires Units(r.messages) <= q.maxUnits
    requires var b, tried := SectionBudget(q.Base(), Contents(q.components)),
               Tried(q.Order(), Contents(q.components), |q.components|);
             && (if cut.Uncut? then PlainOutcome(b, tried, mask) else CutOutcome(q.Base(), b, tried, mask, cut))
             && (q.truncate ==> CutsFirst(q.Base(), b, tried, cut, |mask|))
    ensures q.Success(r, mask, cut)
  {
    hide Units, PlainOutcome, CutOutcome, CutsFirst, Tried, FitRequest.BadPriority, FitRequest.Refusal, Body, With,
         SectionBudget;
    ChosenCount(mask);
  }

  lemma Unpack(f: Frame, b: Budget, tried: seq<nat>, mask: Mask, cut: Cut, current: seq<Message>)
    requires FitLoop(f, b, tried, mask, cut, current)
    ensures |mask| == |f.contents| == |b.costs| == |b.grouped|
    ensures if cut.Uncut? then PlainOutcome(b, tried, mask) else CutOutcome(f, b, tried, mask, cut)
    ensures current == With(f, Kept(f.contents, cut), mask, "")
  {
    hide PlainOutcome, CutOutcome;
  }
}
