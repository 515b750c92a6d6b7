/**
 `build_envelope`: which history messages and context items go into the provider
 envelope, and in which order. The method runs the source's loops, measuring a trial
 envelope for every candidate; it is proved against `Build.Expected`, which names the
 outcome through the greedy mask of module `Selection`. The theorems about that outcome
 are in `EnvelopeTheorems`.
 */
module TrustedContext {
  import opened JsonSize
  import opened HistoryOrder
  import opened Selection
  import opened Sequences
  import opened ContextEnvelope

  // ----- priorities

  /** History, newest first: the source walks the reversed tuple. */
  function NewestFirst(h: nat): (order: seq<nat>)
    ensures |order| == h && forall i :: 0 <= i < h ==> order[i] == h - 1 - i
  {
    seq(h, i requires 0 <= i < h => h - 1 - i)
  }

  /** Context items after all history, in collection order. */
  function ItemOrder(h: nat, k: nat): (order: seq<nat>)
    ensures |order| == k && forall i :: 0 <= i < k ==> order[i] == h + i
  {
    seq(k, i requires 0 <= i < k => h + i)
  }

  /** All history before any item. */
  function Priority(h: nat, k: nat): (order: seq<nat>)
    ensures IsOrder(order, h + k) && |order| == h + k
    ensures forall j :: 0 <= j < h + k ==> order[j] == if j < h then h - 1 - j else j
  {
    NewestFirst(h) + ItemOrder(h, k)
  }

  function PriorityChoice(b: Budget, h: nat, k: nat): (mask: Mask)
    requires |b.costs| == |b.grouped| == h + k
    ensures |mask| == h + k
  {
    Greedy(b, Priority(h, k), Nothing(h + k))
  }

  /** Two loops, one after the other, try the candidates in priority order. */
  lemma LoopsAreChoice(b: Budget, h: nat, k: nat, start: Mask)
    requires |b.costs| == |b.grouped| == h + k
    requires start == Greedy(b, NewestFirst(h), Nothing(h + k))
    ensures Greedy(b, ItemOrder(h, k), start) == PriorityChoice(b, h, k)
    ensures forall i :: h <= i < |start| ==> !start[i]
    ensures PriorityChoice(b, h, k)[..h] == start[..h]
  {
    hide Fits, Greedy;
    GreedyConcat(b, NewestFirst(h), ItemOrder(h, k), Nothing(h + k));
    forall i | h <= i < |start| ensures !start[i] {
      GreedyUntouched(b, NewestFirst(h), Nothing(h + k), i);
    }
    forall i | 0 <= i < h ensures PriorityChoice(b, h, k)[i] == start[i] {
      GreedyUntouched(b, ItemOrder(h, k), start, i);
    }
  }

  // ----- counting

  function CountKind(items: seq<ContextItem>, kind: Kind): nat {
    if items == [] then 0
    else CountKind(items[1..], kind) + if items[0].kind == kind then 1 else 0
  }

  /** Candidates of collection `kind` among the first `j` that were not chosen. */
  function Unchosen(labels: seq<Kind>, mask: Mask, kind: Kind, j: nat): nat
    requires |labels| == |mask| && j <= |labels|
  {
    if j == 0 then 0
    else Unchosen(labels, mask, kind, j - 1) + if labels[j - 1] == kind && !mask[j - 1] then 1 else 0
  }

  function SourceId(item: ContextItem): string {
    if item.ApprovedMemory() || item.internalId != "" then item.internalId else item.sourceId
  }

  function SourceMap(items: seq<ContextItem>): map<string, string> {
    if items == [] then map[]
    else
      var n := |items| - 1;
      SourceMap(items[..n])[items[n].sourceId := SourceId(items[n])]
  }

  predicate IdsPresent(items: seq<ContextItem>) {
    forall i :: 0 <= i < |items| ==> items[i].ApprovedMemory() ==> items[i].internalId != ""
  }

  function CodesFor(omitted: Counts): seq<Code> {
    (if omitted.history > 0 then [HistoryPartial] else []) +
    (if omitted.memory > 0 then [MemoryOmitted] else []) +
    (if omitted.profile > 0 then [ProfileOmitted] else []) +
    (if omitted.persona > 0 then [PersonaOmitted] else [])
  }

  // ----- the selection

  /** What one call selects from; `labels` names the collection each item comes from. */
  datatype Candidates = Candidates(
    system: string, history: seq<ChatMessage>, items: seq<ContextItem>, labels: seq<Kind>,
    user: string, maxUnits: int)
  {
    ghost predicate Valid() {
      |labels| == |items|
    }

    function Size(): nat {
      |history| + |items|
    }

    function Budget(): (b: Budget)
      ensures |b.costs| == |b.grouped| == Size()
    {
      EnvelopeBudget(system, history, items, user, maxUnits)
    }

    /** The outcome of trying every candidate in priority order. */
    function Choice(): (mask: Mask)
      ensures |mask| == Size()
    {
      PriorityChoice(Budget(), |history|, |items|)
    }

    predicate AllHistoryFits() {
      Units(Envelope(system, [], history, user)) <= maxUnits
    }

    /** The chosen messages as the source holds them: in bundle order if all fit, else newest first. */
    function ChosenHistory(mask: Mask): seq<ChatMessage>
      requires |mask| == Size()
    {
      if AllHistoryFits() then history else Reverse(Select(history, mask[..|history|]))
    }

    function ChosenItems(mask: Mask): seq<ContextItem>
      requires |mask| == Size()
    {
      Select(items, mask[|history|..])
    }

    function Omitted(mask: Mask, kind: Kind): nat
      requires |mask| == Size() && |labels| == |items|
    {
      Unchosen(labels, mask[|history|..], kind, |items|)
    }
  }

  /** `b` predicts the size of every envelope made from these candidates. */
  ghost predicate Measures(b: Budget, c: Candidates): (holds: bool)
    ensures holds ==> |b.costs| == |b.grouped| == c.Size()
  {
    && |b.costs| == |b.grouped| == c.Size()
    && forall mask: Mask, arranged: seq<ChatMessage> {:trigger Envelope(c.system,
        Select(c.items, mask[|c.history|..]), arranged, c.user)} ::
      |mask| == c.Size() && multiset(arranged) == multiset(Select(c.history, mask[..|c.history|]))
      ==> (Units(Envelope(c.system, Select(c.items, mask[|c.history|..]), arranged, c.user)) <= c.maxUnits <==>
          Fits(b, mask))
  }

  lemma BudgetMeasures(c: Candidates)
    ensures Measures(c.Budget(), c)
  {
    hide Units, Envelope, Weight;
    forall mask: Mask, arranged: seq<ChatMessage> |
      |mask| == c.Size() && multiset(arranged) == multiset(Select(c.history, mask[..|c.history|]))
      ensures Units(Envelope(c.system, Select(c.items, mask[|c.history|..]), arranged, c.user)) <= c.maxUnits <==>
                Fits(c.Budget(), mask)
    {
      EnvelopeWeight(c.system, c.history, c.items, c.user, c.maxUnits, mask, arranged);
    }
  }

  lemma HistoryTrialFits(c: Candidates, b: Budget, mask: Mask, chosen: seq<ChatMessage>)
    requires Measures(b, c) && |mask| == c.Size()
    requires forall i :: |c.history| <= i < |mask| ==> !mask[i]
    requires multiset(chosen) == multiset(Select(c.history, mask[..|c.history|]))
    ensures Units(Envelope(c.system, [], SortByKey(chosen), c.user)) <= c.maxUnits <==> Fits(b, mask)
    ensures Units(Envelope(c.system, [], chosen, c.user)) <= c.maxUnits <==> Fits(b, mask)
  {
    hide Units, Envelope, Fits;
    SelectNone(c.items, mask[|c.history|..]);
    SortPermutes(chosen);
  }

  /** The state of the newest-first loop after `k` messages. */
  ghost predicate HistoryLoop(c: Candidates, b: Budget, k: nat, selected: seq<ChatMessage>, omitted: nat, mask: Mask) {
    var h := |c.history|;
    && Measures(b, c) && k <= h && |mask| == c.Size()
    && GreedyAt(b, NewestFirst(h), Nothing(c.Size()), k, mask)
    && (forall i :: 0 <= i < |mask| && (i < h - k || i >= h) ==> !mask[i])
    && selected == Reverse(Select(c.history, mask[..h]))
    && omitted + |selected| == k
  }

  lemma HistoryStart(c: Candidates, b: Budget)
    requires Measures(b, c)
    ensures HistoryLoop(c, b, 0, [], 0, Nothing(c.Size()))
  {
    hide Fits, Measures, GreedyAt;
    NothingSelected(c.history, Nothing(c.Size()));
    GreedyBegins(b, NewestFirst(|c.history|), Nothing(c.Size()));
  }

  lemma HistoryStep(c: Candidates, b: Budget, k: nat, selected: seq<ChatMessage>, omitted: nat, mask: Mask)
      returns (trial: Mask)
    requires k < |c.history| && HistoryLoop(c, b, k, selected, omitted, mask)
    ensures var test := selected + [c.history[|c.history| - 1 - k]];
            if Units(Envelope(c.system, [], SortByKey(test), c.user)) <= c.maxUnits
            then HistoryLoop(c, b, k + 1, test, omitted, trial)
            else HistoryLoop(c, b, k + 1, selected, omitted + 1, mask)
  {
    hide Units, Envelope, Fits, Reverse, SortByKey, Select, Measures, GreedyAt;
    var i := |c.history| - 1 - k;
    trial := mask[i := true];
    GreedyStep(b, NewestFirst(|c.history|), Nothing(c.Size()), k, mask);
    AddOlder(c.history, mask, i);
    HistoryTrialFits(c, b, trial, selected + [c.history[i]]);
  }

  lemma HistoryEnd(c: Candidates, b: Budget, selected: seq<ChatMessage>, omitted: nat, mask: Mask)
    requires HistoryLoop(c, b, |c.history|, selected, omitted, mask)
    ensures |mask| == c.Size()
    ensures mask == Greedy(b, NewestFirst(|c.history|), Nothing(c.Size()))
    ensures selected == Reverse(Select(c.history, mask[..|c.history|]))
    ensures multiset(selected) == multiset(Select(c.history, mask[..|c.history|]))
    ensures omitted == |c.history| - |selected|
  {
    hide Reverse, Select, Measures, GreedyAt;
    GreedyEnds(b, NewestFirst(|c.history|), Nothing(c.Size()), mask);
    ReversePermutes(Select(c.history, mask[..|c.history|]));
  }

  method SelectHistory(c: Candidates, ghost b: Budget)
    returns (selected: seq<ChatMessage>, omitted: nat, ghost mask: Mask)
    requires Measures(b, c)
    ensures mask == Greedy(b, NewestFirst(|c.history|), Nothing(c.Size()))
    ensures multiset(selected) == multiset(Select(c.history, mask[..|c.history|]))
    ensures selected == c.ChosenHistory(mask)
    ensures omitted == |c.history| - |selected|
  {
    hide Units, Envelope, Reverse, SortByKey, Select, Greedy, Measures, HistoryLoop;
    selected, omitted := [], 0;
    if Units(Envelope(c.system, [], c.history, c.user)) <= c.maxUnits {
      selected := c.history;
      mask := AllHistoryMask(c, b);
    } else {
      mask := Nothing(c.Size());
      HistoryStart(c, b);
      for k := 0 to |c.history|
        invariant HistoryLoop(c, b, k, selected, omitted, mask)
      {
        var test := selected + [c.history[|c.history| - 1 - k]];
        ghost var trial := HistoryStep(c, b, k, selected, omitted, mask);
        if Units(Envelope(c.system, [], SortByKey(test), c.user)) <= c.maxUnits {
          selected, mask := test, trial;
        } else {
          omitted := omitted + 1;
        }
      }
      HistoryEnd(c, b, selected, omitted, mask);
    }
  }

  lemma NothingSelected(history: seq<ChatMessage>, mask: Mask)
    requires |history| <= |mask| && forall i :: 0 <= i < |mask| ==> !mask[i]
    ensures Reverse(Select(history, mask[..|history|])) == []
  {
    SelectNone(history, mask[..|history|]);
  }

  /** Choosing the next older message appends it to the newest-first list. */
  lemma AddOlder(history: seq<ChatMessage>, mask: Mask, i: nat)
    requires i < |history| <= |mask|
    requires forall j :: 0 <= j <= i ==> !mask[j]
    ensures var grown := Reverse(Select(history, mask[..|history|])) + [history[i]];
            && Reverse(Select(history, mask[i := true][..|history|])) == grown
            && multiset(grown) == multiset(Select(history, mask[i := true][..|history|]))
  {
    var p := mask[..|history|];
    assert mask[i := true][..|history|] == p[i := true];
    SelectInFront(history, p, i);
    var s := Select(history, p);
    assert ([history[i]] + s)[1..] == s;
    ReversePermutes([history[i]] + s);
  }

  /** The "all history fits" shortcut takes what the newest-first loop would take. */
  lemma AllHistoryMask(c: Candidates, b: Budget) returns (mask: Mask)
    requires Measures(b, c) && c.AllHistoryFits()
    ensures mask == Greedy(b, NewestFirst(|c.history|), Nothing(c.Size()))
    ensures Select(c.history, mask[..|c.history|]) == c.history
  {
    hide Units, Envelope, Fits;
    var h, n := |c.history|, c.Size();
    mask := seq(n, i => i < h);
    SelectEverything(c.history, mask[..h]);
    HistoryTrialFits(c, b, mask, c.history);
    forall i | 0 <= i < h ensures i in NewestFirst(h) {
      assert NewestFirst(h)[h - 1 - i] == i;
    }
    GreedyTakesAll(b, NewestFirst(h), Nothing(n), mask);
  }

  /** The state of the item loop after `k` items. */
  ghost predicate ItemLoop(c: Candidates, b: Budget, start: Mask, k: nat, selected: seq<ContextItem>, omitted: Counts,
      mask: Mask) {
    var h := |c.history|;
    && c.Valid() && Measures(b, c) && k <= |c.items| && |mask| == |start| == c.Size()
    && GreedyAt(b, ItemOrder(h, |c.items|), start, k, mask)
    && mask[..h] == start[..h]
    && (forall i :: h + k <= i < |mask| ==> !mask[i])
    && selected == Select(c.items, mask[h..])
    && CountsMatch(c.labels, mask[h..], k, omitted)
  }

  ghost predicate CountsMatch(labels: seq<Kind>, bits: Mask, k: nat, omitted: Counts) {
    |labels| == |bits| && k <= |bits| && forall kind :: omitted.Of(kind) == Unchosen(labels, bits, kind, k)
  }

  lemma CountStep(labels: seq<Kind>, bits: Mask, k: nat, omitted: Counts)
    requires CountsMatch(labels, bits, k, omitted) && k < |bits| && !bits[k]
    ensures CountsMatch(labels, bits, k + 1, Reject(omitted, labels[k]))
    ensures CountsMatch(labels, bits[k := true], k + 1, omitted)
  {
    UnchosenLocal(labels, bits, bits[k := true], k);
    forall kind ensures Reject(omitted, labels[k]).Of(kind) == Unchosen(labels, bits, kind, k + 1) {
      assert omitted.Of(kind) == Unchosen(labels, bits, kind, k);
    }
    forall kind ensures omitted.Of(kind) == Unchosen(labels, bits[k := true], kind, k + 1) {
      assert omitted.Of(kind) == Unchosen(labels, bits, kind, k);
    }
  }

  lemma ItemStart(c: Candidates, b: Budget, start: Mask)
    requires c.Valid() && Measures(b, c) && |start| == c.Size()
    requires forall i :: |c.history| <= i < |start| ==> !start[i]
    ensures ItemLoop(c, b, start, 0, [], Counts(0, 0, 0, 0), start)
  {
    hide Fits, Measures, GreedyAt;
    SelectNone(c.items, start[|c.history|..]);
    GreedyBegins(b, ItemOrder(|c.history|, |c.items|), start);
  }

  /** One more rejected candidate of collection `kind`. */
  function Reject(omitted: Counts, kind: Kind): Counts {
    match kind
    case Memory => omitted.(memory := omitted.memory + 1)
    case Profile => omitted.(profile := omitted.profile + 1)
    case Persona => omitted.(persona := omitted.persona + 1)
  }

  lemma ItemStep(
    c: Candidates, b: Budget, start: Mask, sorted: seq<ChatMessage>,
    k: nat, selected: seq<ContextItem>, omitted: Counts, mask: Mask) returns (trial: Mask)
    requires k < |c.items| && ItemLoop(c, b, start, k, selected, omitted, mask)
    requires multiset(sorted) == multiset(Select(c.history, start[..|c.history|]))
    ensures if Units(Envelope(c.system, selected + [c.items[k]], sorted, c.user)) <= c.maxUnits
            then ItemLoop(c, b, start, k + 1, selected + [c.items[k]], omitted, trial)
            else ItemLoop(c, b, start, k + 1, selected, Reject(omitted, c.labels[k]), mask)
  {
    hide Units, Envelope, Fits, SortByKey, Select, Measures, GreedyAt, CountsMatch;
    trial := mask[|c.history| + k := true];
    GreedyStep(b, ItemOrder(|c.history|, |c.items|), start, k, mask);
    AddItem(c, b, mask, k, sorted);
    CountStep(c.labels, mask[|c.history|..], k, omitted);
  }

  method SelectItems(c: Candidates, history: seq<ChatMessage>, ghost b: Budget, ghost start: Mask)
    returns (selected: seq<ContextItem>, omitted: Counts, ghost mask: Mask)
    requires c.Valid() && Measures(b, c) && |start| == c.Size()
    requires forall i :: |c.history| <= i < |start| ==> !start[i]
    requires multiset(history) == multiset(Select(c.history, start[..|c.history|]))
    ensures mask == Greedy(b, ItemOrder(|c.history|, |c.items|), start)
    ensures mask[..|c.history|] == start[..|c.history|]
    ensures var chosen := Greedy(b, ItemOrder(|c.history|, |c.items|), start);
            && selected == c.ChosenItems(chosen)
            && omitted == Counts(0, c.Omitted(chosen, Memory), c.Omitted(chosen, Profile), c.Omitted(chosen, Persona))
  {
    hide Units, Envelope, SortByKey, Select, Greedy, Measures, ItemLoop;
    mask := start;
    var sorted := SortByKey(history);
    SortPermutes(history);
    selected, omitted := [], Counts(0, 0, 0, 0);
    ItemStart(c, b, start);
    for k := 0 to |c.items|
      invariant omitted.history == 0 && ItemLoop(c, b, start, k, selected, omitted, mask)
    {
      ghost var trial := ItemStep(c, b, start, sorted, k, selected, omitted, mask);
      if Units(Envelope(c.system, selected + [c.items[k]], sorted, c.user)) <= c.maxUnits {
        selected, mask := selected + [c.items[k]], trial;
      } else {
        omitted := Reject(omitted, c.labels[k]);
      }
    }
    ItemEnd(c, b, start, selected, omitted, mask);
  }

  lemma ItemEnd(c: Candidates, b: Budget, start: Mask, selected: seq<ContextItem>, omitted: Counts, mask: Mask)
    requires omitted.history == 0 && ItemLoop(c, b, start, |c.items|, selected, omitted, mask)
    ensures |mask| == |start| == c.Size()
    ensures mask == Greedy(b, ItemOrder(|c.history|, |c.items|), start)
    ensures mask[..|c.history|] == start[..|c.history|]
    ensures selected == c.ChosenItems(mask)
    ensures omitted == Counts(0, c.Omitted(mask, Memory), c.Omitted(mask, Profile), c.Omitted(mask, Persona))
  {
    hide Select, Measures, GreedyAt;
    GreedyEnds(b, ItemOrder(|c.history|, |c.items|), start, mask);
    assert omitted.Of(Memory) == omitted.memory && omitted.Of(Profile) == omitted.profile
             && omitted.Of(Persona) == omitted.persona;
  }

  /** Choosing the next item appends it. */
  lemma AddItem(c: Candidates, b: Budget, mask: Mask, k: nat, sorted: seq<ChatMessage>)
    requires c.Valid() && Measures(b, c) && |mask| == c.Size() && k < |c.items|
    requires forall i :: |c.history| + k <= i < |mask| ==> !mask[i]
    requires multiset(sorted) == multiset(Select(c.history, mask[..|c.history|]))
    ensures var h, trial := |c.history|, mask[|c.history| + k := true];
            && trial[..h] == mask[..h]
            && Select(c.items, trial[h..]) == Select(c.items, mask[h..]) + [c.items[k]]
            && trial[h..] == mask[h..][k := true]
            && var more := Select(c.items, mask[h..]) + [c.items[k]];
               (Units(Envelope(c.system, more, sorted, c.user)) <= c.maxUnits <==> Fits(b, trial))
  {
    hide Units, Envelope, Fits;
    var h, trial := |c.history|, mask[|c.history| + k := true];
    assert trial[h..] == mask[h..][k := true] && trial[..h] == mask[..h];
    SelectAtEnd(c.items, mask[h..], k);
  }

  /** Counts over the first `j` candidates depend on their bits only. */
  lemma {:induction false} UnchosenLocal(labels: seq<Kind>, p: Mask, q: Mask, j: nat)
    requires |labels| == |p| == |q| && j <= |p|
    requires forall i :: 0 <= i < j ==> p[i] == q[i]
    ensures forall kind :: Unchosen(labels, p, kind, j) == Unchosen(labels, q, kind, j)
  {
    if j > 0 {
      UnchosenLocal(labels, p, q, j - 1);
    }
  }

  // ----- the whole call

  /** One call; `rule` is the constant boundary rule that closes the system message. */
  datatype Build = Build(bundle: Bundle, rule: string, user: string, maxUnits: int) {
    function Inputs(): (c: Candidates)
      ensures c.Valid()
    {
      Candidates(
        bundle.policy + rule, bundle.history, bundle.Items(), bundle.Labels(), user, maxUnits)
    }

    predicate MandatoryFits() {
      Units(Envelope(bundle.policy + rule, [], [], user)) <= maxUnits
    }

    function Expected(): BuildResult {
      if maxUnits <= 0 then Rejected(InvalidMaxUnits)
      else if user == "" then Rejected(EmptyUserMessage)
      else if bundle.policy == "" then Rejected(EmptyTrustedPolicy)
      else if !Distinct(bundle.Refs()) then Rejected(DuplicateSourceRef)
      else if !MandatoryFits() then Rejected(MandatoryBudgetExceeded)
      else
        var c := Inputs();
        Outcome(c, c.Choice(), bundle.report)
    }
  }

  function OmittedCounts(c: Candidates, mask: Mask): Counts
    requires c.Valid() && |mask| == c.Size()
  {
    var chosen := |c.ChosenHistory(mask)|;
    Counts(if chosen <= |c.history| then |c.history| - chosen else 0,
           c.Omitted(mask, Memory), c.Omitted(mask, Profile), c.Omitted(mask, Persona))
  }

  function SelectedCounts(history: seq<ChatMessage>, items: seq<ContextItem>): Counts {
    Counts(|history|, CountKind(items, Memory), CountKind(items, Profile), CountKind(items, Persona))
  }

  function NewReport(before: Report, omitted: Counts, selected: Counts): Report {
    Report(FirstOccurrences(before.codes + CodesFor(omitted)), before.omitted.Plus(omitted),
        before.selected.Plus(selected))
  }

  /** The result that belongs to a selection. */
  function Outcome(c: Candidates, mask: Mask, before: Report): BuildResult
    requires c.Valid() && |mask| == c.Size()
  {
    var items, history := c.ChosenItems(mask), c.ChosenHistory(mask);
    if !IdsPresent(items) then Rejected(MissingApprovedMemoryId)
    else
      var messages := Envelope(c.system, items, SortByKey(history), c.user);
      Built(messages, SourceMap(items), NewReport(before, OmittedCounts(c, mask), SelectedCounts(history, items)),
          Units(messages))
  }

  method ValidateUniqueRefs(refs: seq<string>) returns (unique: bool)
    ensures unique == Distinct(refs)
  {
    var seen: set<string> := {};
    for k := 0 to |refs|
      invariant seen == set i | 0 <= i < k :: refs[i]
      invariant Distinct(refs[..k])
    {
      if refs[k] in seen {
        return false;
      }
      seen := seen + {refs[k]};
      assert refs[..k + 1] == refs[..k] + [refs[k]];
    }
    assert refs[..|refs|] == refs;
    return true;
  }

  method BuildSourceMap(items: seq<ContextItem>) returns (refs: map<string, string>, failure: seq<Failure>)
    requires DistinctRefs(items)
    ensures failure == if IdsPresent(items) then [] else [MissingApprovedMemoryId]
    ensures failure == [] ==> refs == SourceMap(items)
  {
    refs := map[];
    for k := 0 to |items|
      invariant IdsPresent(items[..k]) && refs == SourceMap(items[..k])
      invariant forall r :: r in refs ==> exists i :: 0 <= i < k && items[i].sourceId == r
    {
      var item := items[k];
      if item.sourceId in refs {
        return refs, [DuplicateSourceRef];
      }
      assert items[..k + 1] == items[..k] + [item] && items[..k + 1][..k] == items[..k];
      if item.ApprovedMemory() {
        if item.internalId == "" {
          return refs, [MissingApprovedMemoryId];
        }
        refs := refs[item.sourceId := item.internalId];
      } else {
        refs := refs[item.sourceId := if item.internalId != "" then item.internalId else item.sourceId];
      }
    }
    assert items[..|items|] == items;
    failure := [];
  }

  predicate DistinctRefs(items: seq<ContextItem>) {
    forall i, j :: 0 <= i < j < |items| ==> items[i].sourceId != items[j].sourceId
  }

  method DistinctCodes(codes: seq<Code>) returns (r: seq<Code>)
    ensures r == FirstOccurrences(codes)
  {
    r := [];
    for k := 0 to |codes|
      invariant r == FirstOccurrences(codes[..k])
    {
      assert codes[..k + 1][..k] == codes[..k];
      if codes[k] !in r {
        r := r + [codes[k]];
      }
    }
    assert codes[..|codes|] == codes;
  }

  /** Chosen items keep distinct references. */
  lemma {:induction false} ChosenRefsDistinct(items: seq<ContextItem>, mask: Mask)
    requires |items| == |mask| && DistinctRefs(items)
    ensures DistinctRefs(Select(items, mask))
    ensures forall x :: x in Select(items, mask) ==> x in items
  {
    if items != [] {
      ChosenRefsDistinct(items[1..], mask[1..]);
      var rest := Select(items[1..], mask[1..]);
      forall i | 0 <= i < |rest| ensures rest[i].sourceId != items[0].sourceId {
        assert rest[i] in items[1..];
      }
    }
  }

  lemma ItemRefsDistinct(bundle: Bundle)
    requires Distinct(bundle.Refs())
    ensures DistinctRefs(bundle.Items())
  {
    var h, items := |bundle.history|, bundle.Items();
    forall i, j | 0 <= i < j < |items| ensures items[i].sourceId != items[j].sourceId {
      assert bundle.Refs()[h + i] == items[i].sourceId && bundle.Refs()[h + j] == items[j].sourceId;
    }
  }

  lemma NothingFits(c: Candidates)
    requires Units(Envelope(c.system, [], [], c.user)) <= c.maxUnits
    ensures Fits(c.Budget(), Nothing(c.Size()))
  {
    hide Units, Envelope, EnvelopeBudget, Fits;
    BudgetMeasures(c);
    SelectNone(c.history, Nothing(c.Size())[..|c.history|]);
    assert SortByKey([]) == [];
    HistoryTrialFits(c, c.Budget(), Nothing(c.Size()), []);
  }

  /** Whichever path is taken, the messages kept are those the choice selects. */
  lemma ChosenHistoryIsSelected(c: Candidates)
    ensures multiset(c.ChosenHistory(c.Choice())) == multiset(Select(c.history, c.Choice()[..|c.history|]))
    ensures c.AllHistoryFits() ==> Select(c.history, c.Choice()[..|c.history|]) == c.history
  {
    hide Units, Envelope, EnvelopeBudget, Fits, Measures, PriorityChoice, Greedy;
    var h := |c.history|;
    if c.AllHistoryFits() {
      BudgetMeasures(c);
      var mask := AllHistoryMask(c, c.Budget());
      LoopsAreChoice(c.Budget(), h, |c.items|, mask);
    } else {
      ReversePermutes(Select(c.history, c.Choice()[..h]));
    }
  }

  /** Once the mandatory pair fits, so does the finished envelope: the last budget check never fires. */
  lemma OutcomeFits(c: Candidates)
    requires Units(Envelope(c.system, [], [], c.user)) <= c.maxUnits
    ensures Units(Envelope(c.system, c.ChosenItems(c.Choice()), SortByKey(c.ChosenHistory(c.Choice())),
              c.user)) <= c.maxUnits
  {
    hide Units, Envelope, EnvelopeBudget, Fits, Greedy, SortByKey, Select;
    NothingFits(c);
    GreedyFits(c.Budget(), Priority(|c.history|, |c.items|), Nothing(c.Size()));
    BudgetMeasures(c);
    ChosenHistoryIsSelected(c);
    SortPermutes(c.ChosenHistory(c.Choice()));
  }

  /** Assembles and checks the envelope of a finished selection. */
  method FinishEnvelope(
    c: Candidates, before: Report, history: seq<ChatMessage>, items: seq<ContextItem>, omitted: Counts,
        ghost mask: Mask)
    returns (r: BuildResult)
    requires c.Valid() && mask == c.Choice() && DistinctRefs(c.items)
    requires Units(Envelope(c.system, [], [], c.user)) <= c.maxUnits
    requires items == c.ChosenItems(mask) && history == c.ChosenHistory(mask) && omitted == OmittedCounts(c, mask)
    ensures r == Outcome(c, mask, before)
  {
    hide Units, Envelope, PriorityChoice, Select, SortByKey, Reverse, Unchosen, CountKind, FirstOccurrences;
    var messages := Envelope(c.system, items, SortByKey(history), c.user);
    ChosenRefsDistinct(c.items, mask[|c.history|..]);
    var refs, failure := BuildSourceMap(items);
    if failure != [] {
      return Rejected(failure[0]);
    }
    var total := Units(messages);
    OutcomeFits(c);
    if total > c.maxUnits {
      return Rejected(BudgetExceededAfterSelection);
    }
    var codes := DistinctCodes(before.codes + CodesFor(omitted));
    var selected := SelectedCounts(history, items);
    r := Built(messages, refs, Report(codes, before.omitted.Plus(omitted), before.selected.Plus(selected)), total);
  }

  method SelectCandidates(c: Candidates)
    returns (history: seq<ChatMessage>, items: seq<ContextItem>, omitted: Counts)
    requires c.Valid()
    ensures history == c.ChosenHistory(c.Choice()) && items == c.ChosenItems(c.Choice())
    ensures omitted == OmittedCounts(c, c.Choice())
  {
    hide Units, Envelope, EnvelopeBudget, Greedy, PriorityChoice, Select, Reverse, Measures, Unchosen;
    BudgetMeasures(c);
    ghost var start, mask;
    var omittedHistory;
    history, omittedHistory, start := SelectHistory(c, c.Budget());
    LoopsAreChoice(c.Budget(), |c.history|, |c.items|, start);
    items, omitted, mask := SelectItems(c, history, c.Budget(), start);
    omitted := omitted.(history := omittedHistory);
  }

  method BuildEnvelope(call: Build) returns (r: BuildResult)
    ensures r == call.Expected()
  {
    hide Units, Envelope, EnvelopeBudget, PriorityChoice, Distinct, DistinctRefs, Unchosen, Outcome, OmittedCounts;
    if call.maxUnits <= 0 {
      return Rejected(InvalidMaxUnits);
    }
    if call.user == "" {
      return Rejected(EmptyUserMessage);
    }
    if call.bundle.policy == "" {
      return Rejected(EmptyTrustedPolicy);
    }
    var unique := ValidateUniqueRefs(call.bundle.Refs());
    if !unique {
      return Rejected(DuplicateSourceRef);
    }
    var c := call.Inputs();
    if Units(Envelope(c.system, [], [], c.user)) > c.maxUnits {
      return Rejected(MandatoryBudgetExceeded);
    }
    var history, items, omitted := SelectCandidates(c);
    ItemRefsDistinct(call.bundle);
    r := FinishEnvelope(c, call.bundle.report, history, items, omitted, c.Choice());
  }
}
