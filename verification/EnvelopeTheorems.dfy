/**
 What `build_envelope` guarantees, stated about `Build.Expected`, the outcome the
 method is proved to compute: the budget, the optimality of the selection, the
 conservation of candidates, and the order of the messages.
 */
module EnvelopeTheorems {
  import opened Sequences
  import Utf8
  import opened JsonSize
  import opened Timestamps
  import opened HistoryOrder
  import opened Selection
  import opened ContextEnvelope
  import opened TrustedContext

  // ----- budget

  lemma {:induction false} SelectedIdsPresent(items: seq<ContextItem>, mask: Mask)
    requires |items| == |mask| && IdsPresent(items)
    ensures IdsPresent(Select(items, mask))
  {
    if items != [] {
      SelectedIdsPresent(items[1..], mask[1..]);
    }
  }

  /**
   Success, exactly: valid input whose mandatory pair fits. That approved memories have their
   ids is what the constructor of an item checks.
   */
  lemma BuiltExactlyWhen(call: Build)
    requires IdsPresent(call.bundle.Items())
    ensures call.Expected().Built? <==>
            && call.maxUnits > 0 && call.user != "" && call.bundle.policy != ""
            && Distinct(call.bundle.Refs()) && call.MandatoryFits()
    ensures call.Expected() != Rejected(MissingApprovedMemoryId)
  {
    hide Units, Envelope, EnvelopeBudget, PriorityChoice, Distinct, IdsPresent, Select;
    var c := call.Inputs();
    SelectedIdsPresent(c.items, c.Choice()[|c.history|..]);
  }

  /** Every built envelope is within the budget, and the check after the selection never fires. */
  lemma WithinBudget(call: Build)
    ensures call.Expected() != Rejected(BudgetExceededAfterSelection)
    ensures call.Expected().Built? ==>
              call.Expected().units == Units(call.Expected().messages) <= call.maxUnits
  {
    hide Units, Envelope, EnvelopeBudget, PriorityChoice, Distinct;
    if call.Expected().Built? {
      OutcomeFits(call.Inputs());
    }
  }

  // ----- optimality

  /** The envelope of an arbitrary selection, its history in bundle order. */
  function EnvelopeOf(c: Candidates, mask: Mask): seq<Message>
    requires |mask| == c.Size()
  {
    Envelope(c.system, Select(c.items, mask[|c.history|..]), Select(c.history, mask[..|c.history|]), c.user)
  }

  lemma EnvelopeOfFits(c: Candidates, mask: Mask)
    requires |mask| == c.Size()
    ensures Units(EnvelopeOf(c, mask)) <= c.maxUnits <==> Fits(c.Budget(), mask)
  {
    hide Units, Envelope, EnvelopeBudget, Fits;
    BudgetMeasures(c);
  }

  /**
   No selection whose envelope fits is better: going through newest-to-oldest history,
   memories, profile and persona, the first candidate on which it differs from the
   one made is a candidate that was kept.
   */
  lemma ChoiceIsLexGreatest(c: Candidates, other: Mask)
    requires |other| == c.Size()
    ensures Units(EnvelopeOf(c, other)) <= c.maxUnits ==>
              LexAtLeast(Priority(|c.history|, |c.items|), c.Choice(), other)
  {
    hide Units, Envelope, EnvelopeBudget, Fits, EnvelopeOf;
    EnvelopeOfFits(c, other);
    var h, k := |c.history|, |c.items|;
    AllPrioritised(h, k);
    if Fits(c.Budget(), other) {
      GreedyLexGreatest(c.Budget(), Priority(h, k), Nothing(h + k), other);
    }
  }

  lemma AllPrioritised(h: nat, k: nat)
    ensures forall i :: 0 <= i < h + k ==> i in Priority(h, k)
  {
    forall i | 0 <= i < h + k ensures i in Priority(h, k) {
      if i < h {
        assert Priority(h, k)[h - 1 - i] == i;
      } else {
        assert Priority(h, k)[i] == i;
      }
    }
  }

  /** No omitted candidate could be added. */
  lemma ChoiceIsMaximal(c: Candidates, i: nat)
    requires i < c.Size()
    ensures c.Choice()[i] || Units(EnvelopeOf(c, c.Choice()[i := true])) > c.maxUnits
  {
    hide Units, Envelope, EnvelopeBudget, Fits, EnvelopeOf;
    var h, k := |c.history|, |c.items|;
    AllPrioritised(h, k);
    if !c.Choice()[i] {
      GreedyMaximal(c.Budget(), Priority(h, k), Nothing(h + k), i);
      EnvelopeOfFits(c, c.Choice()[i := true]);
    }
  }

  // ----- conservation

  /** Candidates of collection `kind` among the first `j`. */
  function Offered(labels: seq<Kind>, kind: Kind, j: nat): nat
    requires j <= |labels|
  {
    if j == 0 then 0 else Offered(labels, kind, j - 1) + if labels[j - 1] == kind then 1 else 0
  }

  /** Chosen items of kind `kind` that come from another collection. */
  function StraysIn(items: seq<ContextItem>, labels: seq<Kind>, mask: Mask, kind: Kind, j: nat): nat
    requires |items| == |labels| == |mask| && j <= |mask|
  {
    if j == 0 then 0
    else
      var strays := mask[j - 1] && items[j - 1].kind == kind && labels[j - 1] != kind;
      StraysIn(items, labels, mask, kind, j - 1) + if strays then 1 else 0
  }

  /** Chosen items of collection `kind` that are of another kind. */
  function StraysOut(items: seq<ContextItem>, labels: seq<Kind>, mask: Mask, kind: Kind, j: nat): nat
    requires |items| == |labels| == |mask| && j <= |mask|
  {
    if j == 0 then 0
    else
      var strays := mask[j - 1] && items[j - 1].kind != kind && labels[j - 1] == kind;
      StraysOut(items, labels, mask, kind, j - 1) + if strays then 1 else 0
  }

  lemma {:induction false} SelectSnoc<T>(s: seq<T>, mask: Mask, j: nat)
    requires |s| == |mask| && j < |s|
    ensures Select(s[..j + 1], mask[..j + 1]) == Select(s[..j], mask[..j]) + if mask[j] then [s[j]] else []
    decreases j
  {
    if j == 0 {
      assert s[..1][1..] == [] && mask[..1][1..] == [];
    } else {
      SelectSnoc(s[1..], mask[1..], j - 1);
      assert s[..j + 1][1..] == s[1..][..j] && mask[..j + 1][1..] == mask[1..][..j];
      assert s[..j][1..] == s[1..][..j - 1] && mask[..j][1..] == mask[1..][..j - 1];
    }
  }

  lemma {:induction false} CountKindSnoc(items: seq<ContextItem>, item: ContextItem, kind: Kind)
    ensures CountKind(items + [item], kind) == CountKind(items, kind) + if item.kind == kind then 1 else 0
  {
    if items == [] {
      assert items + [item] == [item];
    } else {
      assert (items + [item])[1..] == items[1..] + [item];
      CountKindSnoc(items[1..], item, kind);
    }
  }

  lemma NothingCounted(items: seq<ContextItem>, mask: Mask, kind: Kind)
    ensures CountKind(Select(items[..0], mask[..0]), kind) == 0
  {
  }

  /** Chosen, by kind, and omitted, by collection, account for every candidate up to the strays. */
  lemma {:induction false} CountsBalance(items: seq<ContextItem>, labels: seq<Kind>, mask: Mask, kind: Kind, j: nat)
    requires |items| == |labels| == |mask| && j <= |mask|
    ensures CountKind(Select(items[..j], mask[..j]), kind) + Unchosen(labels, mask, kind, j)
              + StraysOut(items, labels, mask, kind, j)
            == Offered(labels, kind, j) + StraysIn(items, labels, mask, kind, j)
  {
    hide Select, CountKind;
    if j == 0 {
      NothingCounted(items, mask, kind);
    } else {
      CountsBalance(items, labels, mask, kind, j - 1);
      SelectSnoc(items, mask, j - 1);
      if mask[j - 1] {
        CountKindSnoc(Select(items[..j - 1], mask[..j - 1]), items[j - 1], kind);
      } else {
        assert Select(items[..j - 1], mask[..j - 1]) + [] == Select(items[..j - 1], mask[..j - 1]);
      }
    }
  }

  lemma {:induction false} OfferedIsCollection(b: Bundle, kind: Kind, j: nat)
    requires j <= |b.Items()|
    ensures var m, p := |b.memories|, |b.profiles|;
            Offered(b.Labels(), kind, j) ==
            match kind
            case Memory => if j < m then j else m
            case Profile => if j < m then 0 else if j < m + p then j - m else p
            case Persona => if j < m + p then 0 else j - m - p
  {
    if j > 0 {
      OfferedIsCollection(b, kind, j - 1);
    }
  }

  function CollectionSize(b: Bundle, kind: Kind): nat {
    match kind
    case Memory => |b.memories|
    case Profile => |b.profiles|
    case Persona => |b.personas|
  }

  /**
   Selected counts go by an item's kind, omitted counts by its collection. The two
   account for the collection exactly when as many strays of this kind are chosen from
   other collections as there are chosen strays in this one.
   */
  lemma ItemConservation(call: Build, kind: Kind)
    ensures call.Expected().Built? ==>
            var c, n := call.Inputs(), |call.bundle.Items()|;
            var bits := c.Choice()[|c.history|..];
            var was, now := call.bundle.report, call.Expected().report;
            now.selected.Of(kind) + now.omitted.Of(kind) + StraysOut(c.items, c.labels, bits, kind, n)
            == was.selected.Of(kind) + was.omitted.Of(kind) + CollectionSize(call.bundle, kind)
                + StraysIn(c.items, c.labels, bits, kind, n)
  {
    hide Units, Envelope, EnvelopeBudget, PriorityChoice, Distinct, Select;
    var c, n := call.Inputs(), |call.bundle.Items()|;
    var bits := c.Choice()[|c.history|..];
    CountsBalance(c.items, c.labels, bits, kind, n);
    assert c.items[..n] == c.items && bits[..n] == bits;
    OfferedIsCollection(call.bundle, kind, n);
  }

  /** Every item's kind is that of its collection, as the bundle builder arranges. */
  ghost predicate KindsMatch(b: Bundle) {
    forall i :: 0 <= i < |b.Items()| ==> b.Items()[i].kind == b.Labels()[i]
  }

  lemma {:induction false} NoStrays(items: seq<ContextItem>, labels: seq<Kind>, mask: Mask, kind: Kind, j: nat)
    requires |items| == |labels| == |mask| && j <= |mask|
    requires forall i :: 0 <= i < |items| ==> items[i].kind == labels[i]
    ensures StraysIn(items, labels, mask, kind, j) == StraysOut(items, labels, mask, kind, j) == 0
  {
    if j > 0 {
      NoStrays(items, labels, mask, kind, j - 1);
    }
  }

  /** With matching kinds nothing is lost or counted twice, in any category. */
  lemma Conservation(call: Build)
    requires KindsMatch(call.bundle)
    ensures call.Expected().Built? ==>
            var was, now := call.bundle.report, call.Expected().report;
            && now.selected.history + now.omitted.history == was.selected.history + was.omitted.history
                + |call.bundle.history|
            && forall kind :: now.selected.Of(kind) + now.omitted.Of(kind)
                              == was.selected.Of(kind) + was.omitted.Of(kind) + CollectionSize(call.bundle, kind)
  {
    hide Units, Envelope, EnvelopeBudget, PriorityChoice, Distinct, Select, Reverse, StraysIn, StraysOut, Unchosen,
         CountKind;
    var c := call.Inputs();
    var bits := c.Choice()[|c.history|..];
    forall kind | call.Expected().Built?
      ensures call.Expected().report.selected.Of(kind) + call.Expected().report.omitted.Of(kind)
              == call.bundle.report.selected.Of(kind) + call.bundle.report.omitted.Of(kind)
                  + CollectionSize(call.bundle, kind)
    {
      ItemConservation(call, kind);
      NoStrays(c.items, c.labels, bits, kind, |c.items|);
    }
    assert |c.ChosenHistory(c.Choice())| <= |c.history|;
  }

  const NO_COUNTS := Counts(0, 0, 0, 0)

  /** A call with room for exactly one item, filed among the memories. */
  function OneMemory(item: ContextItem, policy: string, rule: string, user: string): Build {
    Build(Bundle(policy, [], [item], [], [], Report([], NO_COUNTS, NO_COUNTS)), rule, user,
        Units(Envelope(policy + rule, [item], [], user)))
  }

  lemma OneMemoryIsKept(item: ContextItem, policy: string, rule: string, user: string)
    ensures var call := OneMemory(item, policy, rule, user);
            call.Inputs().Choice() == [true] && call.MandatoryFits()
  {
    hide Units, Envelope, EnvelopeBudget, Fits;
    var call := OneMemory(item, policy, rule, user);
    var c := call.Inputs();
    assert [true][0..] == [true] && [true][..0] == [] && [false][0..] == [false] && [false][..0] == [];
    assert Select([item], [true]) == [item] && Select([item], [false]) == [];
    assert EnvelopeOf(c, [true]) == Envelope(policy + rule, [item], [], user);
    assert EnvelopeOf(c, [false]) == Envelope(policy + rule, [], [], user);
    EnvelopeOfFits(c, [true]);
    EnvelopeOfFits(c, [false]);
    FitsBelow(c.Budget(), [false], [true]);
    AllPrioritised(0, 1);
    GreedyTakesAll(c.Budget(), Priority(0, 1), Nothing(1), [true]);
  }

  /** A profile item filed among the memories, and kept, is in no memory count: the law above needs its condition. */
  lemma MislabelledItemUncounted(item: ContextItem, policy: string, rule: string, user: string)
    requires item.kind == Profile && policy != "" && user != ""
    ensures var call := OneMemory(item, policy, rule, user);
            var r := call.Expected();
            r.Built? && |call.bundle.memories| == 1 && r.report.selected.memory + r.report.omitted.memory == 0
  {
    hide Units, Envelope, EnvelopeBudget, PriorityChoice, Build.Expected, Select, Distinct, Unchosen, CountKind;
    OneMemoryIsKept(item, policy, rule, user);
    var call := OneMemory(item, policy, rule, user);
    var c := call.Inputs();
    OneItem(item);
    assert call.bundle.Items() == [item] && call.bundle.Refs() == [item.sourceId];
    assert [true][0..] == [true];
    UnitsPositive(Envelope(policy + rule, [item], [], user));
    assert c.items == [item] && c.labels == [Memory] && |c.history| == 0;
    BuiltExactlyWhen(call);
    assert call.Expected().Built?;
    ItemConservation(call, Memory);
    assert StraysOut(c.items, c.labels, [true], Memory, 1) == StraysOut(c.items, c.labels, [true], Memory, 0) + 1;
    assert StraysIn(c.items, c.labels, [true], Memory, 1) == StraysIn(c.items, c.labels, [true], Memory, 0);
  }

  lemma UnitsPositive(ms: seq<Message>)
    ensures Units(ms) >= 1
  {
    hide MessagesJson, Utf8.Len;
  }

  lemma OneItem(item: ContextItem)
    ensures Select([item], [true]) == [item] && Distinct([item.sourceId])
  {
  }

  // ----- order

  lemma {:induction false} SelectAscending(s: seq<ChatMessage>, mask: Mask)
    requires |s| == |mask| && Ascending(s)
    ensures Ascending(Select(s, mask))
    ensures forall x :: x in Select(s, mask) ==> x in s
  {
    hide KeyLess;
    if s != [] {
      SelectAscending(s[1..], mask[1..]);
      var rest := Select(s[1..], mask[1..]);
      forall i | 0 <= i < |rest| ensures KeyLess(s[0].sortKey, rest[i].sortKey) {
        assert rest[i] in s[1..];
      }
    }
  }

  /** With ascending keys, either path renders the chosen messages in bundle order. */
  lemma ChronologyRestored(c: Candidates)
    requires Ascending(c.history)
    ensures SortByKey(c.ChosenHistory(c.Choice())) == Select(c.history, c.Choice()[..|c.history|])
  {
    hide Units, Envelope, EnvelopeBudget, PriorityChoice, Select, KeyLess, Reverse, SortByKey;
    var chosen := Select(c.history, c.Choice()[..|c.history|]);
    ChosenHistoryIsSelected(c);
    SelectAscending(c.history, c.Choice()[..|c.history|]);
    if c.AllHistoryFits() {
      SortOfAscending(c.history);
    } else {
      SortOfReversed(chosen);
    }
  }

  /** Any envelope, message by message. */
  lemma EnvelopeExactly(system: string, items: seq<ContextItem>, history: seq<ChatMessage>, user: string)
    ensures var ms, k := Envelope(system, items, history, user), |history|;
            && |ms| == 2 + k + (if items == [] then 0 else 1)
            && ms[0] == Message("system", system) && ms[|ms| - 1] == Message("user", user)
            && (forall i :: 0 <= i < k ==> ms[|ms| - 1 - k + i] == Message(history[i].role, history[i].content))
            && (items != [] ==> ms[1] == Message("user", Payload(items)))
  {
    hide Payload;
  }

  /**
   If the bundle's history has ascending keys, the chosen messages come out as a subsequence of it,
   whichever of the two paths selected them: each under its own role and with its own content,
   between the system message, at most one untrusted message, and the current message as given.
   */
  lemma MessageOrder(call: Build)
    requires Ascending(call.bundle.history) && call.Expected().Built?
    ensures var c, ms := call.Inputs(), call.Expected().messages;
            var kept, items := Select(c.history, c.Choice()[..|c.history|]), Select(c.items, c.Choice()[|c.history|..]);
            var k := |kept|;
            && |ms| == 2 + k + (if items == [] then 0 else 1)
            && ms[0] == Message("system", call.bundle.policy + call.rule) && ms[|ms| - 1] == Message("user", call.user)
            && (forall i :: 0 <= i < k ==> ms[|ms| - 1 - k + i] == Message(kept[i].role, kept[i].content))
            && (items != [] ==> ms[1].role == "user")
  {
    hide Units, Envelope, EnvelopeBudget, PriorityChoice, Distinct, Select, Ascending, SortByKey, Reverse,
         Build.Expected;
    var c := call.Inputs();
    ChronologyRestored(c);
    BuiltMessages(call);
    EnvelopeExactly(call.bundle.policy + call.rule, c.ChosenItems(c.Choice()),
                    Select(c.history, c.Choice()[..|c.history|]), call.user);
  }

  lemma {:induction false} WithKeyReversed(s: seq<ChatMessage>, k: SortKey)
    ensures WithKey(Reverse(s), k) == Reverse(WithKey(s, k))
  {
    if s != [] {
      WithKeyReversed(s[1..], k);
      WithKeySnoc(Reverse(s[1..]), s[0], k);
      var rest := WithKey(s[1..], k);
      assert ([s[0]] + rest)[1..] == rest;
    }
  }

  lemma {:induction false} WithKeySnoc(s: seq<ChatMessage>, m: ChatMessage, k: SortKey)
    ensures WithKey(s + [m], k) == WithKey(s, k) + if m.sortKey == k then [m] else []
  {
    if s == [] {
      assert s + [m] == [m];
    } else {
      assert (s + [m])[1..] == s[1..] + [m];
      WithKeySnoc(s[1..], m, k);
    }
  }

  /** Ties: messages with equal keys keep bundle order if all history fits, and are reversed if not. */
  lemma TiesAreReversed(c: Candidates, k: SortKey)
    ensures var chosen := Select(c.history, c.Choice()[..|c.history|]);
            WithKey(SortByKey(c.ChosenHistory(c.Choice())), k) ==
            if Units(Envelope(c.system, [], c.history, c.user)) <= c.maxUnits then WithKey(chosen, k)
            else Reverse(WithKey(chosen, k))
  {
    hide Units, Envelope, EnvelopeBudget, PriorityChoice, Select, KeyLess;
    SortIsStable(c.ChosenHistory(c.Choice()));
    ChosenHistoryIsSelected(c);
    WithKeyReversed(Select(c.history, c.Choice()[..|c.history|]), k);
  }

  /** Three messages, the last two with one sort key, and room for exactly those two. */
  function TiedCall(first: ChatMessage, one: ChatMessage, two: ChatMessage, policy: string, rule: string,
      user: string): Build {
    Build(Bundle(policy, [first, one, two], [], [], [], Report([], NO_COUNTS, NO_COUNTS)), rule, user,
          Units(Envelope(policy + rule, [], [one, two], user)))
  }

  lemma EnvelopeParts(system: string, history: seq<ChatMessage>, user: string)
    ensures Envelope(system, [], history, user) ==
              [Message("system", system)] + RenderedAll(history) + [Message("user", user)]
  {
  }

  lemma OldestDoesNotFit(first: ChatMessage, one: ChatMessage, two: ChatMessage, system: string, user: string)
    ensures Units(Envelope(system, [], [first, one, two], user)) > Units(Envelope(system, [], [one, two], user))
  {
    hide Units, Envelope;
    EnvelopeParts(system, [first, one, two], user);
    EnvelopeParts(system, [one, two], user);
    var s, rest := [Message("system", system)], RenderedAll([one, two]) + [Message("user", user)];
    assert RenderedAll([first, one, two]) == [Rendered(first)] + RenderedAll([one, two]);
    assert Envelope(system, [], [first, one, two], user) == s + [Rendered(first)] + rest;
    assert Envelope(system, [], [one, two], user) == s + rest;
    UnitsInsert(s, Rendered(first), rest);
  }

  lemma SelectTwo<T>(a: T, b: T, c: T)
    ensures Select([a, b, c], [false, true, true]) == [b, c] && Select([a, b, c], [true, true, true]) == [a, b, c]
  {
    assert [a, b, c][1..] == [b, c] && [b, c][1..] == [c] && [c][1..] == [];
    assert [false, true, true][1..] == [true, true] && [true, true][1..] == [true] && [true][1..] == []
             && [true, true, true][1..] == [true, true];
    assert Select([c], [true]) == [c];
    assert Select([b, c], [true, true]) == [b] + Select([c], [true]);
  }

  lemma TiedEnvelopes(first: ChatMessage, one: ChatMessage, two: ChatMessage, policy: string, rule: string,
      user: string)
    ensures var c := TiedCall(first, one, two, policy, rule, user).Inputs();
            && Units(EnvelopeOf(c, [false, true, true])) <= c.maxUnits
            && Units(EnvelopeOf(c, [true, true, true])) > c.maxUnits && !c.AllHistoryFits()
  {
    hide Units, Envelope;
    var c := TiedCall(first, one, two, policy, rule, user).Inputs();
    SelectTwo(first, one, two);
    assert [false, true, true][..3] == [false, true, true] && [true, true, true][..3] == [true, true, true];
    assert [false, true, true][3..] == [] && [true, true, true][3..] == [];
    assert Select<ContextItem>([], []) == [];
    OldestDoesNotFit(first, one, two, policy + rule, user);
  }

  lemma TiedChoice(first: ChatMessage, one: ChatMessage, two: ChatMessage, policy: string, rule: string, user: string)
    ensures TiedCall(first, one, two, policy, rule, user).Inputs().Choice() == [false, true, true]
  {
    hide Units, Envelope, EnvelopeBudget, EnvelopeOf, PriorityChoice;
    var c := TiedCall(first, one, two, policy, rule, user).Inputs();
    TiedEnvelopes(first, one, two, policy, rule, user);
    var choice := c.Choice();
    ChoiceIsLexGreatest(c, [false, true, true]);
    assert Priority(3, 0) == [2, 1, 0];
    assert [2, 1, 0][1..] == [1, 0] && [1, 0][1..] == [0];
    assert choice[2] && choice[1];
    TiedMandatory(one, two, policy + rule, user);
    ChoiceFits(c);
    assert choice == [choice[0], true, true];
    if choice[0] {
      assert false;
    }
  }

  /** If the mandatory pair fits at all, so does what is chosen. */
  lemma ChoiceFits(c: Candidates)
    ensures Units(Envelope(c.system, [], [], c.user)) <= c.maxUnits ==> Units(EnvelopeOf(c, c.Choice())) <= c.maxUnits
  {
    hide Units, Envelope, EnvelopeBudget, EnvelopeOf, Fits;
    var none := Nothing(c.Size());
    NothingChosen(c);
    EnvelopeOfFits(c, none);
    if Fits(c.Budget(), none) {
      GreedyFits(c.Budget(), Priority(|c.history|, |c.items|), none);
    }
    EnvelopeOfFits(c, c.Choice());
  }

  lemma NothingChosen(c: Candidates)
    ensures EnvelopeOf(c, Nothing(c.Size())) == Envelope(c.system, [], [], c.user)
  {
    hide Envelope;
    var none := Nothing(c.Size());
    SelectNone(c.items, none[|c.history|..]);
    SelectNone(c.history, none[..|c.history|]);
  }

  /** A call whose result has two messages in the wrong order: `two` came after `one` and is rendered before it. */
  lemma ATieIsReversed(first: ChatMessage, one: ChatMessage, two: ChatMessage, policy: string, rule: string,
      user: string)
    requires policy != "" && user != "" && one.sortKey == two.sortKey
    requires first.sourceId != one.sourceId && first.sourceId != two.sourceId && one.sourceId != two.sourceId
    ensures var r := TiedCall(first, one, two, policy, rule, user).Expected();
            && r.Built?
            && r.messages == [Message("system", policy + rule), Message(two.role, two.content),
                           Message(one.role, one.content), Message("user", user)]
  {
    hide Units, Envelope, Build.Expected, Build.Inputs, SortByKey, Reverse, RenderedAll, Distinct,
         Candidates.Choice, Candidates.ChosenItems, Candidates.ChosenHistory;
    TiedIsBuilt(first, one, two, policy, rule, user);
    BuiltMessages(TiedCall(first, one, two, policy, rule, user));
    TiedSelection(first, one, two, policy, rule, user);
    TiedSort(one, two);
    EnvelopeParts(policy + rule, [two, one], user);
    RenderedPair(two, one);
  }

  lemma RenderedPair(a: ChatMessage, b: ChatMessage)
    ensures RenderedAll([a, b]) == [Rendered(a), Rendered(b)]
  {
  }

  lemma TiedIsBuilt(first: ChatMessage, one: ChatMessage, two: ChatMessage, policy: string, rule: string, user: string)
    requires policy != "" && user != ""
    requires first.sourceId != one.sourceId && first.sourceId != two.sourceId && one.sourceId != two.sourceId
    ensures TiedCall(first, one, two, policy, rule, user).Expected().Built?
  {
    hide Units, Envelope, Build.Expected, Build.Inputs, Distinct;
    var call := TiedCall(first, one, two, policy, rule, user);
    UnitsPositive(Envelope(policy + rule, [], [one, two], user));
    TiedMandatory(one, two, policy + rule, user);
    TiedRefs(first, one, two);
    assert call.bundle.Items() == [];
    assert call.bundle.Refs() == [first.sourceId, one.sourceId, two.sourceId];
    BuiltExactlyWhen(call);
  }

  lemma BuiltMessages(call: Build)
    ensures call.Expected().Built? ==>
            var c := call.Inputs();
            call.Expected().messages ==
            Envelope(call.bundle.policy + call.rule, c.ChosenItems(c.Choice()),
                     SortByKey(c.ChosenHistory(c.Choice())), call.user)
  {
    hide Units, Envelope, EnvelopeBudget, PriorityChoice, Distinct, Select;
  }

  lemma TiedSelection(first: ChatMessage, one: ChatMessage, two: ChatMessage, policy: string, rule: string,
      user: string)
    ensures var c := TiedCall(first, one, two, policy, rule, user).Inputs();
            c.ChosenItems(c.Choice()) == [] && c.ChosenHistory(c.Choice()) == Reverse([one, two])
  {
    hide Units, Envelope, Select, Reverse;
    TiedEnvelopes(first, one, two, policy, rule, user);
    TiedChoice(first, one, two, policy, rule, user);
    SelectTwo(first, one, two);
    NoItems();
    assert [false, true, true][..3] == [false, true, true] && [false, true, true][3..] == [];
  }

  lemma NoItems()
    ensures Select<ContextItem>([], []) == []
  {
  }

  lemma TiedRefs(first: ChatMessage, one: ChatMessage, two: ChatMessage)
    requires first.sourceId != one.sourceId && first.sourceId != two.sourceId && one.sourceId != two.sourceId
    ensures Distinct([first.sourceId, one.sourceId, two.sourceId])
  {
  }

  lemma TiedMandatory(one: ChatMessage, two: ChatMessage, system: string, user: string)
    ensures Units(Envelope(system, [], [], user)) <= Units(Envelope(system, [], [one, two], user))
  {
    hide Units, Envelope;
    var s, u := [Message("system", system)], [Message("user", user)];
    EnvelopeParts(system, [], user);
    EnvelopeParts(system, [one, two], user);
    assert Envelope(system, [], [one, two], user) == s + [Rendered(one)] + ([Rendered(two)] + u);
    UnitsInsert(s, Rendered(one), [Rendered(two)] + u);
    assert s + ([Rendered(two)] + u) == s + [Rendered(two)] + u;
    UnitsInsert(s, Rendered(two), u);
    assert Envelope(system, [], [], user) == s + u;
  }

  lemma TiedSort(one: ChatMessage, two: ChatMessage)
    requires one.sortKey == two.sortKey
    ensures SortByKey(Reverse([one, two])) == [two, one]
  {
    KeyLessAsymmetric(one.sortKey, two.sortKey);
    assert [one, two][1..] == [two] && [two][1..] == [];
    assert Reverse([two]) == [two];
    assert Reverse([one, two]) == [two, one];
    assert [two, one][1..] == [one] && [one][1..] == [];
    assert SortByKey([one]) == [one];
  }

  // ----- rows

  /** A loaded history row; `created` is its timestamp, converted to UTC. */
  datatype Row = Row(role: string, content: string, id: int, created: DateTime)

  function ToMessage(row: Row, ref: string): ChatMessage
    requires row.created.Valid()
  {
    ChatMessage(row.role, row.content, ref, SortKey(IsoFormat(row.created), row.id))
  }

  /** Rows oldest first, instants first and then ids, with no pair twice. */
  ghost predicate OldestFirst(rows: seq<Row>) {
    && (forall i :: 0 <= i < |rows| ==> rows[i].created.Valid())
    && forall i, j :: 0 <= i < j < |rows| ==>
      Instant(rows[i].created) < Instant(rows[j].created) ||
      (Instant(rows[i].created) == Instant(rows[j].created) && rows[i].id < rows[j].id)
  }

  /** Chronological rows give ascending sort keys. */
  lemma RowsAscend(rows: seq<Row>, history: seq<ChatMessage>)
    requires OldestFirst(rows) && |history| == |rows|
    requires forall i :: 0 <= i < |rows| ==> history[i] == ToMessage(rows[i], history[i].sourceId)
    ensures Ascending(history)
  {
    hide IsoFormat, Instant, TextLess;
    forall i, j | 0 <= i < j < |history| ensures KeyLess(history[i].sortKey, history[j].sortKey) {
      TextOrderIsTimeOrder(rows[i].created, rows[j].created);
    }
  }
}
