/**
 The parts of a provider envelope, how they are rendered, and what they weigh.
 The closing lemma states the size of any envelope as the weight of a selection mask.
 */
module ContextEnvelope {
  import opened Utf8
  import opened JsonSize
  import opened HistoryOrder
  import opened Selection
  import opened Sequences

  // ----- data

  datatype Kind = Memory | Profile | Persona

  /** `confidence` is the JSON text of the number. */
  datatype ContextItem = ContextItem(
    kind: Kind, content: string, provenance: string, confidence: string,
    status: string, sourceId: string, internalId: string)
  {
    predicate ApprovedMemory() {
      kind == Memory && status == "approved"
    }
  }

  datatype Counts = Counts(history: nat, memory: nat, profile: nat, persona: nat) {
    function Of(kind: Kind): nat {
      match kind
      case Memory => memory
      case Profile => profile
      case Persona => persona
    }

    function Plus(c: Counts): Counts {
      Counts(history + c.history, memory + c.memory, profile + c.profile, persona + c.persona)
    }
  }

  datatype Code = HistoryPartial | MemoryOmitted | ProfileOmitted | PersonaOmitted

  datatype Report = Report(codes: seq<Code>, omitted: Counts, selected: Counts)

  datatype Bundle = Bundle(
    policy: string, history: seq<ChatMessage>,
    memories: seq<ContextItem>, profiles: seq<ContextItem>, personas: seq<ContextItem>,
    report: Report)
  {
    /** Context candidates in priority order. */
    function Items(): seq<ContextItem> {
      memories + profiles + personas
    }

    /** The collection each candidate comes from. */
    function Labels(): (labels: seq<Kind>)
      ensures |labels| == |Items()|
    {
      seq(|memories|, _ => Memory) + seq(|profiles|, _ => Profile) + seq(|personas|, _ => Persona)
    }

    function Refs(): seq<string> {
      seq(|history|, i requires 0 <= i < |history| => history[i].sourceId) +
      seq(|Items()|, i requires 0 <= i < |Items()| => Items()[i].sourceId)
    }

    function Size(): nat {
      |history| + |Items()|
    }
  }

  datatype Failure =
    | InvalidMaxUnits
    | EmptyUserMessage
    | EmptyTrustedPolicy
    | DuplicateSourceRef
    | MandatoryBudgetExceeded
    | MissingApprovedMemoryId
    | BudgetExceededAfterSelection

  datatype BuildResult =
    | Built(messages: seq<Message>, sourceMap: map<string, string>, report: Report, units: nat)
    | Rejected(failure: Failure)

  // ----- rendering

  function KindName(kind: Kind): string {
    match kind
    case Memory => "memory"
    case Profile => "profile"
    case Persona => "persona"
  }

  /** One untrusted record; keys in sorted order. */
  function ItemJson(item: ContextItem): string {
    "{\"confidence\":" + item.confidence +
    ",\"content\":" + Quote(item.content) +
    ",\"epistemic_status\":" + Quote(item.status) +
    ",\"kind\":" + Quote(KindName(item.kind)) +
    ",\"provenance\":" + Quote(item.provenance) +
    ",\"record_type\":" + Quote("untrusted_context") +
    ",\"reference\":" + Quote(item.sourceId) + "}"
  }

  function ItemTexts(items: seq<ContextItem>): seq<string> {
    seq(|items|, i requires 0 <= i < |items| => ItemJson(items[i]))
  }

  function Payload(items: seq<ContextItem>): string {
    "[" + Join(ItemTexts(items)) + "]"
  }

  function Rendered(m: ChatMessage): Message {
    Message(m.role, m.content)
  }

  function RenderedAll(history: seq<ChatMessage>): seq<Message> {
    seq(|history|, i requires 0 <= i < |history| => Rendered(history[i]))
  }

  /** At most one untrusted message, for all selected items together. */
  function ContextPart(items: seq<ContextItem>): seq<Message> {
    if items == [] then [] else [Message("user", Payload(items))]
  }

  function Envelope(system: string, items: seq<ContextItem>, history: seq<ChatMessage>, user: string): seq<Message> {
    [Message("system", system)] + ContextPart(items) + RenderedAll(history) + [Message("user", user)]
  }

  // ----- the budget an envelope is measured against

  function HistoryCosts(history: seq<ChatMessage>): (c: seq<nat>)
    ensures |c| == |history|
  {
    seq(|history|, i requires 0 <= i < |history| => Cost(Rendered(history[i])))
  }

  function ItemCost(item: ContextItem): nat {
    1 + EscapedLen(ItemJson(item))
  }

  function ItemCosts(items: seq<ContextItem>): (c: seq<nat>)
    ensures |c| == |items|
  {
    seq(|items|, i requires 0 <= i < |items| => ItemCost(items[i]))
  }

  /** The wrapper of the untrusted message, short of the comma its first item does not need. */
  function ContextWrapper(): nat {
    Cost(Message("user", "[]")) - 1
  }

  function EnvelopeBudget(
    system: string, history: seq<ChatMessage>, items: seq<ContextItem>, user: string, maxUnits: int): (b: Budget)
    ensures |b.costs| == |b.grouped| == |history| + |items|
  {
    Budget(
      maxUnits,
      Units(Envelope(system, [], [], user)),
      HistoryCosts(history) + ItemCosts(items),
      seq(|history|, _ => false) + seq(|items|, _ => true),
      ContextWrapper())
  }

  // ----- sizes of rendered parts

  lemma {:induction false} HistoryWeight(history: seq<ChatMessage>, mask: Mask)
    requires |history| == |mask|
    ensures TotalCost(RenderedAll(Select(history, mask))) == Sum(HistoryCosts(history), mask)
  {
    hide Cost;
    if history != [] {
      HistoryWeight(history[1..], mask[1..]);
      assert HistoryCosts(history)[1..] == HistoryCosts(history[1..]);
      var chosen, rest := Select(history, mask), Select(history[1..], mask[1..]);
      if mask[0] {
        assert RenderedAll(chosen)[0] == Rendered(history[0]);
        assert RenderedAll(chosen)[1..] == RenderedAll(rest);
      } else {
        assert chosen == rest;
      }
    }
  }

  /** Rendering the same messages in another order costs the same. */
  lemma {:induction false} RenderedPermutation(a: seq<ChatMessage>, b: seq<ChatMessage>)
    requires multiset(a) == multiset(b)
    ensures TotalCost(RenderedAll(a)) == TotalCost(RenderedAll(b))
  {
    hide Cost;
    if a == [] {
      assert |b| == |multiset(b)| == 0;
    } else {
      assert a[0] in multiset(b);
      var i :| 0 <= i < |b| && b[i] == a[0];
      var b' := b[..i] + b[i + 1..];
      RemoveFromBoth(a, b, i);
      RenderedPermutation(a[1..], b');
      assert RenderedAll(a)[1..] == RenderedAll(a[1..]);
      TotalCostRemove(RenderedAll(b), i);
      assert RenderedAll(b)[..i] + RenderedAll(b)[i + 1..] == RenderedAll(b');
    }
  }

  function EscapedJoin(parts: seq<string>): nat {
    if parts == [] then 0 else 1 + EscapedLen(parts[0]) + EscapedJoin(parts[1..])
  }

  lemma CommaEscapes()
    ensures EscapedLen("") == 0
    ensures EscapedLen(",") == 1 && EscapedLen("[") == 1 && EscapedLen("]") == 1
  {
    assert Escape(",") == EscapeChar(',') + Escape("") == ",";
    assert Escape("[") == EscapeChar('[') + Escape("") == "[";
    assert Escape("]") == EscapeChar(']') + Escape("") == "]";
    AsciiLen(",");
    AsciiLen("[");
    AsciiLen("]");
  }

  lemma {:induction false} EscapedJoinLen(parts: seq<string>)
    ensures EscapedLen(Join(parts)) == if parts == [] then 0 else EscapedJoin(parts) - 1
  {
    hide Escape, EscapedLen;
    if parts == [] {
      CommaEscapes();
    } else if |parts| == 1 {
      assert parts[1..] == [];
    } else {
      EscapedJoinLen(parts[1..]);
      EscapeConcat(parts[0] + ",", Join(parts[1..]));
      EscapeConcat(parts[0], ",");
      CommaEscapes();
    }
  }

  lemma {:induction false} ItemsWeight(items: seq<ContextItem>, mask: Mask)
    requires |items| == |mask|
    ensures EscapedJoin(ItemTexts(Select(items, mask))) == Sum(ItemCosts(items), mask)
  {
    hide EscapedLen, ItemJson;
    if items != [] {
      ItemsWeight(items[1..], mask[1..]);
      assert ItemCosts(items)[1..] == ItemCosts(items[1..]);
      var chosen, rest := Select(items, mask), Select(items[1..], mask[1..]);
      if mask[0] {
        assert ItemTexts(chosen)[0] == ItemJson(items[0]);
        assert ItemTexts(chosen)[1..] == ItemTexts(rest);
      } else {
        assert chosen == rest;
      }
    }
  }

  lemma ContextWeight(items: seq<ContextItem>)
    ensures TotalCost(ContextPart(items)) ==
            if items == [] then 0 else ContextWrapper() + EscapedJoin(ItemTexts(items))
  {
    hide Escape, EscapedLen, Cost, ItemJson;
    if items != [] {
      var body := Join(ItemTexts(items));
      var m := Message("user", Payload(items));
      assert TotalCost([m]) == Cost(m) + TotalCost([]);
      CostOfAppend("user", "[" + body, "]");
      CostOfAppend("user", "[", body);
      CostOfAppend("user", "[", "]");
      assert "[" + "]" == "[]";
      EscapedJoinLen(ItemTexts(items));
    }
  }

  lemma GroupChosen(n: nat, k: nat, items: seq<ContextItem>, mask: Mask)
    requires |mask| == n + k && |items| == k
    ensures AnyGrouped(seq(n, _ => false) + seq(k, _ => true), mask) <==> Select(items, mask[n..]) != []
  {
    SelectSome(items, mask[n..]);
    var grouped := seq(n, _ => false) + seq(k, _ => true);
    if AnyGrouped(grouped, mask) {
      var i :| 0 <= i < |mask| && mask[i] && grouped[i];
      assert i >= n && mask[n..][i - n];
    }
    forall i | 0 <= i < k && mask[n..][i] ensures AnyGrouped(grouped, mask) {
      assert mask[n + i] && grouped[n + i];
    }
  }

  lemma EnvelopeUnits(system: string, items: seq<ContextItem>, history: seq<ChatMessage>, user: string)
    ensures Units(Envelope(system, items, history, user)) ==
            1 + Cost(Message("system", system)) + TotalCost(ContextPart(items)) +
            TotalCost(RenderedAll(history)) + Cost(Message("user", user))
  {
    hide Units, Cost, ContextPart, RenderedAll;
    var s, c, h, u := [Message("system", system)], ContextPart(items), RenderedAll(history), [Message("user", user)];
    UnitsAreCosts(s + c + h + u);
    TotalCostConcat(s + c + h, u);
    TotalCostConcat(s + c, h);
    TotalCostConcat(s, c);
    assert TotalCost(s) == Cost(s[0]) + TotalCost([]);
    assert TotalCost(u) == Cost(u[0]) + TotalCost([]);
  }

  /** Every arrangement of the selected messages weighs what the mask weighs. */
  lemma EnvelopeWeight(
    system: string, history: seq<ChatMessage>, items: seq<ContextItem>, user: string, maxUnits: int,
    mask: Mask, arranged: seq<ChatMessage>)
    requires |mask| == |history| + |items|
    requires multiset(arranged) == multiset(Select(history, mask[..|history|]))
    ensures Units(Envelope(system, Select(items, mask[|history|..]), arranged, user)) ==
            Weight(EnvelopeBudget(system, history, items, user, maxUnits), mask)
  {
    hide Units, Cost, Envelope, ContextWrapper, ItemCosts, HistoryCosts, Sum;
    var n := |history|;
    var p, q := mask[..n], mask[n..];
    assert mask == p + q;
    EnvelopeUnits(system, Select(items, q), arranged, user);
    EnvelopeUnits(system, [], [], user);
    assert TotalCost(ContextPart([])) == 0 && TotalCost(RenderedAll([])) == 0;
    RenderedPermutation(arranged, Select(history, p));
    HistoryWeight(history, p);
    ItemsWeight(items, q);
    ContextWeight(Select(items, q));
    SumConcat(HistoryCosts(history), ItemCosts(items), p, q);
    GroupChosen(n, |items|, items, mask);
    if Select(items, q) == [] {
      assert EscapedJoin(ItemTexts([])) == 0;
    }
  }
}
