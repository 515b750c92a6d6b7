/**
 What a built envelope holds, read off the call: every message of the list, every field of
 the untrusted records, every entry of the source map, every count and code of the report.
 */
module EnvelopeContents {
  import opened Options
  import opened Sequences
  import opened JsonSize
  import opened JsonReader
  import opened HistoryOrder
  import opened Selection
  import opened ContextEnvelope
  import opened TrustedContext
  import opened EnvelopeTheorems

  // ----- the untrusted records

  function ItemMembers(item: ContextItem): (ms: seq<Member>)
    ensures |ms| == 7
  {
    [Member("confidence", Bare(item.confidence)), Member("content", Text(item.content)),
     Member("epistemic_status", Text(item.status)), Member("kind", Text(KindName(item.kind))),
     Member("provenance", Text(item.provenance)), Member("record_type", Text("untrusted_context")),
     Member("reference", Text(item.sourceId))]
  }

  lemma TwoMembers(item: ContextItem)
    ensures "{" + Join(MemberTexts(ItemMembers(item)[..2])) ==
              "{\"confidence\":" + item.confidence + ",\"content\":" + Quote(item.content)
  {
    hide Quote, MemberText, MemberTexts, Join;
    var ms := ItemMembers(item);
    FirstText("confidence", "{\"confidence\":", ms[0].value);
    MoreText(ms[..1], "content", ",\"content\":", ms[1].value);
    assert ms[..1] == [ms[0]] && ms[..1] + [ms[1]] == ms[..2];
  }

  lemma FourMembers(item: ContextItem)
    ensures Join(MemberTexts(ItemMembers(item)[..4])) == Join(MemberTexts(ItemMembers(item)[..2]))
              + ",\"epistemic_status\":" + Quote(item.status) + ",\"kind\":" + Quote(KindName(item.kind))
  {
    hide Quote, MemberText, MemberTexts, Join;
    var ms := ItemMembers(item);
    MoreText(ms[..2], "epistemic_status", ",\"epistemic_status\":", ms[2].value);
    MoreText(ms[..3], "kind", ",\"kind\":", ms[3].value);
    assert ms[..2] + [ms[2]] == ms[..3] && ms[..3] + [ms[3]] == ms[..4];
  }

  lemma SevenMembers(item: ContextItem)
    ensures Join(MemberTexts(ItemMembers(item))) == Join(MemberTexts(ItemMembers(item)[..4]))
              + ",\"provenance\":" + Quote(item.provenance) + ",\"record_type\":" + Quote("untrusted_context")
              + ",\"reference\":" + Quote(item.sourceId)
  {
    hide Quote, MemberText, MemberTexts, Join;
    var ms := ItemMembers(item);
    MoreText(ms[..4], "provenance", ",\"provenance\":", ms[4].value);
    MoreText(ms[..5], "record_type", ",\"record_type\":", ms[5].value);
    MoreText(ms[..6], "reference", ",\"reference\":", ms[6].value);
    assert ms[..4] + [ms[4]] == ms[..5] && ms[..5] + [ms[5]] == ms[..6] && ms[..6] + [ms[6]] == ms;
  }

  lemma ItemText(item: ContextItem)
    ensures ItemJson(item) == ObjectText(ItemMembers(item))
  {
    hide Quote, MemberText, MemberTexts, Join;
    TwoMembers(item);
    FourMembers(item);
    SevenMembers(item);
  }

  /** Confidences are numbers, as the constructor of an item checks. */
  ghost predicate Numbers(items: seq<ContextItem>) {
    forall i :: 0 <= i < |items| ==> Readable(Bare(items[i].confidence))
  }

  /** The payload read back: one record for each item, in order, with exactly its seven fields. */
  lemma PayloadComesBack(items: seq<ContextItem>)
    requires Numbers(items)
    ensures var r := ReadArray(Payload(items));
            && r.Some? && r.value.rest == "" && |r.value.got| == |items|
            && forall i :: 0 <= i < |items| ==>
                 r.value.got[i] ==
                   [Member("confidence", Bare(items[i].confidence)), Member("content", Text(items[i].content)),
                    Member("epistemic_status", Text(items[i].status)),
                    Member("kind", Text(match items[i].kind case Memory => "memory" case Profile => "profile"
                                        case Persona => "persona")),
                    Member("provenance", Text(items[i].provenance)), Member("record_type", Text("untrusted_context")),
                    Member("reference", Text(items[i].sourceId))]
  {
    hide ItemJson, ObjectText, ReadArray, Join, Readable;
    var os := seq(|items|, i requires 0 <= i < |items| => ItemMembers(items[i]));
    forall i | 0 <= i < |items| ensures ItemTexts(items)[i] == ObjectTexts(os)[i] && AllReadable(os[i]) {
      ItemText(items[i]);
      TextReadable(items[i]);
    }
    assert ItemTexts(items) == ObjectTexts(os);
    ArrayComesBack(os);
  }

  lemma TextReadable(item: ContextItem)
    requires Readable(Bare(item.confidence))
    ensures AllReadable(ItemMembers(item))
  {
    var ms := ItemMembers(item);
    assert forall i :: 1 <= i < 7 ==> ms[i].value.Text?;
  }

  // ----- what a mask selects

  /** The positions in a range that are chosen, and those that are not. */
  ghost function Kept(mask: Mask, lo: nat, hi: nat): set<nat>
    requires hi <= |mask|
  {
    set i: nat | lo <= i < hi && mask[i]
  }

  ghost function Left(mask: Mask, lo: nat, hi: nat): set<nat>
    requires hi <= |mask|
  {
    set i: nat | lo <= i < hi && !mask[i]
  }

  lemma OneMore(mask: Mask, lo: nat, hi: nat)
    requires lo <= hi < |mask|
    ensures |Kept(mask, lo, hi + 1)| == |Kept(mask, lo, hi)| + if mask[hi] then 1 else 0
    ensures |Left(mask, lo, hi + 1)| == |Left(mask, lo, hi)| + if mask[hi] then 0 else 1
  {
    assert Kept(mask, lo, hi + 1) == Kept(mask, lo, hi) + if mask[hi] then {hi} else {};
    assert Left(mask, lo, hi + 1) == Left(mask, lo, hi) + if mask[hi] then {} else {hi};
  }

  lemma NoneYet(mask: Mask, lo: nat, hi: nat)
    requires hi <= lo && hi <= |mask|
    ensures Kept(mask, lo, hi) == {} && Left(mask, lo, hi) == {}
  {
  }

  /** The chosen elements and nothing else, each after as many as were chosen before it. */
  lemma {:induction false} SelectExactly<T>(s: seq<T>, mask: Mask, j: nat)
    requires |s| == |mask| && j <= |s|
    ensures |Select(s[..j], mask[..j])| == |Kept(mask, 0, j)|
    ensures forall i :: 0 <= i < j && mask[i] ==>
              |Kept(mask, 0, i)| < |Kept(mask, 0, j)| && Select(s[..j], mask[..j])[|Kept(mask, 0, i)|] == s[i]
  {
    hide Select, Kept, Left;
    if j == 0 {
      SelectNone(s[..0], mask[..0]);
      NoneYet(mask, 0, 0);
    } else {
      SelectExactly(s, mask, j - 1);
      SelectSnoc(s, mask, j - 1);
      OneMore(mask, 0, j - 1);
      var was := Select(s[..j - 1], mask[..j - 1]);
      assert Select(s[..j], mask[..j]) == was + if mask[j - 1] then [s[j - 1]] else [];
    }
  }

  // ----- the messages

  /** The candidates of a call: all its history, then memories, profile and persona, each with its collection. */
  lemma CandidatesExactly(call: Build)
    ensures var b, c := call.bundle, call.Inputs();
            var m, p, s := |b.memories|, |b.profiles|, |b.personas|;
            && c.system == b.policy + call.rule && c.history == b.history
            && c.user == call.user && c.maxUnits == call.maxUnits
            && |c.items| == |c.labels| == m + p + s
            && (forall i :: 0 <= i < m ==> c.items[i] == b.memories[i] && c.labels[i] == Memory)
            && (forall i :: 0 <= i < p ==> c.items[m + i] == b.profiles[i] && c.labels[m + i] == Profile)
            && (forall i :: 0 <= i < s ==> c.items[m + p + i] == b.personas[i] && c.labels[m + p + i] == Persona)
  {
  }

  /** No reference twice, neither among the history nor among the items nor across them. */
  ghost predicate RefsDiffer(b: Bundle) {
    && (forall i, j :: 0 <= i < j < |b.history| ==> b.history[i].sourceId != b.history[j].sourceId)
    && (forall i, j :: 0 <= i < j < |b.Items()| ==> b.Items()[i].sourceId != b.Items()[j].sourceId)
    && forall i, j :: 0 <= i < |b.history| && 0 <= j < |b.Items()| ==> b.history[i].sourceId != b.Items()[j].sourceId
  }

  lemma RefsExactly(b: Bundle)
    ensures Distinct(b.Refs()) <==> RefsDiffer(b)
  {
    hide Bundle.Items;
    var h, refs := |b.history|, b.Refs();
    assert forall i :: 0 <= i < h ==> refs[i] == b.history[i].sourceId;
    assert forall i :: 0 <= i < |b.Items()| ==> refs[h + i] == b.Items()[i].sourceId;
    if RefsDiffer(b) {
      forall i, j | 0 <= i < j < |refs| ensures refs[i] != refs[j] {
        assert j < h || refs[j] == b.Items()[j - h].sourceId;
        assert i < h || refs[i] == b.Items()[i - h].sourceId;
      }
    }
  }

  /** Why a call fails: the first of these conditions that holds. */
  lemma RejectedExactly(call: Build)
    ensures var b, c, r := call.bundle, call.Inputs(), call.Expected();
            var pair := [Message("system", b.policy + call.rule), Message("user", call.user)];
            var items := Select(c.items, c.Choice()[|c.history|..]);
            if call.maxUnits <= 0 then r == Rejected(InvalidMaxUnits)
            else if call.user == "" then r == Rejected(EmptyUserMessage)
            else if b.policy == "" then r == Rejected(EmptyTrustedPolicy)
            else if !RefsDiffer(b) then r == Rejected(DuplicateSourceRef)
            else if Units(pair) > call.maxUnits then r == Rejected(MandatoryBudgetExceeded)
            else if exists i :: 0 <= i < |items| && items[i].kind == Memory && items[i].status == "approved"
                                && items[i].internalId == ""
            then r == Rejected(MissingApprovedMemoryId)
            else r.Built?
  {
    hide Units, Envelope, EnvelopeBudget, PriorityChoice, Distinct, Select, SortByKey, Reverse, SourceMap, Unchosen,
         CountKind, FirstOccurrences, RefsDiffer;
    RefsExactly(call.bundle);
    EnvelopeParts(call.bundle.policy + call.rule, [], call.user);
    assert Envelope(call.bundle.policy + call.rule, [], [], call.user) ==
           [Message("system", call.bundle.policy + call.rule), Message("user", call.user)];
  }

  /**
   The message list of every built call: the policy with its rule; if any item is chosen, one
   message of the user that reads back as the records of the chosen items; the chosen history,
   each message under its own role and with its own content, sorted; the current message.
   */
  lemma MessagesExactly(call: Build) returns (kept: seq<ChatMessage>, items: seq<ContextItem>)
    requires call.Expected().Built?
    ensures var c := call.Inputs();
            && items == Select(c.items, c.Choice()[|c.history|..])
            && multiset(kept) == multiset(Select(c.history, c.Choice()[..|c.history|])) && Sorted(kept)
    ensures var ms, k := call.Expected().messages, |kept|;
            && |ms| == 2 + k + (if items == [] then 0 else 1)
            && ms[0] == Message("system", call.bundle.policy + call.rule)
            && ms[|ms| - 1] == Message("user", call.user)
            && (forall i :: 0 <= i < k ==> ms[|ms| - 1 - k + i] == Message(kept[i].role, kept[i].content))
            && (items != [] ==> ms[1].role == "user")
            && (items != [] && Numbers(items) ==>
                  var r := ReadArray(ms[1].content);
                  && r.Some? && r.value.rest == "" && |r.value.got| == |items|
                  && forall i :: 0 <= i < |items| ==>
                       r.value.got[i] ==
                         [Member("confidence", Bare(items[i].confidence)), Member("content", Text(items[i].content)),
                          Member("epistemic_status", Text(items[i].status)),
                          Member("kind", Text(match items[i].kind case Memory => "memory" case Profile => "profile"
                                              case Persona => "persona")),
                          Member("provenance", Text(items[i].provenance)),
                          Member("record_type", Text("untrusted_context")),
                          Member("reference", Text(items[i].sourceId))])
  {
    hide Units, Envelope, EnvelopeBudget, PriorityChoice, Distinct, Select, SortByKey, Reverse, Build.Expected,
         ReadArray, Payload, Numbers, Sorted;
    var c := call.Inputs();
    BuiltMessages(call);
    items, kept := c.ChosenItems(c.Choice()), SortByKey(c.ChosenHistory(c.Choice()));
    SortIsStable(c.ChosenHistory(c.Choice()));
    SortPermutes(c.ChosenHistory(c.Choice()));
    ChosenHistoryIsSelected(c);
    EnvelopeExactly(call.bundle.policy + call.rule, items, kept, call.user);
    if Numbers(items) {
      PayloadComesBack(items);
    }
  }

  // ----- the source map

  lemma {:induction false} SourceMapKeys(items: seq<ContextItem>)
    ensures forall ref :: ref in SourceMap(items) <==> exists i :: 0 <= i < |items| && items[i].sourceId == ref
    decreases |items|
  {
    if items != [] {
      var n := |items| - 1;
      SourceMapKeys(items[..n]);
      assert forall i :: 0 <= i < n ==> items[i] == items[..n][i];
      forall ref ensures ref in SourceMap(items) <==> exists i :: 0 <= i < |items| && items[i].sourceId == ref {
        if ref in SourceMap(items[..n]) {
          var i :| 0 <= i < n && items[..n][i].sourceId == ref;
          assert items[i].sourceId == ref;
        }
      }
    }
  }

  lemma {:induction false} SourceMapValue(items: seq<ContextItem>, i: nat)
    requires DistinctRefs(items) && i < |items|
    ensures items[i].sourceId in SourceMap(items)
    ensures SourceMap(items)[items[i].sourceId] ==
            if (items[i].kind == Memory && items[i].status == "approved") || items[i].internalId != ""
            then items[i].internalId else items[i].sourceId
    decreases |items|
  {
    var n := |items| - 1;
    if i < n {
      SourceMapValue(items[..n], i);
    }
  }

  lemma BuiltSourceMap(call: Build)
    requires call.Expected().Built?
    ensures var c := call.Inputs();
            var items := Select(c.items, c.Choice()[|c.history|..]);
            call.Expected().sourceMap == SourceMap(items) && IdsPresent(items) && DistinctRefs(items)
  {
    hide Units, Envelope, EnvelopeBudget, PriorityChoice, Distinct, Select, SortByKey, Reverse, SourceMap, Unchosen,
         CountKind, FirstOccurrences, DistinctRefs, IdsPresent;
    var c := call.Inputs();
    ItemRefsDistinct(call.bundle);
    ChosenRefsDistinct(c.items, c.Choice()[|c.history|..]);
  }

  /** Every built call: the references of the chosen items, each with the id it stands for. */
  lemma SourceMapExactly(call: Build)
    requires call.Expected().Built?
    ensures var c, refs := call.Inputs(), call.Expected().sourceMap;
            var items := Select(c.items, c.Choice()[|c.history|..]);
            && (forall ref :: ref in refs <==> exists i :: 0 <= i < |items| && items[i].sourceId == ref)
            && forall i :: 0 <= i < |items| ==>
                 var item := items[i];
                 if item.kind == Memory && item.status == "approved"
                 then item.internalId != "" && refs[item.sourceId] == item.internalId
                 else refs[item.sourceId] == if item.internalId != "" then item.internalId else item.sourceId
  {
    hide Build.Expected, Candidates.Choice, Select, SourceMap;
    var c := call.Inputs();
    var items := Select(c.items, c.Choice()[|c.history|..]);
    BuiltSourceMap(call);
    SourceMapKeys(items);
    forall i | 0 <= i < |items|
      ensures items[i].sourceId in SourceMap(items)
      ensures SourceMap(items)[items[i].sourceId] ==
              if (items[i].kind == Memory && items[i].status == "approved") || items[i].internalId != ""
              then items[i].internalId else items[i].sourceId
    {
      SourceMapValue(items, i);
    }
  }

  // ----- the report

  /** Items of one collection that are not chosen, counted by their positions. */
  lemma {:induction false} UnchosenExactly(labels: seq<Kind>, mask: Mask, h: nat, kind: Kind, lo: nat, hi: nat, j: nat)
    requires |mask| == h + |labels| && lo <= hi <= |labels| && j <= |labels|
    requires forall i :: 0 <= i < |labels| ==> (labels[i] == kind <==> lo <= i < hi)
    ensures Unchosen(labels, mask[h..], kind, j) == |Left(mask, h + lo, h + if j < hi then j else hi)|
  {
    hide Kept, Left;
    if j <= lo {
      NoneYet(mask, h + lo, h + j);
      NoneYet(mask, h + lo, h + if j == 0 then 0 else j - 1);
    } else if j <= hi {
      OneMore(mask, h + lo, h + (j - 1));
    }
    if j > 0 {
      UnchosenExactly(labels, mask, h, kind, lo, hi, j - 1);
    }
  }

  /** The chosen items of one kind. */
  ghost function KeptOf(items: seq<ContextItem>, bits: Mask, kind: Kind): (r: Mask)
    requires |bits| == |items|
    ensures |r| == |items|
  {
    seq(|items|, i requires 0 <= i < |items| => bits[i] && items[i].kind == kind)
  }

  /** Chosen items of one kind, counted by their positions. */
  lemma {:induction false} CountKindExactly(items: seq<ContextItem>, bits: Mask, kind: Kind, j: nat)
    requires |bits| == |items| && j <= |items|
    ensures CountKind(Select(items[..j], bits[..j]), kind) == |Kept(KeptOf(items, bits, kind), 0, j)|
  {
    hide Select, CountKind, Kept, Left;
    if j == 0 {
      NothingCounted(items, bits, kind);
      NoneYet(KeptOf(items, bits, kind), 0, 0);
    } else {
      CountKindExactly(items, bits, kind, j - 1);
      OneMore(KeptOf(items, bits, kind), 0, j - 1);
      SelectSnoc(items, bits, j - 1);
      var was := Select(items[..j - 1], bits[..j - 1]);
      if bits[j - 1] {
        CountKindSnoc(was, items[j - 1], kind);
      } else {
        assert was + [] == was;
      }
    }
  }

  lemma {:induction false} LeftOver(mask: Mask, h: nat)
    requires h <= |mask|
    ensures |Left(mask, 0, h)| + |Kept(mask, 0, h)| == h
  {
    hide Kept, Left;
    if h == 0 {
      NoneYet(mask, 0, 0);
    } else {
      LeftOver(mask, h - 1);
      OneMore(mask, 0, h - 1);
    }
  }

  /** History chosen and left, counted by positions. */
  lemma HistoryCounts(c: Candidates)
    ensures |c.ChosenHistory(c.Choice())| == |Kept(c.Choice(), 0, |c.history|)|
    ensures |c.history| - |c.ChosenHistory(c.Choice())| == |Left(c.Choice(), 0, |c.history|)|
  {
    hide Units, Envelope, EnvelopeBudget, PriorityChoice, Select, Reverse, Kept, Left, Candidates.ChosenHistory;
    var mask, h := c.Choice(), |c.history|;
    var bits := mask[..h];
    ChosenHistoryIsSelected(c);
    SelectExactly(c.history, bits, h);
    assert c.history[..h] == c.history && bits[..h] == bits;
    SameBits(mask, h);
    LeftOver(mask, h);
    assert |c.ChosenHistory(mask)| == |multiset(c.ChosenHistory(mask))|;
    assert |Select(c.history, bits)| == |multiset(Select(c.history, bits))|;
  }

  lemma SameBits(mask: Mask, h: nat)
    requires h <= |mask|
    ensures Kept(mask[..h], 0, h) == Kept(mask, 0, h)
  {
  }

  /** The counts of every built call, by positions chosen and not chosen. */
  lemma CountsExactly(call: Build)
    requires call.Expected().Built?
    ensures var b, c := call.bundle, call.Inputs();
            var mask, h, n := c.Choice(), |b.history|, |b.Items()|;
            var m, p := h + |b.memories|, h + |b.memories| + |b.profiles|;
            var was, now := b.report, call.Expected().report;
            && now.omitted.history == was.omitted.history + |Left(mask, 0, h)|
            && now.omitted.memory == was.omitted.memory + |Left(mask, h, m)|
            && now.omitted.profile == was.omitted.profile + |Left(mask, m, p)|
            && now.omitted.persona == was.omitted.persona + |Left(mask, p, h + n)|
            && now.selected.history == was.selected.history + |Kept(mask, 0, h)|
            && now.selected.memory == was.selected.memory + |Kept(KeptOf(c.items, mask[h..], Memory), 0, n)|
            && now.selected.profile == was.selected.profile + |Kept(KeptOf(c.items, mask[h..], Profile), 0, n)|
            && now.selected.persona == was.selected.persona + |Kept(KeptOf(c.items, mask[h..], Persona), 0, n)|
  {
    hide Units, Envelope, EnvelopeBudget, PriorityChoice, Distinct, Select, SortByKey, Reverse, SourceMap, Unchosen,
         CountKind, FirstOccurrences, Kept, Left, KeptOf, CodesFor, Candidates.ChosenHistory;
    ItemCounts(call);
    HistoryCounts(call.Inputs());
  }

  lemma ItemCounts(call: Build)
    ensures var b, c := call.bundle, call.Inputs();
            var mask, h, n := c.Choice(), |b.history|, |b.Items()|;
            var m, p := h + |b.memories|, h + |b.memories| + |b.profiles|;
            && c.Omitted(mask, Memory) == |Left(mask, h, m)|
            && c.Omitted(mask, Profile) == |Left(mask, m, p)|
            && c.Omitted(mask, Persona) == |Left(mask, p, h + n)|
            && forall kind :: CountKind(c.ChosenItems(mask), kind) == |Kept(KeptOf(c.items, mask[h..], kind), 0, n)|
  {
    hide Units, Envelope, EnvelopeBudget, PriorityChoice, Select, Reverse, CountKind, Unchosen, Kept, Left, KeptOf;
    var b, c := call.bundle, call.Inputs();
    var mask, h, n := c.Choice(), |b.history|, |b.Items()|;
    var m, p := |b.memories|, |b.memories| + |b.profiles|;
    CandidatesExactly(call);
    UnchosenExactly(c.labels, mask, h, Memory, 0, m, n);
    UnchosenExactly(c.labels, mask, h, Profile, m, p, n);
    UnchosenExactly(c.labels, mask, h, Persona, p, n, n);
    forall kind ensures CountKind(c.ChosenItems(mask), kind) == |Kept(KeptOf(c.items, mask[h..], kind), 0, n)| {
      CountKindExactly(c.items, mask[h..], kind, n);
      assert c.items[..n] == c.items && mask[h..][..n] == mask[h..];
    }
  }

  /** First occurrences keep their order: of two, the earlier had occurred when the later had not. */
  lemma {:induction false} FirstOccurrencesInOrder<T(!new)>(s: seq<T>, i: nat, j: nat) returns (p: nat)
    requires i < j < |FirstOccurrences(s)|
    ensures p < |s| && s[p] == FirstOccurrences(s)[i] && FirstOccurrences(s)[j] !in s[..p + 1]
    decreases |s|
  {
    var n := |s| - 1;
    var before := FirstOccurrences(s[..n]);
    if j < |before| {
      p := FirstOccurrencesInOrder(s[..n], i, j);
      assert s[..n][..p + 1] == s[..p + 1];
    } else {
      assert before[i] in s[..n];
      p :| 0 <= p < n && s[..n][p] == before[i];
      assert s[..p + 1] <= s[..n];
    }
  }

  /** The order in which codes are reported. */
  function Rank(code: Code): nat {
    match code
    case HistoryPartial => 0
    case MemoryOmitted => 1
    case ProfileOmitted => 2
    case PersonaOmitted => 3
  }

  ghost predicate InRankOrder(codes: seq<Code>) {
    forall i, j :: 0 <= i < j < |codes| ==> Rank(codes[i]) < Rank(codes[j])
  }

  lemma RankOrderSnoc(codes: seq<Code>, code: Code)
    requires InRankOrder(codes) && forall i :: 0 <= i < |codes| ==> Rank(codes[i]) < Rank(code)
    ensures InRankOrder(codes + [code])
  {
    hide Rank;
  }

  /** Further codes in rank order come after the first occurrences so far, in rank order. */
  lemma {:induction false} MoreCodes(was: seq<Code>, more: seq<Code>) returns (added: seq<Code>)
    requires InRankOrder(more)
    ensures FirstOccurrences(was + more) == FirstOccurrences(was) + added
    ensures InRankOrder(added) && forall code :: code in added ==> code in more
    decreases |more|
  {
    hide Rank, FirstOccurrences;
    if more == [] {
      assert was + more == was;
      added := [];
    } else {
      var n := |more| - 1;
      added := MoreCodes(was, more[..n]);
      assert was + more == was + more[..n] + [more[n]];
      FirstOccurrencesSnoc(was + more[..n], more[n]);
      if more[n] !in was + more[..n] {
        forall i | 0 <= i < |added| ensures Rank(added[i]) < Rank(more[n]) {
          assert added[i] in more[..n];
        }
        RankOrderSnoc(added, more[n]);
        added := added + [more[n]];
      }
    }
  }

  lemma CodesForInOrder(omitted: Counts)
    ensures var codes := CodesFor(omitted);
            && InRankOrder(codes)
            && (HistoryPartial in codes <==> omitted.history > 0)
            && (MemoryOmitted in codes <==> omitted.memory > 0)
            && (ProfileOmitted in codes <==> omitted.profile > 0)
            && (PersonaOmitted in codes <==> omitted.persona > 0)
  {
  }

  /**
   The codes of every built call: those of the bundle, and one for each category of which
   something was left out; each once, the new ones after those of the bundle and in the order
   history, memory, profile, persona.
   */
  lemma CodesExactly(call: Build) returns (added: seq<Code>)
    requires call.Expected().Built?
    ensures var was, now := call.bundle.report, call.Expected().report;
            && (HistoryPartial in now.codes <==>
                HistoryPartial in was.codes || now.omitted.history > was.omitted.history)
            && (MemoryOmitted in now.codes <==> MemoryOmitted in was.codes || now.omitted.memory > was.omitted.memory)
            && (ProfileOmitted in now.codes <==>
                ProfileOmitted in was.codes || now.omitted.profile > was.omitted.profile)
            && (PersonaOmitted in now.codes <==>
                PersonaOmitted in was.codes || now.omitted.persona > was.omitted.persona)
            && Distinct(now.codes) && now.codes == FirstOccurrences(was.codes) + added
    ensures forall i, j :: 0 <= i < j < |added| ==> Rank(added[i]) < Rank(added[j])
  {
    hide Units, Envelope, EnvelopeBudget, PriorityChoice, Select, SortByKey, Reverse, SourceMap, Unchosen,
         CountKind, FirstOccurrences, CodesFor, Candidates.ChosenHistory;
    var c := call.Inputs();
    var omitted := OmittedCounts(c, c.Choice());
    CodesForInOrder(omitted);
    added := MoreCodes(call.bundle.report.codes, CodesFor(omitted));
  }
}
