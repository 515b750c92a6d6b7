/**
 What a success of `fit_optional_context` means: optimality of the selection, and when,
 where and how a section is cut.
 */
module ProviderTheorems {
  import opened Options
  import opened Utf8
  import opened JsonSize
  import opened Selection
  import opened Truncation
  import opened ProviderEnvelope

  // ----- what a success means

  /** Among the selections of non-empty sections that fit, the uncut outcome is the lexicographically greatest. */
  lemma SectionsLexGreatest(q: FitRequest, r: FitResult, mask: Mask, cut: Cut, other: Mask)
    requires q.Refusal().None? && q.Success(r, mask, cut) && q.components != [] && cut.Uncut?
    requires |other| == |mask| && forall i :: 0 <= i < |mask| && q.components[i].content == "" ==> !other[i]
    requires Units(With(q.Base(), Contents(q.components), other, q.Payload())) <= q.maxUnits
    ensures var tried := Tried(q.Order(), Contents(q.components), |q.components|);
            IsOrder(tried, |mask|) && LexAtLeast(tried, mask, other)
  {
    hide Units, With, Greedy, Tried, FitRequest.Refusal, Weight, LexAtLeast, ValidPriority;
    var contents := Contents(q.components);
    var b := SectionBudget(q.Base(), contents);
    var tried := Tried(q.Order(), contents, |q.components|);
    TrialWeight(q.Base(), contents, other);
    TriedCovers(q.Order(), contents);
    GreedyLexGreatest(b, tried, Nothing(|mask|), other);
  }

  lemma {:induction false} TriedHas(order: seq<nat>, contents: seq<string>, k: nat, j: nat)
    requires k <= |order| && IsOrder(order, |contents|) && j < k && contents[order[j]] != ""
    ensures order[j] in Tried(order, contents, k)
  {
    if j < k - 1 {
      TriedHas(order, contents, k - 1, j);
    }
  }

  /** An order of all sections tries every section that is not empty. */
  lemma TriedCovers(order: seq<nat>, contents: seq<string>)
    requires IsOrder(order, |contents|) && |order| == |contents|
    ensures forall i :: 0 <= i < |contents| ==> (i in Tried(order, contents, |order|) <==> contents[i] != "")
  {
    hide Tried;
    TriedIsOrder(order, contents, |order|);
    forall i | 0 <= i < |contents| && contents[i] != "" ensures i in Tried(order, contents, |order|) {
      var j := PositionIn(order, i);
      TriedHas(order, contents, |order|, j);
    }
  }

  lemma PositionIn(order: seq<nat>, i: nat) returns (j: nat)
    requires IsOrder(order, |order|) && i < |order|
    ensures j < |order| && order[j] == i
  {
    if i !in order {
      Counting(order, |order|);
      SubsetCount(Elements(order, |order|), Below(|order|) - {i});
      assert false;
    }
    j :| 0 <= j < |order| && order[j] == i;
  }

  lemma SubsetCount(a: set<nat>, b: set<nat>)
    requires a <= b
    ensures |a| <= |b|
  {
    assert b == a + (b - a);
  }

  function Below(n: nat): (r: set<nat>)
    ensures |r| == n && forall k: nat :: k in r <==> k < n
  {
    if n == 0 then {} else Below(n - 1) + {n - 1}
  }

  function Elements(order: seq<nat>, n: nat): set<nat>
    requires n <= |order|
  {
    set k: nat | k < n :: order[k]
  }

  lemma {:induction false} Counting(order: seq<nat>, n: nat)
    requires n <= |order| && forall j, k :: 0 <= j < k < |order| ==> order[j] != order[k]
    ensures |Elements(order, n)| == n
  {
    if n > 0 {
      Counting(order, n - 1);
      assert Elements(order, n) == Elements(order, n - 1) + {order[n - 1]};
    }
  }

  /** No section that is not empty was left out of an uncut outcome needlessly. */
  lemma SectionsMaximal(q: FitRequest, r: FitResult, mask: Mask, cut: Cut, i: nat)
    requires q.Refusal().None? && q.Success(r, mask, cut) && cut.Uncut?
    requires i < |q.components| && i !in r.selected
    ensures q.components[i].content == ""
         || Units(With(q.Base(), Contents(q.components), mask[i := true], q.Payload())) > q.maxUnits
  {
    hide Units, With, Greedy, Tried, FitRequest.Refusal, Weight, ValidPriority;
    var contents := Contents(q.components);
    var b := SectionBudget(q.Base(), contents);
    var tried := Tried(q.Order(), contents, |q.components|);
    TriedCovers(q.Order(), contents);
    if contents[i] != "" {
      TrialWeight(q.Base(), contents, mask[i := true]);
      GreedyMaximal(b, tried, Nothing(|mask|), i);
    }
  }

  lemma {:induction false} SumAdd(costs: seq<nat>, mask: Mask, i: nat)
    requires |costs| == |mask| && i < |mask| && !mask[i]
    ensures Sum(costs, mask[i := true]) == Sum(costs, mask) + costs[i]
  {
    var m' := mask[i := true];
    if i == 0 {
      assert m'[1..] == mask[1..];
    } else {
      assert m'[1..] == mask[1..][i - 1 := true];
      SumAdd(costs[1..], mask[1..], i - 1);
    }
  }

  /** What a trial with a cut section weighs, next to the envelope without it and without the suffix. */
  lemma CutTrialWeight(f: Frame, mask: Mask, i: nat, text: string)
    requires f.Valid() && |f.contents| == |mask| && i < |mask| && !mask[i]
    ensures Units(With(f, f.contents[i := text], mask[i := true], f.suffix))
         == Units(With(f, f.contents, mask, "")) + EscapedLen("\n" + text) + EscapedLen(f.suffix)
  {
    hide Units, Cost, EscapedLen, Body, Sum;
    var cutted, bare := f.contents[i := text], f.(suffix := "");
    TrialWeight(f, cutted, mask[i := true]);
    TrialWeight(bare, f.contents, mask);
    SumAdd(SectionCosts(cutted), mask, i);
    SumAgree(SectionCosts(f.contents), SectionCosts(cutted), mask);
    var header := f.messages[f.at].content;
    UnitsReplace(f.messages, f.at, Message("system", header + f.suffix));
    UnitsReplace(f.messages, f.at, Message("system", header + ""));
    CostOfAppend("system", header, f.suffix);
    CostOfAppend("system", header, "");
    NothingEscapes();
  }

  lemma NewlineEscapes(text: string)
    ensures EscapedLen("\n" + text) == 2 + EscapedLen(text)
    ensures Len("\n" + text) == 1 + Len(text)
  {
    EscapeConcat("\n", text);
    AsciiLen("\\n");
    assert Escape("\n") == "\\n";
    AsciiLen("\n");
    EncodeConcat("\n", text);
  }

  lemma PlainText(s: string)
    requires Plain(s)
    ensures EscapedLen(s) == |s|
  {
    PlainEscape(s);
    AsciiLen(s);
  }

  lemma MarkerEscapes(text: string)
    ensures EscapedLen(text + MARKER) == EscapedLen(text) + 5
  {
    hide EscapedLen, Encode;
    EscapeConcat(text, MARKER);
    PlainText(MARKER);
    AsciiLen(MARKER);
  }

  /**
   The estimate does not count escapes, nor the line break in front of a section, so a cut
   section is accepted exactly when there is no suffix and the kept prefix, escaped, leaves
   two of the bytes available to it unused.
   */
  lemma CutFits(f: Frame, mask: Mask, i: nat, limit: nat) returns (k: nat)
    requires f.Valid() && |f.contents| == |mask| && i < |mask| && !mask[i]
    requires f.suffix == "" || exists s :: f.suffix == "\n\n" + s
    requires limit == Remaining(f, With(f, f.contents, mask, "")) > 0 && Len(f.contents[i]) > limit
    ensures k < |f.contents[i]|
    ensures var text := TruncateHead(f.contents[i], limit).0;
            && text == f.contents[i][..k] + MARKER
            && (Units(With(f, f.contents[i := text], mask[i := true], f.suffix)) <= f.maxUnits <==>
                f.suffix == "" && EscapedLen(f.contents[i][..k]) + 2 <= limit - 5)
    ensures limit > 5 ==> Len(f.contents[i][..k]) + |EncodeChar(f.contents[i][k])| > limit - 5
  {
    hide Units, With, Encode, EscapedLen, TruncateHead;
    var content := f.contents[i];
    k := HeadTruncation(content, limit);
    var text := content[..k] + MARKER;
    PrefixEnds(content, limit, k);
    CutTrialWeight(f, mask, i, text);
    NewlineEscapes(text);
    MarkerEscapes(content[..k]);
    EscapedAtLeast(content[..k]);
    NothingEscapes();
    EmptyLen();
    if f.suffix != "" {
      var s :| f.suffix == "\n\n" + s;
      assert f.suffix == "\n" + ("\n" + s);
      NewlineEscapes("\n" + s);
      NewlineEscapes(s);
      EscapedAtLeast(s);
    }
  }

  /** The first character dropped by a cut does not fit. */
  lemma PrefixEnds(content: string, limit: nat, k: nat)
    requires 0 < limit < Len(content) && LongestPrefix(content, Available(limit), k)
    ensures k < |content|
    ensures Len(content[..k]) + |EncodeChar(content[k])| > Available(limit)
  {
    hide Encode, EncodeChar;
    assert content[..|content|] == content;
    assert content[..k + 1] == content[..k] + [content[k]];
    EncodeConcat(content[..k], [content[k]]);
    SingleLen(content[k]);
  }

  /**
   A cut happens only without a suffix and only in front of a character of three or more
   bytes: for text below U+0800, or with a suffix, truncating mode never truncates.
   */
  lemma CutNeedsWideCharacter(q: FitRequest, r: FitResult, mask: Mask, cut: Cut) returns (k: nat)
    requires q.Refusal().None? && q.Success(r, mask, cut) && q.components != [] && cut.CutAt?
    ensures q.suffix == ""
    ensures k < |q.components[cut.index].content|
    ensures cut.text == q.components[cut.index].content[..k] + MARKER
    ensures q.components[cut.index].content[k] as int >= 0x800
  {
    hide Units, With, Encode, EscapedLen, TruncateHead, Greedy, Tried, FitRequest.Refusal, Remaining, ValidPriority,
         Fits;
    var f := q.Base();
    var b := SectionBudget(f, f.contents);
    var tried := Tried(q.Order(), f.contents, |q.components|);
    var before := Greedy(b, tried[..cut.position], Nothing(|mask|));
    WholeIsNotCut(f.contents[cut.index], cut.limit);
    k := CutFits(f, before, cut.index, cut.limit);
    assert mask == before[cut.index := true];
    EscapedAtLeast(f.contents[cut.index][..k]);
    NarrowEncoding(f.contents[cut.index][k]);
  }

  /** With a suffix, or with narrow characters only, truncating mode never truncates. */
  lemma NarrowTextIsNeverCut(q: FitRequest, r: FitResult, mask: Mask, cut: Cut)
    requires q.Refusal().None? && q.Success(r, mask, cut) && q.components != []
    requires q.suffix != "" || forall i, j :: 0 <= i < |q.components| && 0 <= j < |q.components[i].content| ==>
               q.components[i].content[j] as int < 0x800
    ensures cut.Uncut?
  {
    hide FitRequest.Refusal, CutOutcome, PlainOutcome, CutsFirst, Units, With;
    if cut.CutAt? {
      var k := CutNeedsWideCharacter(q, r, mask, cut);
      assert false;
    }
  }

  lemma WholeIsNotCut(text: string, limit: nat)
    requires TruncateHead(text, limit).0 != text
    ensures Len(text) > limit
  {
  }

  lemma NarrowEncoding(c: char)
    ensures |EncodeChar(c)| > 2 <==> c as int >= 0x800
  {
  }

  /** In truncating mode, too, what was selected before the cut is the greedy selection, and nothing follows it. */
  lemma CutIsLast(q: FitRequest, r: FitResult, mask: Mask, cut: Cut, j: nat)
    requires q.Refusal().None? && q.Success(r, mask, cut) && q.components != [] && cut.CutAt?
    requires cut.position < j < |Tried(q.Order(), Contents(q.components), |q.components|)|
    ensures Tried(q.Order(), Contents(q.components), |q.components|)[j] !in r.selected
  {
    hide Units, With, TruncateHead, Greedy, FitRequest.Refusal, Remaining, ValidPriority, Fits, Tried;
    var f := q.Base();
    var b := SectionBudget(f, f.contents);
    var tried := Tried(q.Order(), f.contents, |q.components|);
    TriedIsOrder(q.Order(), f.contents, |q.components|);
    GreedyUntouched(b, tried[..cut.position], Nothing(|mask|), tried[j]);
  }

  // ----- a cut that is made

  const EUROS := "\U{20AC}\U{20AC}\U{20AC}\U{20AC}"
  const KEPT := "\U{20AC}" + MARKER

  /** No suffix, one section of four three-byte characters, and room for ten bytes. */
  function EurosRequest(header: string): FitRequest {
    var messages := [Message("system", header)];
    FitRequest(messages, [Component("section", EUROS)], Units(messages) + 10, true, "", None)
  }

  lemma {:induction false} EuroLen(s: string)
    requires forall i :: 0 <= i < |s| ==> s[i] == '\U{20AC}'
    ensures Len(s) == 3 * |s| && Escape(s) == s
  {
    if s != "" {
      EuroLen(s[1..]);
      EuroEncoding();
    }
  }

  lemma EuroEncoding()
    ensures |EncodeChar('\U{20AC}')| == 3 && EscapeChar('\U{20AC}') == ['\U{20AC}']
  {
  }

  lemma EurosCut()
    ensures TruncateHead(EUROS, 10) == (KEPT, true)
    ensures EscapedLen(EUROS) == Len(EUROS) == 12 && EscapedLen(EUROS[..1]) == 3 && EUROS[..1] == "\U{20AC}"
  {
    hide Encode, DecodeIgnore, Escape, TruncateHead;
    EuroLen(EUROS);
    EuroLen(EUROS[..1]);
    EuroLen(EUROS[..2]);
    var k := HeadTruncation(EUROS, 10);
    assert LongestPrefix(EUROS, 5, 1);
    LongestPrefixUnique(EUROS, 5, k, 1);
    assert EUROS[..1] == "\U{20AC}";
  }

  /** The state in front of the only section: nothing selected, ten bytes left. */
  lemma EurosFrame(header: string)
    ensures var f := EurosRequest(header).Base();
            && f.Valid() && f.contents == [EUROS] && f.suffix == "" && With(f, f.contents, [false], "") == f.messages
            && Remaining(f, f.messages) == 10 && f.maxUnits == Units(f.messages) + 10
  {
    hide Units;
    var f := EurosRequest(header).Base();
    assert f.messages[0].role == "system" && f.at == 0;
    assert Body([EUROS], [false]) == "" by {
      assert [EUROS][1..] == [];
    }
    assert header + "" + "" == header;
  }

  /** The section does not fit whole, and fits cut. */
  lemma EurosCutWorks(header: string)
    ensures var f := EurosRequest(header).Base();
            && f.Valid() && |f.contents| == 1 && SectionBudget(f, f.contents).Covers([false])
            && CutWorks(f, SectionBudget(f, f.contents), [false], 0)
            && Units(With(f, [KEPT], [true], "")) <= f.maxUnits
  {
    hide Units, With, TruncateHead, EscapedLen, Encode, Remaining, Weight, FitRequest.Base;
    var f := EurosRequest(header).Base();
    EurosFrame(header);
    EurosCut();
    assert [false][0 := true] == [true] && [EUROS][0 := EUROS] == [EUROS] && [EUROS][0 := KEPT] == [KEPT];
    CutTrialWeight(f, [false], 0, EUROS);
    NewlineEscapes(EUROS);
    NothingEscapes();
    TrialWeight(f, f.contents, [true]);
    CutTrialWeight(f, [false], 0, KEPT);
    NewlineEscapes(KEPT);
    MarkerEscapes("\U{20AC}");
  }

  lemma EurosTried(header: string)
    ensures var q := EurosRequest(header);
            && !q.BadPriority() && Contents(q.components) == [EUROS] && Tried(q.Order(), [EUROS], 1) == [0]
            && SectionBudget(q.Base(), [EUROS]).Covers([false])
                && Greedy(SectionBudget(q.Base(), [EUROS]), [], Nothing(1)) == [false]
  {
    hide Units, EscapedLen;
    EurosFrame(header);
    var q := EurosRequest(header);
    assert q.Order() == [0];
    assert Nothing(1) == [false];
    assert Tried([0], [EUROS], 1) == Tried([0], [EUROS], 0) + [0];
  }

  lemma EurosMessages(header: string)
    ensures var f := EurosRequest(header).Base();
            f.Valid() && With(f, [KEPT], [true], "") == [Message("system", header + ("\n" + KEPT))]
  {
    hide Units;
    EurosFrame(header);
    assert [KEPT][1..] == [] && [true][1..] == [];
    assert Body([KEPT], [true]) == "\n" + KEPT + Body([], []) == "\n" + KEPT;
    var f := EurosRequest(header).Base();
    assert f.at == 0 && f.messages == [Message("system", header)];
    assert header + ("\n" + KEPT) + "" == header + ("\n" + KEPT);
    assert f.messages[0 := Message("system", header + ("\n" + KEPT))] == [Message("system", header + ("\n" + KEPT))];
  }

  lemma EurosOutcome(header: string)
    ensures var f := EurosRequest(header).Base();
            && f.Valid() && |f.contents| == 1 && SectionBudget(f, f.contents).Covers([true])
            && CutOutcome(f, SectionBudget(f, f.contents), [0], [true], CutAt(0, 0, 10, KEPT))
            && CutsFirst(f, SectionBudget(f, f.contents), [0], CutAt(0, 0, 10, KEPT), 1)
  {
    hide Units, With, TruncateHead, Remaining, SectionBudget, Encode, Escape, FitRequest.Base, Fits, Greedy;
    EurosFrame(header);
    EurosTried(header);
    EurosCut();
    EurosCutWorks(header);
    assert [0][..0] == [] && Nothing(1) == [false] && [false][0 := true] == [true] && [EUROS][0 := KEPT] == [KEPT];
  }

  lemma EurosAdmitted(header: string)
    ensures EurosRequest(header).Refusal() == None
  {
    hide Units;
    EurosFrame(header);
    var q := EurosRequest(header);
    assert header + "" == header;
    assert q.Appended(q.messages) == q.messages;
  }

  /** A cut is accepted: one character and the marker are kept. */
  lemma ACutIsMade(header: string)
    ensures var q := EurosRequest(header);
            && q.Refusal() == None
            && q.Success(Fitted([Message("system", header + ("\n" + KEPT))], {0}, false), [true], CutAt(0, 0, 10, KEPT))
  {
    hide Units, With, Tried, SectionBudget, CutOutcome, CutsFirst, FitRequest.Refusal;
    EurosAdmitted(header);
    EurosFrame(header);
    EurosTried(header);
    EurosOutcome(header);
    EurosMessages(header);
    EurosCutWorks(header);
    assert [EUROS][0 := KEPT] == [KEPT];
    assert Chosen([true]) == {0};
  }

  lemma FirstNotCuttable(f: Frame, b: Budget, tried: seq<nat>, size: nat)
    requires CutsFirst(f, b, tried, Uncut, size) && tried != []
    ensures tried[0] < size && b.Covers(Nothing(size)) && !CutWorks(f, b, Nothing(size), tried[0])
  {
    hide CutWorks;
    assert NoCutAt(f, b, tried, 0, size);
    assert tried[..0] == [];
  }

  lemma EurosCutUnique(header: string, mask: Mask, cut: Cut)
    requires var f := EurosRequest(header).Base(); f.Valid() && |f.contents| == |mask| == 1
    requires var f := EurosRequest(header).Base(); CutOutcome(f, SectionBudget(f, f.contents), [0], mask, cut)
    ensures cut == CutAt(0, 0, 10, KEPT)
  {
    hide Units, With, TruncateHead, Remaining, SectionBudget, Encode, Escape, FitRequest.Base, Fits, Greedy;
    EurosFrame(header);
    EurosTried(header);
    EurosCut();
    assert [0][..0] == [] && Nothing(1) == [false];
  }

  /** And it is made: no success of this request leaves the section out. */
  lemma TheCutIsForced(header: string, r: FitResult, mask: Mask, cut: Cut)
    requires EurosRequest(header).Refusal() == None && EurosRequest(header).Success(r, mask, cut)
    ensures cut == CutAt(0, 0, 10, KEPT)
  {
    hide Units, With, Tried, SectionBudget, FitRequest.Refusal, CutOutcome, PlainOutcome, CutsFirst, CutWorks;
    var q := EurosRequest(header);
    EurosFrame(header);
    EurosTried(header);
    if cut.Uncut? {
      EurosCutWorks(header);
      assert Nothing(1) == [false];
      FirstNotCuttable(q.Base(), SectionBudget(q.Base(), [EUROS]), [0], 1);
      assert false;
    }
    EurosCutUnique(header, mask, cut);
  }
}
