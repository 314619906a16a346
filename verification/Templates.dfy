/** Resolving a dashboard template against the sources a job offers
    (internal/httpapi/dashboard_templates.go:357-449, 468-535). */
module Templates {
  import opened Domain
  import opened Sorting
  import opened Text
  import G = Grid

  /** A source of the catalogue, with normalised tags. */
  datatype Item = Item(kind: string, name: string, tags: seq<string>)

  datatype Slot = Slot(id: string, required: seq<string>, optional: seq<string>, kinds: seq<string>, min: int, max: int,
                       role: string, onMissing: string, onAmbiguous: string)

  datatype Definition = Definition(id: string, position: G.Position, size: G.Size, slots: seq<Slot>)

  datatype Override = Override(widget: string, slot: string, sources: seq<G.Source>)

  datatype SlotStatus = SlotResolved | SlotMissing | SlotAmbiguous | SlotIncompatible

  datatype SlotResult = SlotResult(widget: string, slot: string, status: SlotStatus, candidates: seq<G.Source>, selected: seq<G.Source>)

  datatype WidgetStatus = WidgetResolved | WidgetPartial | WidgetOmitted | WidgetUnresolved

  datatype Compatibility = Compatible | PartiallyCompatible | NotCompatible

  // ---------------------------------------------------------------- one slot: the best sources

  predicate HasTags(item: Item, required: seq<string>) {
    forall tag :: tag in required ==> tag in item.tags
  }

  predicate Eligible(item: Item, slot: Slot) {
    HasTags(item, slot.required) && item.kind in slot.kinds
  }

  function Score(tags: seq<string>, optional: seq<string>): nat {
    if optional == [] then 0
    else Score(tags, optional[..|optional| - 1]) + (if optional[|optional| - 1] in tags then 1 else 0)
  }

  function ScoreOf(item: Item, slot: Slot): nat {
    Score(item.tags, slot.optional)
  }

  /** Eligible, and no eligible source of the catalogue scores higher. */
  ghost predicate IsBest(catalog: seq<Item>, slot: Slot, item: Item) {
    Eligible(item, slot) && forall o :: o in catalog && Eligible(o, slot) ==> ScoreOf(o, slot) <= ScoreOf(item, slot)
  }

  function BestScore(catalog: seq<Item>, slot: Slot): int {
    if catalog == [] then -1
    else
      var before := BestScore(catalog[..|catalog| - 1], slot);
      var last := catalog[|catalog| - 1];
      if Eligible(last, slot) && ScoreOf(last, slot) > before then ScoreOf(last, slot) else before
  }

  function WithScore(catalog: seq<Item>, slot: Slot, score: int): seq<Item> {
    if catalog == [] then []
    else
      var before := WithScore(catalog[..|catalog| - 1], slot, score);
      var last := catalog[|catalog| - 1];
      if Eligible(last, slot) && ScoreOf(last, slot) == score then before + [last] else before
  }

  function Best(catalog: seq<Item>, slot: Slot): seq<Item> {
    WithScore(catalog, slot, BestScore(catalog, slot))
  }

  lemma {:induction false} BestScoreIs(catalog: seq<Item>, slot: Slot)
    ensures forall o :: o in catalog && Eligible(o, slot) ==> ScoreOf(o, slot) <= BestScore(catalog, slot)
    ensures BestScore(catalog, slot) >= -1
    ensures BestScore(catalog, slot) >= 0 ==> exists o :: o in catalog && Eligible(o, slot) && ScoreOf(o, slot) == BestScore(catalog, slot)
    decreases |catalog|
  {
    hide Eligible, ScoreOf;
    if catalog != [] {
      var init, last := catalog[..|catalog| - 1], catalog[|catalog| - 1];
      BestScoreIs(init, slot);
      assert catalog == init + [last];
      assert last in catalog;
    }
  }

  lemma {:induction false} WithScoreIs(catalog: seq<Item>, slot: Slot, score: int, item: Item)
    ensures multiset(WithScore(catalog, slot, score))[item]
            == if Eligible(item, slot) && ScoreOf(item, slot) == score then multiset(catalog)[item] else 0
    decreases |catalog|
  {
    hide Eligible, ScoreOf;
    if catalog != [] {
      WithScoreIs(catalog[..|catalog| - 1], slot, score, item);
      assert catalog == catalog[..|catalog| - 1] + [catalog[|catalog| - 1]];
    }
  }

  /** The candidates of a slot are exactly the sources with the maximal optional-tag score, as
      often as the catalogue lists them. */
  lemma BestIsMaximal(catalog: seq<Item>, slot: Slot, item: Item)
    ensures multiset(Best(catalog, slot))[item] == if IsBest(catalog, slot, item) then multiset(catalog)[item] else 0
  {
    BestScoreIs(catalog, slot);
    WithScoreIs(catalog, slot, BestScore(catalog, slot), item);
    hide Eligible, ScoreOf, BestScore, WithScore;
    InMultiset(catalog, item);
  }

  /** How many of the optional tags of the slot the source has. */
  ghost function Hits(item: Item, slot: Slot): nat {
    |set i | 0 <= i < |slot.optional| && slot.optional[i] in item.tags|
  }

  lemma {:induction false} ScoreCounts(tags: seq<string>, optional: seq<string>)
    ensures Score(tags, optional) == |set i | 0 <= i < |optional| && optional[i] in tags|
    decreases |optional|
  {
    var all := set i | 0 <= i < |optional| && optional[i] in tags;
    if optional == [] {
      assert all == {};
    } else {
      var n := |optional| - 1;
      ScoreCounts(tags, optional[..n]);
      var before := set i | 0 <= i < |optional[..n]| && optional[..n][i] in tags;
      assert all == if optional[n] in tags then before + {n} else before;
    }
  }

  /** A source the slot could take: of an allowed kind, with all the required tags. */
  ghost predicate Takes(slot: Slot, item: Item) {
    item.kind in slot.kinds && forall i :: 0 <= i < |slot.required| ==> slot.required[i] in item.tags
  }

  /** The candidates are exactly the sources the slot could take that have the most optional tags. */
  lemma CandidatesHaveMostTags(catalog: seq<Item>, slot: Slot, item: Item)
    ensures multiset(Best(catalog, slot))[item]
            == if Takes(slot, item) && forall o :: o in catalog && Takes(slot, o) ==> Hits(o, slot) <= Hits(item, slot)
               then multiset(catalog)[item] else 0
  {
    BestIsMaximal(catalog, slot, item);
    forall o: Item ensures (Eligible(o, slot) <==> Takes(slot, o)) && ScoreOf(o, slot) == Hits(o, slot) {
      ScoreCounts(o.tags, slot.optional);
    }
    hide Best, Eligible, ScoreOf, Takes, Hits;
  }

  // ---------------------------------------------------------------- one slot: its result

  function References(items: seq<Item>, role: string): (r: seq<G.Source>)
    ensures |r| == |items|
  {
    seq(|items|, i requires 0 <= i < |items| => G.Source(items[i].kind, items[i].name, role))
  }

  predicate AnyHasTags(catalog: seq<Item>, slot: Slot) {
    exists i :: 0 <= i < |catalog| && HasTags(catalog[i], slot.required)
  }

  function StatusFor(slot: Slot, tagged: bool, n: nat): SlotStatus {
    if slot.required != [] && tagged && n == 0 then SlotIncompatible
    else if n < slot.min then SlotMissing
    else if n > slot.max then SlotAmbiguous
    else if n == 0 then SlotMissing
    else SlotResolved
  }

  function SlotOf(widget: string, slot: Slot, catalog: seq<Item>): SlotResult {
    var best := Best(catalog, slot);
    var status := StatusFor(slot, AnyHasTags(catalog, slot), |best|);
    SlotResult(widget, slot.id, status, References(best, slot.role), if status == SlotResolved then References(best, slot.role) else [])
  }

  /** A slot is resolved exactly when it has candidates and their number is within its
      cardinality; then it selects all of them. */
  lemma ResolvedIff(widget: string, slot: Slot, catalog: seq<Item>)
    ensures var r := SlotOf(widget, slot, catalog);
            var n := |Best(catalog, slot)|;
            && |r.candidates| == n
            && (r.status == SlotResolved <==> 1 <= n && slot.min <= n <= slot.max)
            && (0 <= slot.min <= slot.max ==> (r.status == SlotAmbiguous <==> n > slot.max))
            && (r.status == SlotResolved ==> r.selected == r.candidates && slot.min <= |r.selected| <= slot.max)
            && (r.status != SlotResolved ==> r.selected == [])
  {
  }

  /** Why a slot has no result: something has its required tags but nothing will do, or there is too
      little or too much. */
  lemma UnresolvedIs(widget: string, slot: Slot, catalog: seq<Item>)
    ensures var r, n := SlotOf(widget, slot, catalog), |Best(catalog, slot)|;
            var tagged := exists item :: item in catalog && forall i :: 0 <= i < |slot.required| ==> slot.required[i] in item.tags;
            && (r.status == SlotIncompatible <==> slot.required != [] && tagged && n == 0)
            && (r.status == SlotMissing <==> (n < slot.min || (n == 0 && n <= slot.max)) && !(slot.required != [] && tagged && n == 0))
  {
    hide Best;
    if AnyHasTags(catalog, slot) {
      var k :| 0 <= k < |catalog| && HasTags(catalog[k], slot.required);
      assert catalog[k] in catalog;
    }
  }

  // ---------------------------------------------------------------- overrides

  const NUL := "\0"

  function Key(a: string, b: string): string {
    a + NUL + b
  }

  function SourceKey(s: G.Source): string {
    Key(s.kind, s.name)
  }

  predicate OverrideFormed(o: Override) {
    !Blank(o.widget) && !Blank(o.slot) && o.sources != []
  }

  function OverrideKey(o: Override): string {
    Key(o.widget, o.slot)
  }

  /** Every override names a slot and some sources, and no two name the same slot. */
  ghost predicate OverridesFormed(overrides: seq<Override>) {
    && (forall i :: 0 <= i < |overrides| ==> OverrideFormed(overrides[i]))
    && (forall i, j :: 0 <= i < j < |overrides| ==> OverrideKey(overrides[i]) != OverrideKey(overrides[j]))
  }

  function ByKey(overrides: seq<Override>): map<string, Override> {
    if overrides == [] then map[]
    else
      var last := overrides[|overrides| - 1];
      ByKey(overrides[..|overrides| - 1])[OverrideKey(last) := last]
  }

  predicate SourceLess(a: G.Source, b: G.Source) {
    if a.kind != b.kind then StringLess(a.kind, b.kind) else StringLess(a.name, b.name)
  }

  function WithRole(sources: seq<G.Source>, role: string): (r: seq<G.Source>)
    ensures |r| == |sources|
  {
    seq(|sources|, i requires 0 <= i < |sources| => sources[i].(role := role))
  }

  ghost predicate Offered(candidates: seq<G.Source>, wanted: G.Source) {
    exists c :: c in candidates && SourceKey(c) == SourceKey(wanted)
  }

  /** An override must choose different candidates of its slot, as many as the slot takes. */
  ghost predicate OverrideFits(slot: Slot, candidates: seq<G.Source>, requested: seq<G.Source>) {
    && slot.min <= |requested| <= slot.max
    && (forall i :: 0 <= i < |requested| ==> Offered(candidates, requested[i]))
    && (forall i, j :: 0 <= i < j < |requested| ==> SourceKey(requested[i]) != SourceKey(requested[j]))
  }

  // ---------------------------------------------------------------- one widget

  /** The result of a slot once overrides are applied; None if the override does not fit. */
  ghost function Fill(widget: string, slot: Slot, catalog: seq<Item>, overrides: map<string, Override>): Option<SlotResult> {
    var r := SlotOf(widget, slot, catalog);
    var key := Key(widget, slot.id);
    if key !in overrides then Some(r)
    else if OverrideFits(slot, r.candidates, overrides[key].sources)
    then Some(r.(status := SlotResolved, selected := Sort(WithRole(overrides[key].sources, slot.role), SourceLess)))
    else None
  }

  ghost function FillAll(widget: string, slots: seq<Slot>, catalog: seq<Item>,
                         overrides: map<string, Override>): (r: Option<seq<SlotResult>>)
    ensures r.Some? ==> |r.value| == |slots|
  {
    if slots == [] then Some([])
    else
      var before := FillAll(widget, slots[..|slots| - 1], catalog, overrides);
      var last := Fill(widget, slots[|slots| - 1], catalog, overrides);
      if before.Some? && last.Some? then Some(before.value + [last.value]) else None
  }

  function Behaviour(slot: Slot, status: SlotStatus): string {
    var chosen := if status == SlotAmbiguous then slot.onAmbiguous else slot.onMissing;
    if chosen != "" then chosen
    else if status != SlotAmbiguous && slot.min == 0 then "omit_slot"
    else "error"
  }

  /** What a slot means for its widget. */
  function Outcome(slot: Slot, status: SlotStatus): WidgetStatus {
    if status == SlotResolved then WidgetResolved
    else if Behaviour(slot, status) == "omit_slot" then WidgetPartial
    else if Behaviour(slot, status) == "omit_widget" then WidgetOmitted
    else WidgetUnresolved
  }

  function Rank(s: WidgetStatus): nat {
    match s
    case WidgetResolved => 0
    case WidgetPartial => 1
    case WidgetOmitted => 2
    case WidgetUnresolved => 3
  }

  /** A slot of the template with what became of it. */
  datatype Filled = Filled(slot: Slot, result: SlotResult)

  function Zip(slots: seq<Slot>, results: seq<SlotResult>): (r: seq<Filled>)
    requires |slots| == |results|
    ensures |r| == |slots|
  {
    seq(|slots|, i requires 0 <= i < |slots| => Filled(slots[i], results[i]))
  }

  function Sources(filled: seq<Filled>): seq<G.Source> {
    if filled == [] then []
    else
      var last := filled[|filled| - 1];
      Sources(filled[..|filled| - 1]) + (if last.result.status == SlotResolved then last.result.selected else [])
  }

  function OutcomeOf(f: Filled): WidgetStatus {
    Outcome(f.slot, f.result.status)
  }

  /** The worst outcome: no outcome ranks above it, and it is one of them unless all is well. */
  ghost predicate IsWorst(filled: seq<Filled>, status: WidgetStatus) {
    && (forall f :: f in filled ==> Rank(OutcomeOf(f)) <= Rank(status))
    && (status == WidgetResolved || exists f :: f in filled && OutcomeOf(f) == status)
  }

  function Worse(a: WidgetStatus, b: WidgetStatus): WidgetStatus {
    if Rank(a) < Rank(b) then b else a
  }

  function Worst(filled: seq<Filled>): WidgetStatus {
    if filled == [] then WidgetResolved else Worse(Worst(filled[..|filled| - 1]), OutcomeOf(filled[|filled| - 1]))
  }

  /** A widget without sources is omitted, unless it is unresolved. */
  function StatusOf(filled: seq<Filled>): WidgetStatus {
    if Sources(filled) == [] && Worst(filled) != WidgetUnresolved then WidgetOmitted else Worst(filled)
  }

  lemma {:induction false} WorstIs(filled: seq<Filled>)
    ensures IsWorst(filled, Worst(filled))
    decreases |filled|
  {
    hide OutcomeOf;
    if filled != [] {
      var init, last := filled[..|filled| - 1], filled[|filled| - 1];
      WorstIs(init);
      assert filled == init + [last];
      assert last in filled;
    }
  }

  lemma WorstIsUnique(filled: seq<Filled>, gs: seq<Filled>, a: WidgetStatus, b: WidgetStatus)
    requires IsWorst(filled, a) && IsWorst(gs, b) && forall f :: f in filled <==> f in gs
    ensures a == b
  {
  }

  // ---------------------------------------------------------------- in the fields of slots

  /** The slot makes its widget unresolved: it is ambiguous, or missing or incompatible, and does not
      ask for being omitted then; one that may be empty need not ask. */
  predicate Breaks(f: Filled) {
    || (f.result.status == SlotAmbiguous && f.slot.onAmbiguous !in {"omit_slot", "omit_widget"})
    || (f.result.status in {SlotMissing, SlotIncompatible} && f.slot.onMissing !in {"omit_slot", "omit_widget"}
        && !(f.slot.onMissing == "" && f.slot.min == 0))
  }

  /** The slot takes its widget away. */
  predicate Removes(f: Filled) {
    || (f.result.status == SlotAmbiguous && f.slot.onAmbiguous == "omit_widget")
    || (f.result.status in {SlotMissing, SlotIncompatible} && f.slot.onMissing == "omit_widget")
  }

  /** No slot of the widget has a source. */
  ghost predicate Sourceless(filled: seq<Filled>) {
    forall f :: f in filled && f.result.status == SlotResolved ==> f.result.selected == []
  }

  /** What the status of a widget says about its slots. */
  ghost predicate Means(status: WidgetStatus, filled: seq<Filled>) {
    && (status == WidgetUnresolved <==> exists f :: f in filled && Breaks(f))
    && (status == WidgetOmitted <==>
          !(exists f :: f in filled && Breaks(f)) && (Sourceless(filled) || exists f :: f in filled && Removes(f)))
    && (status == WidgetResolved <==> !Sourceless(filled) && forall f :: f in filled ==> f.result.status == SlotResolved)
  }

  lemma OutcomeIs(f: Filled)
    ensures OutcomeOf(f) == WidgetUnresolved <==> Breaks(f)
    ensures OutcomeOf(f) == WidgetOmitted <==> Removes(f)
    ensures OutcomeOf(f) == WidgetResolved <==> f.result.status == SlotResolved
    ensures Breaks(f) ==> f.result.status != SlotResolved
  {
  }

  lemma {:induction false} SourcelessIff(filled: seq<Filled>)
    ensures Sources(filled) == [] <==> Sourceless(filled)
    decreases |filled|
  {
    if filled != [] {
      var init, last := filled[..|filled| - 1], filled[|filled| - 1];
      SourcelessIff(init);
      assert filled == init + [last];
      assert last in filled;
    }
  }

  /** A widget is unresolved if and only if some slot breaks it; otherwise omitted if and only if some
      slot takes it away or none has a source; and resolved if and only if all its slots are and there
      are sources.  What remains is partial. */
  lemma StatusMeans(filled: seq<Filled>)
    ensures Means(StatusOf(filled), filled)
  {
    WorstIs(filled);
    SourcelessIff(filled);
    forall f: Filled
      ensures OutcomeOf(f) == WidgetUnresolved <==> Breaks(f)
      ensures OutcomeOf(f) == WidgetOmitted <==> Removes(f)
      ensures OutcomeOf(f) == WidgetResolved <==> f.result.status == SlotResolved
    {
      OutcomeIs(f);
    }
    hide OutcomeOf, Breaks, Removes, Worst, Sources, Sourceless;
    WorstCases(filled, Worst(filled));
  }

  lemma WorstCases(filled: seq<Filled>, worst: WidgetStatus)
    requires IsWorst(filled, worst)
    ensures worst == WidgetUnresolved <==> exists f :: f in filled && OutcomeOf(f) == WidgetUnresolved
    ensures worst != WidgetUnresolved ==> (worst == WidgetOmitted <==> exists f :: f in filled && OutcomeOf(f) == WidgetOmitted)
    ensures worst == WidgetResolved <==> forall f :: f in filled ==> OutcomeOf(f) == WidgetResolved
  {
    hide OutcomeOf;
  }

  /** Results of slots that are resolved select something. */
  ghost predicate Selects(f: Filled) {
    f.result.status == SlotResolved ==> f.result.selected != []
  }

  lemma {:induction false} SourcesEmptyIff(filled: seq<Filled>)
    requires forall f :: f in filled ==> Selects(f)
    ensures Sources(filled) == [] <==> forall f :: f in filled ==> f.result.status != SlotResolved
    decreases |filled|
  {
    if filled != [] {
      var init, last := filled[..|filled| - 1], filled[|filled| - 1];
      SourcesEmptyIff(init);
      assert filled == init + [last];
      assert last in filled;
    }
  }

  /** The status of a widget depends only on what became of its slots, not on their order. */
  lemma StatusIgnoresOrder(filled: seq<Filled>, gs: seq<Filled>)
    requires (forall f :: f in filled <==> f in gs) && forall f :: f in filled ==> Selects(f)
    ensures StatusOf(filled) == StatusOf(gs)
  {
    hide Sources, Worst, Selects;
    WorstIs(filled);
    WorstIs(gs);
    WorstIsUnique(filled, gs, Worst(filled), Worst(gs));
    SourcesEmptyIff(filled);
    SourcesEmptyIff(gs);
  }

  /** Whatever resolves a slot, automatically or by an override, selects a number of sources
      within its cardinality, and at least one. */
  lemma FillSelects(widget: string, slot: Slot, catalog: seq<Item>, overrides: map<string, Override>)
    requires Fill(widget, slot, catalog, overrides).Some?
    requires forall key :: key in overrides ==> overrides[key].sources != []
    ensures var r := Fill(widget, slot, catalog, overrides).value;
            r.status == SlotResolved ==> 1 <= |r.selected| && slot.min <= |r.selected| <= slot.max
  {
    var key := Key(widget, slot.id);
    ResolvedIff(widget, slot, catalog);
    if key in overrides {
      SortKeepsElements(WithRole(overrides[key].sources, slot.role), SourceLess);
    }
    hide Best, Sort, Key, StatusFor, SlotOf;
  }

  /** Filling all slots fills each of them. */
  lemma {:induction false} FillEach(widget: string, slots: seq<Slot>, catalog: seq<Item>, overrides: map<string, Override>)
    ensures FillAll(widget, slots, catalog, overrides).Some?
            <==> forall i :: 0 <= i < |slots| ==> Fill(widget, slots[i], catalog, overrides).Some?
    ensures FillAll(widget, slots, catalog, overrides).Some? ==>
              forall i :: 0 <= i < |slots| ==>
                Fill(widget, slots[i], catalog, overrides) == Some(FillAll(widget, slots, catalog, overrides).value[i])
    decreases |slots|
  {
    hide Fill;
    if slots != [] {
      FillEach(widget, slots[..|slots| - 1], catalog, overrides);
    }
  }

  /** What became of the slots of a widget, without regard to their order. */
  lemma FilledAre(widget: string, slots: seq<Slot>, catalog: seq<Item>, overrides: map<string, Override>, f: Filled)
    requires FillAll(widget, slots, catalog, overrides).Some?
    ensures f in Zip(slots, FillAll(widget, slots, catalog, overrides).value)
            <==> f.slot in slots && Fill(widget, f.slot, catalog, overrides) == Some(f.result)
  {
    hide Fill, FillAll;
    FillEach(widget, slots, catalog, overrides);
    var results := FillAll(widget, slots, catalog, overrides).value;
    if f.slot in slots && Fill(widget, f.slot, catalog, overrides) == Some(f.result) {
      var i :| 0 <= i < |slots| && slots[i] == f.slot;
      assert Zip(slots, results)[i] == f;
    }
    if f in Zip(slots, results) {
      var i :| 0 <= i < |slots| && Zip(slots, results)[i] == f;
      assert slots[i] == f.slot;
    }
  }

  /** Listing the slots of a widget in another order gives the same status. */
  lemma {:induction false} SlotOrderIsIrrelevant(widget: string, slots: seq<Slot>, slots': seq<Slot>, catalog: seq<Item>,
                                                 overrides: map<string, Override>)
    requires multiset(slots) == multiset(slots') && forall key :: key in overrides ==> overrides[key].sources != []
    ensures var r, r' := FillAll(widget, slots, catalog, overrides), FillAll(widget, slots', catalog, overrides);
            && (r.Some? <==> r'.Some?)
            && (r.Some? ==> StatusOf(Zip(slots, r.value)) == StatusOf(Zip(slots', r'.value)))
  {
    hide Fill, FillAll, Zip, StatusOf;
    forall s ensures s in slots <==> s in slots' {
      InMultiset(slots, s);
      InMultiset(slots', s);
    }
    FillEach(widget, slots, catalog, overrides);
    FillEach(widget, slots', catalog, overrides);
    var r, r' := FillAll(widget, slots, catalog, overrides), FillAll(widget, slots', catalog, overrides);
    SameFills(widget, slots, slots', catalog, overrides);
    if r.Some? {
      forall f ensures f in Zip(slots, r.value) <==> f in Zip(slots', r'.value) {
        FilledAre(widget, slots, catalog, overrides, f);
        FilledAre(widget, slots', catalog, overrides, f);
      }
      forall f | f in Zip(slots, r.value) ensures Selects(f) {
        FilledAre(widget, slots, catalog, overrides, f);
        FillSelects(widget, f.slot, catalog, overrides);
      }
      StatusIgnoresOrder(Zip(slots, r.value), Zip(slots', r'.value));
    }
  }

  lemma SameFills(widget: string, slots: seq<Slot>, slots': seq<Slot>, catalog: seq<Item>, overrides: map<string, Override>)
    requires forall s :: s in slots <==> s in slots'
    ensures (forall i :: 0 <= i < |slots| ==> Fill(widget, slots[i], catalog, overrides).Some?)
            <==> (forall i :: 0 <= i < |slots'| ==> Fill(widget, slots'[i], catalog, overrides).Some?)
  {
    hide Fill;
    forall i | 0 <= i < |slots| ensures slots[i] in slots' {
    }
    forall i | 0 <= i < |slots'| ensures slots'[i] in slots {
    }
  }

  // ---------------------------------------------------------------- the whole template

  datatype Resolution = Resolution(compatibility: Compatibility, kept: seq<G.Widget>, statuses: seq<WidgetStatus>, slots: seq<SlotResult>)

  /** The resolution before its widgets are packed into the grid; None if an override is refused. */
  ghost function ResolveAll(defs: seq<Definition>, catalog: seq<Item>, overrides: map<string, Override>): Option<Resolution> {
    if defs == [] then Some(Resolution(Compatible, [], [], []))
    else
      var last := defs[|defs| - 1];
      var before := ResolveAll(defs[..|defs| - 1], catalog, overrides);
      var results := FillAll(last.id, last.slots, catalog, overrides);
      if before.None? || results.None? then None
      else Some(AddWidget(before.value, last, Zip(last.slots, results.value), results.value))
  }

  function Degrade(c: Compatibility, status: WidgetStatus): Compatibility {
    match status
    case WidgetUnresolved => NotCompatible
    case WidgetResolved => c
    case _ => if c == Compatible then PartiallyCompatible else c
  }

  predicate Kept(status: WidgetStatus) {
    status.WidgetResolved? || status.WidgetPartial?
  }

  function AddWidget(before: Resolution, def: Definition, filled: seq<Filled>, results: seq<SlotResult>): Resolution {
    var status := StatusOf(filled);
    Resolution(Degrade(before.compatibility, status),
               if Kept(status) then before.kept + [G.Widget(def.id, def.position, def.size, Sources(filled))] else before.kept,
               before.statuses + [status], before.slots + results)
  }

  /** Every status says what it means of the slots of its widget, and the widgets that are resolved
      or partial are kept, with their sources. */
  lemma {:induction false} StatusesMean(defs: seq<Definition>, catalog: seq<Item>, overrides: map<string, Override>)
    requires ResolveAll(defs, catalog, overrides).Some?
    ensures var r := ResolveAll(defs, catalog, overrides).value;
            && |r.statuses| == |defs|
            && (forall i :: 0 <= i < |defs| ==>
                  var results := FillAll(defs[i].id, defs[i].slots, catalog, overrides);
                  results.Some? && Means(r.statuses[i], Zip(defs[i].slots, results.value)))
            && (forall w :: w in r.kept <==> exists i :: KeptAt(defs, r.statuses, catalog, overrides, w, i))
    decreases |defs|
  {
    hide StatusOf, Sources, FillAll, Degrade, Means, Zip, IsShown, Kept;
    if defs != [] {
      var init, def := defs[..|defs| - 1], defs[|defs| - 1];
      StatusesMean(init, catalog, overrides);
      var before := ResolveAll(init, catalog, overrides).value;
      var r := ResolveAll(defs, catalog, overrides).value;
      var results := FillAll(def.id, def.slots, catalog, overrides).value;
      var status := StatusOf(Zip(def.slots, results));
      StatusMeans(Zip(def.slots, results));
      KeptIs(status);
      assert r.statuses == before.statuses + [status];
      var shown := G.Widget(def.id, def.position, def.size, Sources(Zip(def.slots, results)));
      forall w
        ensures w in r.kept <==> w in before.kept || (Kept(status) && w == shown)
        ensures IsShown(def, catalog, overrides, w) <==> w == shown
      {
        ShownIs(def, catalog, overrides, w);
      }
      forall w ensures w in r.kept <==> exists i :: KeptAt(defs, r.statuses, catalog, overrides, w, i) {
        KeptMore(init, def, before.statuses, status, catalog, overrides, w);
        assert defs == init + [def];
      }
    }
  }

  ghost predicate KeptAt(defs: seq<Definition>, statuses: seq<WidgetStatus>, catalog: seq<Item>, overrides: map<string, Override>,
                         w: G.Widget, i: int) {
    0 <= i < |defs| && i < |statuses| && statuses[i] in {WidgetResolved, WidgetPartial} && IsShown(defs[i], catalog, overrides, w)
  }

  lemma KeptMore(defs: seq<Definition>, def: Definition, statuses: seq<WidgetStatus>, status: WidgetStatus, catalog: seq<Item>,
                 overrides: map<string, Override>, w: G.Widget)
    requires |defs| == |statuses|
    ensures (exists i :: KeptAt(defs + [def], statuses + [status], catalog, overrides, w, i))
            <==> (exists i :: KeptAt(defs, statuses, catalog, overrides, w, i))
                 || (status in {WidgetResolved, WidgetPartial} && IsShown(def, catalog, overrides, w))
  {
    hide IsShown;
    var all, more := defs + [def], statuses + [status];
    if i :| KeptAt(defs, statuses, catalog, overrides, w, i) {
      assert KeptAt(all, more, catalog, overrides, w, i);
    }
    if status in {WidgetResolved, WidgetPartial} && IsShown(def, catalog, overrides, w) {
      assert KeptAt(all, more, catalog, overrides, w, |defs|);
    }
    if i :| KeptAt(all, more, catalog, overrides, w, i) {
      assert i == |defs| || KeptAt(defs, statuses, catalog, overrides, w, i);
    }
  }

  /** The widget as defined, with the sources of its resolved slots. */
  ghost predicate IsShown(def: Definition, catalog: seq<Item>, overrides: map<string, Override>, w: G.Widget) {
    var results := FillAll(def.id, def.slots, catalog, overrides);
    results.Some? && w == G.Widget(def.id, def.position, def.size, Sources(Zip(def.slots, results.value)))
  }

  lemma ShownIs(def: Definition, catalog: seq<Item>, overrides: map<string, Override>, w: G.Widget)
    requires FillAll(def.id, def.slots, catalog, overrides).Some?
    ensures IsShown(def, catalog, overrides, w) <==>
              w == G.Widget(def.id, def.position, def.size, Sources(Zip(def.slots, FillAll(def.id, def.slots, catalog, overrides).value)))
  {
  }

  /** Compatibility is decided by the worst widget. */
  ghost predicate Summarises(c: Compatibility, statuses: seq<WidgetStatus>) {
    && (c == NotCompatible <==> WidgetUnresolved in statuses)
    && (c == Compatible <==> forall s :: s in statuses ==> s == WidgetResolved)
  }

  lemma {:induction false} CompatibilityIsWorst(defs: seq<Definition>, catalog: seq<Item>, overrides: map<string, Override>)
    requires ResolveAll(defs, catalog, overrides).Some?
    ensures var r := ResolveAll(defs, catalog, overrides).value;
            Summarises(r.compatibility, r.statuses) && |r.statuses| == |defs|
    decreases |defs|
  {
    hide StatusOf, Sources, FillAll, Degrade, Summarises;
    if defs == [] {
      NothingToSummarise();
    } else {
      CompatibilityIsWorst(defs[..|defs| - 1], catalog, overrides);
      var before := ResolveAll(defs[..|defs| - 1], catalog, overrides).value;
      var r := ResolveAll(defs, catalog, overrides).value;
      DegradeSummarises(before.compatibility, before.statuses, r.statuses[|before.statuses|]);
    }
  }

  lemma NothingToSummarise()
    ensures Summarises(Compatible, [])
  {
  }

  lemma DegradeSummarises(c: Compatibility, statuses: seq<WidgetStatus>, status: WidgetStatus)
    requires Summarises(c, statuses)
    ensures Summarises(Degrade(c, status), statuses + [status])
  {
    var all := statuses + [status];
    assert all[|statuses|] == status;
    assert status in all;
    forall s | s in statuses ensures s in all {
    }
    forall s | s in all ensures s in statuses || s == status {
    }
    if c != Compatible {
      var s :| s in statuses && s != WidgetResolved;
      assert s in all;
    }
  }

  // ---------------------------------------------------------------- catalogue order

  predicate ItemLess(a: Item, b: Item) {
    if a.kind != b.kind then StringLess(a.kind, b.kind) else StringLess(a.name, b.name)
  }

  lemma ItemLessIsOrder()
    ensures StrictOrder(ItemLess)
    ensures forall a: Item, b: Item :: a.kind != b.kind || a.name != b.name ==> ItemLess(a, b) || ItemLess(b, a)
  {
    StringLessIsOrder();
    hide StringLess;
  }

  ghost predicate DistinctNames(catalog: seq<Item>) {
    forall a, b :: a in catalog && b in catalog && a != b ==> a.kind != b.kind || a.name != b.name
  }

  function Ordered(catalog: seq<Item>): seq<Item> {
    Sort(catalog, ItemLess)
  }

  /** The catalogue is put in order before anything else, so its order makes no difference. */
  lemma CatalogOrderIsIrrelevant(a: seq<Item>, b: seq<Item>)
    requires multiset(a) == multiset(b) && DistinctNames(a)
    ensures Ordered(a) == Ordered(b)
  {
    ItemLessIsOrder();
    SortSorts(a, ItemLess);
    SortSorts(b, ItemLess);
    SortKeepsElements(a, ItemLess);
    SortKeepsElements(b, ItemLess);
    hide Sort, ItemLess, StrictOrder;
    var x, y := Ordered(a), Ordered(b);
    forall p, q | p in x && q in x && p != q ensures ItemLess(p, q) || ItemLess(q, p) {
      InMultiset(x, p);
      InMultiset(x, q);
      InMultiset(a, p);
      InMultiset(a, q);
    }
    SortedIsUnique(x, y, ItemLess);
  }

  /** All slots of the template, by key. */
  ghost predicate NamesSlot(defs: seq<Definition>, key: string) {
    exists i, k :: 0 <= i < |defs| && 0 <= k < |defs[i].slots| && Key(defs[i].id, defs[i].slots[k].id) == key
  }

  /** The resolution of a template, or None for an error about its overrides. */
  ghost function Resolve(defs: seq<Definition>, catalog: seq<Item>, overrides: seq<Override>): Option<Resolution> {
    if !OverridesFormed(overrides) || exists o :: o in overrides && !NamesSlot(defs, OverrideKey(o)) then None
    else ResolveAll(defs, Ordered(catalog), ByKey(overrides))
  }

  /** Resolution does not depend on the order of the catalogue. */
  lemma ResolutionIgnoresCatalogOrder(defs: seq<Definition>, a: seq<Item>, b: seq<Item>, overrides: seq<Override>)
    requires multiset(a) == multiset(b) && DistinctNames(a)
    ensures Resolve(defs, a, overrides) == Resolve(defs, b, overrides)
  {
    CatalogOrderIsIrrelevant(a, b);
    hide Ordered, ResolveAll, NamesSlot, OverridesFormed;
  }

  // ---------------------------------------------------------------- the program

  method CountMatches(tags: seq<string>, expected: seq<string>) returns (count: nat)
    ensures count == Score(tags, expected)
  {
    count := 0;
    for i := 0 to |expected|
      invariant count == Score(tags, expected[..i])
    {
      assert expected[..i + 1][..i] == expected[..i];
      if expected[i] in tags {
        count := count + 1;
      }
    }
    assert expected[..|expected|] == expected;
  }

  /** Nothing scores above the best score. */
  lemma {:induction false} NoneAbove(catalog: seq<Item>, slot: Slot, score: int)
    requires score > BestScore(catalog, slot)
    ensures WithScore(catalog, slot, score) == []
    decreases |catalog|
  {
    if catalog != [] {
      NoneAbove(catalog[..|catalog| - 1], slot, score);
    }
  }

  /** One pass over the catalogue, starting over whenever a better score turns up. */
  method ResolveSlot(widget: string, slot: Slot, catalog: seq<Item>) returns (r: SlotResult)
    ensures r == SlotOf(widget, slot, catalog)
  {
    var tagged := false;
    var compatible: seq<Item> := [];
    var bestScore: int := -1;
    for i := 0 to |catalog|
      invariant tagged == AnyHasTags(catalog[..i], slot)
      invariant bestScore == BestScore(catalog[..i], slot) && bestScore >= -1
      invariant compatible == WithScore(catalog[..i], slot, bestScore)
    {
      hide HasTags, ScoreOf, WithScore, BestScore;
      var source := catalog[i];
      assert catalog[..i + 1][..i] == catalog[..i] && catalog[..i + 1][i] == source;
      TaggedMore(catalog[..i], source, slot);
      assert catalog[..i + 1] == catalog[..i] + [source];
      BestMore(catalog[..i], source, slot);
      if HasTags(source, slot.required) {
        tagged := true;
        if source.kind in slot.kinds {
          var score := CountMatches(source.tags, slot.optional);
          ScoreOfIs(source, slot);
          if score > bestScore {
            NoneAbove(catalog[..i], slot, score);
            compatible, bestScore := [], score;
          }
          WithScoreMore(catalog[..i], source, slot, bestScore);
          if score == bestScore {
            compatible := compatible + [source];
          }
        } else {
          WithScoreMore(catalog[..i], source, slot, bestScore);
        }
      } else {
        WithScoreMore(catalog[..i], source, slot, bestScore);
      }
    }
    assert catalog[..|catalog|] == catalog;
    var candidates := References(compatible, slot.role);
    var status := StatusFor(slot, tagged, |compatible|);
    r := SlotResult(widget, slot.id, status, candidates, if status == SlotResolved then candidates else []);
  }

  lemma ScoreOfIs(item: Item, slot: Slot)
    ensures ScoreOf(item, slot) == Score(item.tags, slot.optional)
  {
  }

  lemma TaggedMore(catalog: seq<Item>, item: Item, slot: Slot)
    ensures AnyHasTags(catalog + [item], slot) <==> AnyHasTags(catalog, slot) || HasTags(item, slot.required)
  {
    hide HasTags;
    var all := catalog + [item];
    if AnyHasTags(catalog, slot) {
      var i :| 0 <= i < |catalog| && HasTags(catalog[i], slot.required);
      assert HasTags(all[i], slot.required);
    }
    assert all[|catalog|] == item;
  }

  lemma BestMore(catalog: seq<Item>, item: Item, slot: Slot)
    ensures BestScore(catalog + [item], slot)
            == if Eligible(item, slot) && ScoreOf(item, slot) > BestScore(catalog, slot) then ScoreOf(item, slot)
               else BestScore(catalog, slot)
  {
  }

  lemma WithScoreMore(catalog: seq<Item>, item: Item, slot: Slot, score: int)
    ensures WithScore(catalog + [item], slot, score)
            == WithScore(catalog, slot, score) + (if Eligible(item, slot) && ScoreOf(item, slot) == score then [item] else [])
  {
  }

  /** Checks an override against the candidates of its slot. */
  method ValidateOverride(slot: Slot, candidates: seq<G.Source>, requested: seq<G.Source>) returns (selected: Option<seq<G.Source>>)
    ensures selected.Some? <==> OverrideFits(slot, candidates, requested)
    ensures selected.Some? ==> selected.value == Sort(WithRole(requested, slot.role), SourceLess)
  {
    if |requested| < slot.min || |requested| > slot.max {
      return None;
    }
    var available: set<string> := set c | c in candidates :: SourceKey(c);
    var seen: set<string> := {};
    var chosen: seq<G.Source> := [];
    for i := 0 to |requested|
      invariant chosen == WithRole(requested[..i], slot.role)
      invariant forall k :: 0 <= k < i ==> SourceKey(requested[k]) in available
      invariant forall key :: key in seen <==> exists k :: 0 <= k < i && SourceKey(requested[k]) == key
      invariant forall j, k :: 0 <= j < k < i ==> SourceKey(requested[j]) != SourceKey(requested[k])
    {
      hide SourceKey;
      var key := SourceKey(requested[i]);
      if key !in available || key in seen {
        return None;
      }
      seen := seen + {key};
      chosen := chosen + [requested[i].(role := slot.role)];
    }
    assert requested[..|requested|] == requested;
    return Some(Sort(chosen, SourceLess));
  }

  lemma {:induction false} ByKeyHas(overrides: seq<Override>, key: string)
    ensures key in ByKey(overrides) <==> exists i :: 0 <= i < |overrides| && OverrideKey(overrides[i]) == key
    ensures key in ByKey(overrides) ==> ByKey(overrides)[key] in overrides && OverrideKey(ByKey(overrides)[key]) == key
    decreases |overrides|
  {
    hide OverrideKey;
    if overrides != [] {
      var init, last := overrides[..|overrides| - 1], overrides[|overrides| - 1];
      ByKeyHas(init, key);
      assert overrides == init + [last];
    }
  }

  /** Indexes the overrides by slot; None if one is malformed or repeats a slot. */
  method IndexOverrides(overrides: seq<Override>) returns (bySlot: Option<map<string, Override>>)
    ensures bySlot.Some? <==> OverridesFormed(overrides)
    ensures bySlot.Some? ==> bySlot.value == ByKey(overrides)
  {
    var index: map<string, Override> := map[];
    for i := 0 to |overrides|
      invariant OverridesFormed(overrides[..i]) && index == ByKey(overrides[..i])
    {
      hide OverrideFormed, OverrideKey, ByKey;
      var o := overrides[i];
      var key := OverrideKey(o);
      assert overrides[..i + 1] == overrides[..i] + [o];
      ByKeyHas(overrides[..i], key);
      ByKeyMore(overrides[..i], o);
      if !OverrideFormed(o) || key in index {
        FormedMore(overrides, i);
        return None;
      }
      index := index[key := o];
    }
    assert overrides[..|overrides|] == overrides;
    return Some(index);
  }

  lemma ByKeyMore(overrides: seq<Override>, o: Override)
    ensures ByKey(overrides + [o]) == ByKey(overrides)[OverrideKey(o) := o]
  {
  }

  lemma FormedMore(overrides: seq<Override>, i: nat)
    requires i < |overrides|
    requires !OverrideFormed(overrides[i]) || exists k :: 0 <= k < i && OverrideKey(overrides[..i][k]) == OverrideKey(overrides[i])
    ensures !OverridesFormed(overrides)
  {
  }

  /** Resolves one slot and applies its override, if there is one. */
  method FillSlot(widget: string, slot: Slot, catalog: seq<Item>, overrides: map<string, Override>) returns (filled: Option<SlotResult>)
    ensures filled == Fill(widget, slot, catalog, overrides)
  {
    hide SlotOf, OverrideFits, Sort, Key;
    var r := ResolveSlot(widget, slot, catalog);
    var key := Key(widget, slot.id);
    if key in overrides {
      var selected := ValidateOverride(slot, r.candidates, overrides[key].sources);
      if selected.None? {
        return None;
      }
      r := r.(status := SlotResolved, selected := selected.value);
    }
    return Some(r);
  }

  /** What an unresolved slot does to the status of its widget and to whether it is shown. */
  method Worsen(slot: Slot, slotStatus: SlotStatus, status: WidgetStatus, omit: bool) returns (status': WidgetStatus, omit': bool)
    requires slotStatus != SlotResolved && omit == !Kept(status)
    ensures status' == Worse(status, Outcome(slot, slotStatus)) && omit' == !Kept(status')
  {
    status', omit' := status, omit;
    var behaviour := slot.onMissing;
    if slotStatus == SlotAmbiguous {
      behaviour := slot.onAmbiguous;
    }
    if behaviour == "" {
      if slotStatus != SlotAmbiguous && slot.min == 0 {
        behaviour := "omit_slot";
      } else {
        behaviour := "error";
      }
    }
    assert behaviour == Behaviour(slot, slotStatus);
    hide Behaviour;
    if behaviour == "omit_slot" {
      if status' == WidgetResolved {
        status' := WidgetPartial;
      }
    } else if behaviour == "omit_widget" {
      if status' != WidgetUnresolved {
        status' := WidgetOmitted;
      }
      omit' := true;
    } else {
      status', omit' := WidgetUnresolved, true;
    }
  }

  function UsedKeys(widget: string, slots: seq<Slot>, overrides: map<string, Override>): set<string> {
    set k | 0 <= k < |slots| && Key(widget, slots[k].id) in overrides :: Key(widget, slots[k].id)
  }

  lemma UsedMore(widget: string, slots: seq<Slot>, slot: Slot, overrides: map<string, Override>)
    ensures UsedKeys(widget, slots + [slot], overrides)
            == UsedKeys(widget, slots, overrides) + (if Key(widget, slot.id) in overrides then {Key(widget, slot.id)} else {})
  {
    hide Key;
    var all := slots + [slot];
    forall key | key in UsedKeys(widget, slots, overrides) ensures key in UsedKeys(widget, all, overrides) {
      var k :| 0 <= k < |slots| && Key(widget, slots[k].id) in overrides && Key(widget, slots[k].id) == key;
      assert Key(widget, all[k].id) == key;
    }
    assert all[|slots|] == slot;
  }

  /** Resolves the slots of one widget; None if an override does not fit. */
  method ResolveSlots(def: Definition, catalog: seq<Item>, overrides: map<string, Override>)
      returns (results: Option<seq<SlotResult>>, sources: seq<G.Source>, status: WidgetStatus, omit: bool, used: set<string>)
    ensures results == FillAll(def.id, def.slots, catalog, overrides)
    ensures results.Some? ==>
              var filled := Zip(def.slots, results.value);
              sources == Sources(filled) && status == StatusOf(filled) && omit == !Kept(status)
    ensures results.Some? ==> Means(status, Zip(def.slots, results.value)) && omit == (status in {WidgetOmitted, WidgetUnresolved})
    ensures results.Some? ==> used == UsedKeys(def.id, def.slots, overrides)
  {
    var done: seq<SlotResult> := [];
    sources, status, omit, used := [], WidgetResolved, false, {};
    assert def.slots[..0] == [];
    NothingFilled(def.id, catalog, overrides);
    hide FilledSoFar, FillAll, Fill, Key, Worse, Outcome, Kept, StatusOf;
    for i := 0 to |def.slots|
      invariant FilledSoFar(def.id, def.slots[..i], catalog, overrides, done, sources, status, omit, used)
    {
      var slot := def.slots[i];
      ghost var before := def.slots[..i];
      assert def.slots[..i + 1] == before + [slot];
      var r := FillSlot(def.id, slot, catalog, overrides);
      if r.None? {
        RefusedSoFar(def.id, before, slot, catalog, overrides, done, sources, status, omit, used);
        FillPrefix(def.id, def.slots, i + 1, catalog, overrides);
        return None, [], WidgetResolved, false, {};
      }
      var usedMore := if Key(def.id, slot.id) in overrides then used + {Key(def.id, slot.id)} else used;
      var sourcesMore, statusMore, omitMore := sources, status, omit;
      if r.value.status == SlotResolved {
        ResolvedIsBest(status, slot);
        OmittedSoFar(def.id, before, catalog, overrides, done, sources, status, omit, used);
        sourcesMore := sources + r.value.selected;
      } else {
        OmittedSoFar(def.id, before, catalog, overrides, done, sources, status, omit, used);
        statusMore, omitMore := Worsen(slot, r.value.status, status, omit);
      }
      OneMoreSlot(def.id, before, slot, catalog, overrides, done, r.value, sources, sourcesMore, status, statusMore,
                  omit, omitMore, used, usedMore);
      done, sources, status, omit, used := done + [r.value], sourcesMore, statusMore, omitMore, usedMore;
    }
    assert def.slots[..|def.slots|] == def.slots;
    AllFilled(def.id, def.slots, catalog, overrides, done, sources, status, omit, used);
    if sources == [] && status != WidgetUnresolved {
      status, omit := WidgetOmitted, true;
    }
    results := Some(done);
    StatusMeans(Zip(def.slots, done));
    KeptIs(status);
    hide *;
  }

  lemma KeptIs(status: WidgetStatus)
    ensures Kept(status) <==> status !in {WidgetOmitted, WidgetUnresolved}
    ensures Kept(status) <==> status in {WidgetResolved, WidgetPartial}
  {
  }

  /** The state of the loop over the slots of a widget. */
  ghost predicate FilledSoFar(widget: string, slots: seq<Slot>, catalog: seq<Item>, overrides: map<string, Override>,
                              done: seq<SlotResult>, sources: seq<G.Source>, status: WidgetStatus, omit: bool, used: set<string>) {
    && FillAll(widget, slots, catalog, overrides) == Some(done) && |done| == |slots|
    && sources == Sources(Zip(slots, done)) && status == Worst(Zip(slots, done))
    && omit == !Kept(status) && used == UsedKeys(widget, slots, overrides)
  }

  lemma NothingFilled(widget: string, catalog: seq<Item>, overrides: map<string, Override>)
    ensures FilledSoFar(widget, [], catalog, overrides, [], [], WidgetResolved, false, {})
  {
  }

  lemma AllFilled(widget: string, slots: seq<Slot>, catalog: seq<Item>, overrides: map<string, Override>,
                  done: seq<SlotResult>, sources: seq<G.Source>, status: WidgetStatus, omit: bool, used: set<string>)
    requires FilledSoFar(widget, slots, catalog, overrides, done, sources, status, omit, used)
    ensures FillAll(widget, slots, catalog, overrides) == Some(done) && |done| == |slots| && used == UsedKeys(widget, slots, overrides)
    ensures sources == Sources(Zip(slots, done)) && omit == !Kept(status)
    ensures StatusOf(Zip(slots, done)) == if sources == [] && status != WidgetUnresolved then WidgetOmitted else status
    ensures !Kept(WidgetOmitted)
  {
    hide FillAll;
  }

  lemma OmittedSoFar(widget: string, slots: seq<Slot>, catalog: seq<Item>, overrides: map<string, Override>,
                     done: seq<SlotResult>, sources: seq<G.Source>, status: WidgetStatus, omit: bool, used: set<string>)
    requires FilledSoFar(widget, slots, catalog, overrides, done, sources, status, omit, used)
    ensures omit == !Kept(status)
  {
  }

  lemma RefusedSoFar(widget: string, slots: seq<Slot>, slot: Slot, catalog: seq<Item>, overrides: map<string, Override>,
                     done: seq<SlotResult>, sources: seq<G.Source>, status: WidgetStatus, omit: bool, used: set<string>)
    requires FilledSoFar(widget, slots, catalog, overrides, done, sources, status, omit, used)
    requires Fill(widget, slot, catalog, overrides).None?
    ensures FillAll(widget, slots + [slot], catalog, overrides).None?
  {
  }

  lemma OneMoreSlot(widget: string, slots: seq<Slot>, slot: Slot, catalog: seq<Item>, overrides: map<string, Override>,
                    done: seq<SlotResult>, r: SlotResult, sources: seq<G.Source>, sources': seq<G.Source>,
                    status: WidgetStatus, status': WidgetStatus, omit: bool, omit': bool, used: set<string>, used': set<string>)
    requires FilledSoFar(widget, slots, catalog, overrides, done, sources, status, omit, used)
    requires Fill(widget, slot, catalog, overrides) == Some(r)
    requires sources' == sources + (if r.status == SlotResolved then r.selected else [])
    requires status' == Worse(status, Outcome(slot, r.status)) && omit' == !Kept(status')
    requires used' == used + (if Key(widget, slot.id) in overrides then {Key(widget, slot.id)} else {})
    ensures FilledSoFar(widget, slots + [slot], catalog, overrides, done + [r], sources', status', omit', used')
  {
    hide FillAll, Fill, Sources, Worst, Zip, Key, UsedKeys, Outcome, Worse, Kept;
    FillMore(widget, slots, slot, catalog, overrides);
    ZipMore(slots, done, slot, r);
    UsedMore(widget, slots, slot, overrides);
  }

  lemma ResolvedIsBest(status: WidgetStatus, slot: Slot)
    ensures Worse(status, Outcome(slot, SlotResolved)) == status
  {
  }

  lemma FillMore(widget: string, slots: seq<Slot>, slot: Slot, catalog: seq<Item>, overrides: map<string, Override>)
    ensures FillAll(widget, slots + [slot], catalog, overrides)
            == var before, last := FillAll(widget, slots, catalog, overrides), Fill(widget, slot, catalog, overrides);
               if before.Some? && last.Some? then Some(before.value + [last.value]) else None
  {
  }

  lemma {:induction false} FillPrefix(widget: string, slots: seq<Slot>, n: nat, catalog: seq<Item>, overrides: map<string, Override>)
    requires n <= |slots| && FillAll(widget, slots[..n], catalog, overrides).None?
    ensures FillAll(widget, slots, catalog, overrides).None?
    decreases |slots| - n
  {
    hide Fill;
    if n == |slots| {
      assert slots[..n] == slots;
    } else {
      assert slots[..n + 1][..n] == slots[..n];
      FillPrefix(widget, slots, n + 1, catalog, overrides);
    }
  }

  lemma ZipMore(slots: seq<Slot>, results: seq<SlotResult>, slot: Slot, r: SlotResult)
    requires |slots| == |results|
    ensures Sources(Zip(slots + [slot], results + [r]))
            == Sources(Zip(slots, results)) + (if r.status == SlotResolved then r.selected else [])
    ensures Worst(Zip(slots + [slot], results + [r])) == Worse(Worst(Zip(slots, results)), Outcome(slot, r.status))
  {
    hide Outcome;
    assert Zip(slots + [slot], results + [r])[..|slots|] == Zip(slots, results);
  }

  // ---------------------------------------------------------------- the loop over the widgets

  ghost predicate Uses(used: set<string>, defs: seq<Definition>, overrides: map<string, Override>) {
    forall key :: key in used <==> key in overrides && NamesSlot(defs, key)
  }

  lemma UsesMore(used: set<string>, defs: seq<Definition>, def: Definition, overrides: map<string, Override>)
    requires Uses(used, defs, overrides)
    ensures Uses(used + UsedKeys(def.id, def.slots, overrides), defs + [def], overrides)
  {
    forall key
      ensures NamesSlot(defs + [def], key)
              <==> NamesSlot(defs, key) || exists k :: 0 <= k < |def.slots| && Key(def.id, def.slots[k].id) == key
    {
      NamesMore(defs, def, key);
    }
    hide NamesSlot, Key;
  }

  lemma NamesMore(defs: seq<Definition>, def: Definition, key: string)
    ensures NamesSlot(defs + [def], key)
            <==> NamesSlot(defs, key) || exists k :: 0 <= k < |def.slots| && Key(def.id, def.slots[k].id) == key
  {
    hide Key;
    var all := defs + [def];
    if NamesSlot(defs, key) {
      var i, k :| 0 <= i < |defs| && 0 <= k < |defs[i].slots| && Key(defs[i].id, defs[i].slots[k].id) == key;
      assert all[i] == defs[i];
    }
    if k :| 0 <= k < |def.slots| && Key(def.id, def.slots[k].id) == key {
      assert all[|defs|] == def;
    }
  }

  lemma ResolveMore(defs: seq<Definition>, def: Definition, catalog: seq<Item>, overrides: map<string, Override>)
    ensures ResolveAll(defs + [def], catalog, overrides)
            == var before, results := ResolveAll(defs, catalog, overrides), FillAll(def.id, def.slots, catalog, overrides);
               if before.None? || results.None? then None
               else Some(AddWidget(before.value, def, Zip(def.slots, results.value), results.value))
  {
  }

  lemma {:induction false} ResolvePrefix(defs: seq<Definition>, n: nat, catalog: seq<Item>, overrides: map<string, Override>)
    requires n <= |defs| && ResolveAll(defs[..n], catalog, overrides).None?
    ensures ResolveAll(defs, catalog, overrides).None?
    decreases |defs| - n
  {
    if n == |defs| {
      assert defs[..n] == defs;
    } else {
      assert defs[..n + 1] == defs[..n] + [defs[n]];
      ResolveMore(defs[..n], defs[n], catalog, overrides);
      hide ResolveAll;
      ResolvePrefix(defs, n + 1, catalog, overrides);
    }
  }

  lemma NothingResolved(catalog: seq<Item>, overrides: map<string, Override>)
    ensures ResolveAll([], catalog, overrides) == Some(Resolution(Compatible, [], [], [])) && Uses({}, [], overrides)
  {
  }

  lemma SameSizeSubset(a: set<string>, b: set<string>)
    requires a <= b
    ensures |a| == |b| <==> a == b
  {
    assert b == a + (b - a);
    assert |b| == |a| + |b - a|;
  }

  /** The overrides used are all the overrides exactly when every override names a slot. */
  lemma AllUsedIff(used: set<string>, defs: seq<Definition>, overrides: seq<Override>)
    requires Uses(used, defs, ByKey(overrides))
    ensures |used| == |ByKey(overrides)| <==> forall o :: o in overrides ==> NamesSlot(defs, OverrideKey(o))
  {
    var keys := ByKey(overrides).Keys;
    SameSizeSubset(used, keys);
    assert |keys| == |ByKey(overrides)|;
    hide NamesSlot, OverrideKey, ByKey;
    forall o | o in overrides ensures OverrideKey(o) in ByKey(overrides) {
      ByKeyHas(overrides, OverrideKey(o));
    }
    forall key | key in ByKey(overrides) ensures exists o :: o in overrides && OverrideKey(o) == key {
      ByKeyHas(overrides, key);
    }
  }

  lemma KeptSizes(defs: seq<Definition>, catalog: seq<Item>, overrides: map<string, Override>)
    requires forall i :: 0 <= i < |defs| ==> G.SizeOk(defs[i].size)
    requires ResolveAll(defs, catalog, overrides).Some?
    ensures forall w :: w in ResolveAll(defs, catalog, overrides).value.kept ==> G.SizeOk(w.size)
    decreases |defs|
  {
    hide StatusOf, Sources, FillAll, G.SizeOk, Degrade;
    if defs != [] {
      KeptSizes(defs[..|defs| - 1], catalog, overrides);
    }
  }

  /** Adds a resolved widget: compatibility may only get worse, and an omitted widget is not kept. */
  method Extend(before: Resolution, def: Definition, sources: seq<G.Source>, status: WidgetStatus, omit: bool, results: seq<SlotResult>)
      returns (after: Resolution)
    requires |results| == |def.slots| && omit == !Kept(status)
    requires var filled := Zip(def.slots, results); sources == Sources(filled) && status == StatusOf(filled)
    ensures after == AddWidget(before, def, Zip(def.slots, results), results)
  {
    hide Zip, Sources, StatusOf;
    var compatibility := before.compatibility;
    if status == WidgetUnresolved {
      compatibility := NotCompatible;
    } else if status == WidgetPartial || status == WidgetOmitted {
      if compatibility == Compatible {
        compatibility := PartiallyCompatible;
      }
    }
    var kept := before.kept;
    if !omit {
      kept := kept + [G.Widget(def.id, def.position, def.size, sources)];
    }
    after := Resolution(compatibility, kept, before.statuses + [status], before.slots + results);
  }

  /** Resolves a template: None if its overrides are in error, otherwise the resolution and
      the kept widgets packed into the grid. */
  method ResolveTemplate(defs: seq<Definition>, catalog: seq<Item>, overrides: seq<Override>)
      returns (r: Option<Resolution>, widgets: seq<G.Widget>)
    requires forall i :: 0 <= i < |defs| ==> G.SizeOk(defs[i].size)
    ensures r == Resolve(defs, catalog, overrides)
    ensures r.Some? ==> G.Packed(Sort(r.value.kept, G.ReadsBefore), widgets)
  {
    hide ResolveAll, Uses, FillAll, Zip, StatusOf, Sources, UsedKeys, NamesSlot, G.SizeOk, OverridesFormed, Ordered, ByKey, AddWidget,
         OverrideKey, G.Packed;
    var ordered := Ordered(catalog);
    var bySlot := IndexOverrides(overrides);
    if bySlot.None? {
      return None, [];
    }
    var used: set<string> := {};
    var result := Resolution(Compatible, [], [], []);
    assert defs[..0] == [];
    NothingResolved(ordered, bySlot.value);
    for i := 0 to |defs|
      invariant ResolveAll(defs[..i], ordered, bySlot.value) == Some(result)
      invariant Uses(used, defs[..i], bySlot.value)
    {
      var def := defs[i];
      assert defs[..i + 1] == defs[..i] + [def];
      ResolveMore(defs[..i], def, ordered, bySlot.value);
      UsesMore(used, defs[..i], def, bySlot.value);
      var results, sources, status, omit, usedHere := ResolveSlots(def, ordered, bySlot.value);
      if results.None? {
        ResolvePrefix(defs, i + 1, ordered, bySlot.value);
        return None, [];
      }
      used := used + usedHere;
      result := Extend(result, def, sources, status, omit, results.value);
    }
    assert defs[..|defs|] == defs;
    AllUsedIff(used, defs, overrides);
    if |used| != |bySlot.value| {
      return None, [];
    }
    KeptSizes(defs, ordered, bySlot.value);
    widgets := G.CompactWidgets(result.kept);
    r := Some(result);
  }

  // ---------------------------------------------------------------- the order of what is offered

  /** By kind, then by name. */
  ghost predicate NotAfter(kind: string, name: string, kind': string, name': string) {
    if kind == kind' then !Earlier(name', name) else Earlier(kind, kind')
  }

  /** The catalogue is searched by kind and then by name. */
  lemma CatalogIsOrdered(catalog: seq<Item>, i: nat, k: nat)
    requires i < k < |Ordered(catalog)|
    ensures multiset(Ordered(catalog)) == multiset(catalog)
    ensures var a, b := Ordered(catalog)[i], Ordered(catalog)[k]; NotAfter(a.kind, a.name, b.kind, b.name)
  {
    ItemLessIsOrder();
    SortSorts(catalog, ItemLess);
    SortKeepsElements(catalog, ItemLess);
    var a, b := Ordered(catalog)[i], Ordered(catalog)[k];
    hide Sort, StrictOrder, Earlier, StringLess;
    assert !ItemLess(b, a);
    StringLessIff(b.kind, a.kind);
    StringLessIff(a.kind, b.kind);
    StringLessIff(b.name, a.name);
    StringLessTotal(a.kind, b.kind);
  }

  /** An override selects what it names, all with the role of the slot, in that order. */
  lemma OverrideSelects(widget: string, slot: Slot, catalog: seq<Item>, overrides: map<string, Override>, i: nat, k: nat)
    requires Key(widget, slot.id) in overrides && Fill(widget, slot, catalog, overrides).Some?
    requires i < k < |Fill(widget, slot, catalog, overrides).value.selected|
    ensures var r, named := Fill(widget, slot, catalog, overrides).value, overrides[Key(widget, slot.id)].sources;
            && r.status == SlotResolved && |r.selected| == |named|
            && NotAfter(r.selected[i].kind, r.selected[i].name, r.selected[k].kind, r.selected[k].name)
            && r.selected[i].role == slot.role == r.selected[k].role
            && multiset(r.selected) == multiset(WithRole(named, slot.role))
  {
    var named := WithRole(overrides[Key(widget, slot.id)].sources, slot.role);
    SourceLessIsOrder();
    SortSorts(named, SourceLess);
    SortKeepsElements(named, SourceLess);
    hide Key, SlotOf, OverrideFits, Sort, StrictOrder, Earlier, StringLess;
    var selected := Sort(named, SourceLess);
    var a, b := selected[i], selected[k];
    assert !SourceLess(b, a);
    StringLessIff(b.kind, a.kind);
    StringLessIff(a.kind, b.kind);
    StringLessIff(b.name, a.name);
    StringLessTotal(a.kind, b.kind);
    InMultiset(selected, a);
    InMultiset(selected, b);
    InMultiset(named, a);
    InMultiset(named, b);
  }

  lemma SourceLessIsOrder()
    ensures StrictOrder(SourceLess)
  {
    StringLessIsOrder();
    hide StringLess;
  }

  // ---------------------------------------------------------------- when overrides are in error

  lemma {:induction false} ResolvesIff(defs: seq<Definition>, catalog: seq<Item>, overrides: map<string, Override>)
    ensures ResolveAll(defs, catalog, overrides).Some?
            <==> forall i :: 0 <= i < |defs| ==> FillAll(defs[i].id, defs[i].slots, catalog, overrides).Some?
    decreases |defs|
  {
    hide FillAll, AddWidget;
    if defs != [] {
      ResolvesIff(defs[..|defs| - 1], catalog, overrides);
    }
  }

  /** A source of that kind and name is offered. */
  ghost predicate Offers(offered: seq<G.Source>, wanted: G.Source) {
    exists c :: c in offered && c.kind + "\0" + c.name == wanted.kind + "\0" + wanted.name
  }

  /** Different candidates, as many as the slot takes. */
  ghost predicate Fitting(slot: Slot, offered: seq<G.Source>, requested: seq<G.Source>) {
    && slot.min <= |requested| <= slot.max
    && (forall i :: 0 <= i < |requested| ==> Offers(offered, requested[i]))
    && (forall i, k :: 0 <= i < k < |requested| ==>
          requested[i].kind + "\0" + requested[i].name != requested[k].kind + "\0" + requested[k].name)
  }

  lemma OffersIff(offered: seq<G.Source>, wanted: G.Source)
    ensures Offers(offered, wanted) <==> Offered(offered, wanted)
  {
  }

  lemma SameSourceIff(a: G.Source, b: G.Source)
    ensures SourceKey(a) == SourceKey(b) <==> a.kind + "\0" + a.name == b.kind + "\0" + b.name
  {
  }

  lemma DifferIff(requested: seq<G.Source>)
    ensures (forall i, k :: 0 <= i < k < |requested| ==>
               requested[i].kind + "\0" + requested[i].name != requested[k].kind + "\0" + requested[k].name)
            <==> (forall i, k :: 0 <= i < k < |requested| ==> SourceKey(requested[i]) != SourceKey(requested[k]))
  {
    hide SourceKey;
    forall i, k | 0 <= i < k < |requested|
      ensures SourceKey(requested[i]) == SourceKey(requested[k]) <==>
                requested[i].kind + "\0" + requested[i].name == requested[k].kind + "\0" + requested[k].name
    {
      SameSourceIff(requested[i], requested[k]);
    }
  }

  lemma FittingIff(slot: Slot, offered: seq<G.Source>, requested: seq<G.Source>)
    ensures Fitting(slot, offered, requested) <==> OverrideFits(slot, offered, requested)
  {
    hide SourceKey, Offers, Offered;
    forall s: G.Source ensures Offers(offered, s) <==> Offered(offered, s) {
      OffersIff(offered, s);
    }
    DifferIff(requested);
  }

  /** The override of the slot fits, if there is one. */
  ghost predicate SlotFits(widget: string, slot: Slot, catalog: seq<Item>, overrides: map<string, Override>) {
    var key := widget + "\0" + slot.id;
    key in overrides ==> Fitting(slot, SlotOf(widget, slot, catalog).candidates, overrides[key].sources)
  }

  lemma FillsIff(widget: string, slot: Slot, catalog: seq<Item>, overrides: map<string, Override>)
    ensures Fill(widget, slot, catalog, overrides).Some? <==> SlotFits(widget, slot, catalog, overrides)
  {
    var key := Key(widget, slot.id);
    if key in overrides {
      FittingIff(slot, SlotOf(widget, slot, catalog).candidates, overrides[key].sources);
    }
    hide SlotOf, Sort, OverrideFits, Fitting;
  }

  /** An override says where it belongs, and names something. */
  ghost predicate IsPlaced(defs: seq<Definition>, o: Override) {
    && (exists i :: 0 <= i < |o.widget| && !Space(o.widget[i])) && (exists i :: 0 <= i < |o.slot| && !Space(o.slot[i]))
    && |o.sources| > 0
    && exists i, k :: 0 <= i < |defs| && 0 <= k < |defs[i].slots|
                      && defs[i].id + "\0" + defs[i].slots[k].id == o.widget + "\0" + o.slot
  }

  lemma PlacedIff(defs: seq<Definition>, o: Override)
    ensures IsPlaced(defs, o) <==> OverrideFormed(o) && NamesSlot(defs, OverrideKey(o))
  {
    hide Space;
  }

  /** A template resolves exactly if every override belongs to a slot of it and names something, no two
      belong to the same one, and each fits its slot. */
  lemma {:induction false} OverridesAcceptedIff(defs: seq<Definition>, catalog: seq<Item>, overrides: seq<Override>)
    ensures Resolve(defs, catalog, overrides).Some? <==>
              && (forall o :: o in overrides ==> IsPlaced(defs, o))
              && (forall i, k :: 0 <= i < k < |overrides| ==>
                    overrides[i].widget + "\0" + overrides[i].slot != overrides[k].widget + "\0" + overrides[k].slot)
              && (forall i, k :: 0 <= i < |defs| && 0 <= k < |defs[i].slots| ==>
                    SlotFits(defs[i].id, defs[i].slots[k], Ordered(catalog), ByKey(overrides)))
  {
    var ordered, bySlot := Ordered(catalog), ByKey(overrides);
    forall o: Override ensures IsPlaced(defs, o) <==> OverrideFormed(o) && NamesSlot(defs, OverrideKey(o)) {
      PlacedIff(defs, o);
    }
    ResolvesIff(defs, ordered, bySlot);
    forall i | 0 <= i < |defs|
      ensures FillAll(defs[i].id, defs[i].slots, ordered, bySlot).Some?
              <==> forall k :: 0 <= k < |defs[i].slots| ==> SlotFits(defs[i].id, defs[i].slots[k], ordered, bySlot)
    {
      SlotsFitIff(defs[i], ordered, bySlot);
    }
    FormedIff(overrides);
    hide FillAll, ResolveAll, Ordered, ByKey, SlotFits, IsPlaced, NamesSlot, OverrideFormed, OverridesFormed, OverrideKey;
  }

  lemma FormedIff(overrides: seq<Override>)
    ensures OverridesFormed(overrides) <==>
              && (forall o :: o in overrides ==> OverrideFormed(o))
              && (forall i, k :: 0 <= i < k < |overrides| ==>
                    overrides[i].widget + "\0" + overrides[i].slot != overrides[k].widget + "\0" + overrides[k].slot)
  {
    hide OverrideFormed;
    forall i, k | 0 <= i < k < |overrides|
      ensures OverrideKey(overrides[i]) != OverrideKey(overrides[k]) <==>
                overrides[i].widget + "\0" + overrides[i].slot != overrides[k].widget + "\0" + overrides[k].slot
    {
    }
    assert forall i :: 0 <= i < |overrides| ==> overrides[i] in overrides;
  }

  lemma {:induction false} SlotsFitIff(def: Definition, catalog: seq<Item>, overrides: map<string, Override>)
    ensures FillAll(def.id, def.slots, catalog, overrides).Some?
            <==> forall k :: 0 <= k < |def.slots| ==> SlotFits(def.id, def.slots[k], catalog, overrides)
  {
    FillEach(def.id, def.slots, catalog, overrides);
    hide FillAll, Fill, SlotFits;
    forall k | 0 <= k < |def.slots|
      ensures Fill(def.id, def.slots[k], catalog, overrides).Some? <==> SlotFits(def.id, def.slots[k], catalog, overrides)
    {
      FillsIff(def.id, def.slots[k], catalog, overrides);
    }
  }
}
