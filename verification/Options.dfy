/** The option picker at the counter: from the server's option tree to a selection, a unit price and a cart line. */
module Options {
  import opened Common
  import opened Catalog
  import opened OptionTree
  import opened PriceLines

  /** One selectable option, and a group as the picker shows it; a maximum of 0 means no cap. */
  datatype Choice = Choice(id: Id, name: string, delta: int)

  datatype PickerGroup = PickerGroup(id: Id, name: string, selection: SelectionType, minSelections: int,
                                     maxSelections: int, required: bool, choices: seq<Choice>)

  // ---------------------------------------------------------------- from the tree to the picker

  function ActiveChoices(mods: seq<(Id, Modifier)>): seq<Choice> {
    if mods == [] then []
    else
      var m := mods[|mods| - 1];
      if m.1.active then ActiveChoices(mods[..|mods| - 1]) + [Choice(m.0, m.1.name, m.1.delta)]
      else ActiveChoices(mods[..|mods| - 1])
  }

  function ToPickerGroup(g: GroupOptions): PickerGroup {
    PickerGroup(g.id, g.info.name, g.info.selection, g.info.minSelections, MaxOf(g.info),
                g.info.required || g.info.minSelections > 0, ActiveChoices(g.modifiers))
  }

  /** Groups with something to choose; none at all when a required one has nothing. */
  function Built(groups: seq<GroupOptions>): Option<seq<PickerGroup>> {
    if groups == [] then Some([])
    else
      var before := Built(groups[..|groups| - 1]);
      var g := ToPickerGroup(groups[|groups| - 1]);
      if before.None? then None
      else if g.choices == [] then if g.required then None else before
      else Some(before.value + [g])
  }

  method ToGroupDTO(g: GroupOptions) returns (dto: PickerGroup)
    ensures dto == ToPickerGroup(g)
  {
    var max := 0;
    if g.info.maxSelections.Some? {
      max := g.info.maxSelections.value;
    }
    var choices: seq<Choice> := [];
    for i := 0 to |g.modifiers|
      invariant choices == ActiveChoices(g.modifiers[..i])
    {
      assert g.modifiers[..i + 1][..i] == g.modifiers[..i];
      if g.modifiers[i].1.active {
        choices := choices + [Choice(g.modifiers[i].0, g.modifiers[i].1.name, g.modifiers[i].1.delta)];
      }
    }
    assert g.modifiers[..|g.modifiers|] == g.modifiers;
    dto := PickerGroup(g.id, g.info.name, g.info.selection, g.info.minSelections, max,
                       g.info.required || g.info.minSelections > 0, choices);
  }

  method BuildGroups(groups: seq<GroupOptions>) returns (r: Option<seq<PickerGroup>>)
    ensures r == Built(groups)
  {
    var out: seq<PickerGroup> := [];
    for i := 0 to |groups|
      invariant Built(groups[..i]) == Some(out)
    {
      assert groups[..i + 1][..i] == groups[..i];
      var dto := ToGroupDTO(groups[i]);
      if |dto.choices| == 0 {
        if dto.required {
          UnbuildableStays(groups, i + 1);
          return None;
        }
        continue;
      }
      out := out + [dto];
    }
    assert groups[..|groups|] == groups;
    return Some(out);
  }

  lemma {:induction false} UnbuildableStays(groups: seq<GroupOptions>, k: nat)
    requires k <= |groups| && Built(groups[..k]).None?
    ensures Built(groups).None?
  {
    if k == |groups| {
      assert groups[..k] == groups;
    } else {
      var front := groups[..|groups| - 1];
      assert front[..k] == groups[..k];
      UnbuildableStays(front, k);
    }
  }

  lemma {:induction false} ChoicesInColumns(mods: seq<(Id, Modifier)>, c: Choice)
    ensures c in ActiveChoices(mods) <==>
      exists i :: 0 <= i < |mods| && mods[i].1.active && c == Choice(mods[i].0, mods[i].1.name, mods[i].1.delta)
  {
    if mods != [] {
      var n := |mods| - 1;
      ChoicesInColumns(mods[..n], c);
      if i :| 0 <= i < |mods| && mods[i].1.active && c == Choice(mods[i].0, mods[i].1.name, mods[i].1.delta) {
        assert i < n ==> mods[..n][i] == mods[i];
      }
      if i :| (0 <= i < n && mods[..n][i].1.active
               && c == Choice(mods[..n][i].0, mods[..n][i].1.name, mods[..n][i].1.delta))
      {
        assert mods[..n][i] == mods[i];
      }
    }
  }

  /** The group has an option to choose. */
  predicate Choosable(g: GroupOptions) {
    exists i :: 0 <= i < |g.modifiers| && g.modifiers[i].1.active
  }

  predicate Required(g: GroupOptions) {
    g.info.required || g.info.minSelections > 0
  }

  lemma ChoosableHasChoices(g: GroupOptions)
    ensures Choosable(g) <==> ActiveChoices(g.modifiers) != []
  {
    if i :| 0 <= i < |g.modifiers| && g.modifiers[i].1.active {
      ChoicesInColumns(g.modifiers, Choice(g.modifiers[i].0, g.modifiers[i].1.name, g.modifiers[i].1.delta));
    }
    if ActiveChoices(g.modifiers) != [] {
      ChoicesInColumns(g.modifiers, ActiveChoices(g.modifiers)[0]);
    }
  }

  /**
   * Which groups the picker shows: those with an active option, each with its own rules, a missing maximum as 0,
   * required if it is so or asks for at least one; and none at all exactly if a required one has no active option.
   */
  lemma {:induction false} BuiltInColumns(groups: seq<GroupOptions>, shown: PickerGroup)
    ensures Built(groups).None? <==> exists i :: 0 <= i < |groups| && Required(groups[i]) && !Choosable(groups[i])
    ensures Built(groups).Some? ==>
      (shown in Built(groups).value <==>
        exists i :: (0 <= i < |groups| && Choosable(groups[i])
          && shown == PickerGroup(groups[i].id, groups[i].info.name, groups[i].info.selection,
                                  groups[i].info.minSelections,
                                  if groups[i].info.maxSelections == None then 0
                                  else groups[i].info.maxSelections.value,
                                  groups[i].info.required || groups[i].info.minSelections > 0,
                                  ActiveChoices(groups[i].modifiers))))
  {
    if groups != [] {
      hide ActiveChoices;
      hide Choosable;
      var n := |groups| - 1;
      BuiltInColumns(groups[..n], shown);
      ChoosableHasChoices(groups[n]);
      assert forall i :: 0 <= i < n ==> groups[..n][i] == groups[i];
    }
  }

  // ---------------------------------------------------------------- selecting

  type Selection = map<Id, seq<Id>>

  function Chosen(selection: Selection, group: Id): seq<Id> {
    if group in selection then selection[group] else []
  }

  function RequiredCount(g: PickerGroup): int {
    var min := if g.selection.Single? then 0 else g.minSelections;
    if g.required then if min > 1 then min else 1 else min
  }

  function FirstIds(choices: seq<Choice>, n: int): (ids: seq<Id>)
    ensures |ids| <= |choices| && (n >= 0 ==> |ids| <= n) && forall i :: 0 <= i < |ids| ==> ids[i] == choices[i].id
  {
    var k := if n < 0 then 0 else if n < |choices| then n else |choices|;
    seq(k, i requires 0 <= i < k => choices[i].id)
  }

  /** Every required group starts with its first option or options chosen. */
  method DefaultSelection(groups: seq<PickerGroup>) returns (selection: Selection)
    ensures selection == Defaults(groups)
  {
    selection := map[];
    for i := 0 to |groups|
      invariant selection == Defaults(groups[..i])
    {
      assert groups[..i + 1][..i] == groups[..i];
      selection := selection[groups[i].id := FirstIds(groups[i].choices, RequiredCount(groups[i]))];
    }
    assert groups[..|groups|] == groups;
  }

  function Defaults(groups: seq<PickerGroup>): Selection {
    if groups == [] then map[]
    else
      var g := groups[|groups| - 1];
      Defaults(groups[..|groups| - 1])[g.id := FirstIds(g.choices, RequiredCount(g))]
  }

  function Without(ids: seq<Id>, m: Id): seq<Id> {
    if ids == [] then []
    else
      var rest := Without(ids[..|ids| - 1], m);
      if ids[|ids| - 1] == m then rest else rest + [ids[|ids| - 1]]
  }

  /** One tap on an option of a group. */
  function Toggle(g: PickerGroup, current: seq<Id>, m: Id): seq<Id> {
    if g.selection.Single? then
      if m in current then if g.required then current else [] else [m]
    else if m in current then Without(current, m)
    else if g.maxSelections > 0 && |current| >= g.maxSelections then current
    else current + [m]
  }

  datatype Tap = Tap(group: nat, choice: nat)

  predicate OnScreen(groups: seq<PickerGroup>, tap: Tap) {
    tap.group < |groups| && tap.choice < |groups[tap.group].choices|
  }

  /** The selection after some taps on what the picker shows. */
  function AfterTaps(groups: seq<PickerGroup>, taps: seq<Tap>): Selection
    requires forall i :: 0 <= i < |taps| ==> OnScreen(groups, taps[i])
  {
    if taps == [] then Defaults(groups)
    else
      var before := AfterTaps(groups, taps[..|taps| - 1]);
      var t := taps[|taps| - 1];
      assert OnScreen(groups, t);
      var g := groups[t.group];
      before[g.id := Toggle(g, Chosen(before, g.id), g.choices[t.choice].id)]
  }

  // ---------------------------------------------------------------- from the selection to the cart line

  function PickedIn(choices: seq<Choice>, chosen: seq<Id>): seq<Choice> {
    if choices == [] then []
    else
      var c := choices[|choices| - 1];
      if c.id in chosen then PickedIn(choices[..|choices| - 1], chosen) + [c]
      else PickedIn(choices[..|choices| - 1], chosen)
  }

  /** The chosen options in display order. */
  function Picked(groups: seq<PickerGroup>, selection: Selection): seq<Choice> {
    if groups == [] then []
    else
      var g := groups[|groups| - 1];
      Picked(groups[..|groups| - 1], selection) + PickedIn(g.choices, Chosen(selection, g.id))
  }

  method SelectedModifiers(groups: seq<PickerGroup>, selection: Selection) returns (out: seq<Choice>)
    ensures out == Picked(groups, selection)
  {
    out := [];
    for i := 0 to |groups|
      invariant out == Picked(groups[..i], selection)
    {
      assert groups[..i + 1][..i] == groups[..i];
      var chosen := Chosen(selection, groups[i].id);
      var choices := groups[i].choices;
      for j := 0 to |choices|
        invariant out == Picked(groups[..i], selection) + PickedIn(choices[..j], chosen)
      {
        assert choices[..j + 1][..j] == choices[..j];
        if choices[j].id in chosen {
          out := out + [choices[j]];
        }
      }
      assert choices[..|choices|] == choices;
    }
    assert groups[..|groups|] == groups;
  }

  /** Base price plus the chosen options' deltas. */
  function UnitPriceWith(base: int, picked: seq<Choice>): int {
    if picked == [] then base else UnitPriceWith(base, picked[..|picked| - 1]) + picked[|picked| - 1].delta
  }

  function Ids(picked: seq<Choice>): (ids: seq<Id>)
    ensures |ids| == |picked| && forall i :: 0 <= i < |ids| ==> ids[i] == picked[i].id
  {
    seq(|picked|, i requires 0 <= i < |picked| => picked[i].id)
  }

  // ---------------------------------------------------------------- what taps keep

  /** A group's selection: options of the group, none twice, within the cap. */
  ghost predicate WellChosen(g: PickerGroup, chosen: seq<Id>) {
    && Distinct(chosen)
    && (forall m :: m in chosen ==> exists i :: 0 <= i < |g.choices| && g.choices[i].id == m)
    && (g.selection.Single? ==> |chosen| <= 1)
    && (g.selection.Multiple? && g.maxSelections > 0 ==> |chosen| <= g.maxSelections)
  }

  /** Groups and, within each, choices are told apart by id; a cap is not below the minimum. */
  ghost predicate WellFormed(groups: seq<PickerGroup>) {
    && (forall a, b :: 0 <= a < b < |groups| ==> groups[a].id != groups[b].id)
    && (forall a :: 0 <= a < |groups| ==> DistinctChoices(groups[a].choices))
    && (forall a :: 0 <= a < |groups| ==>
      groups[a].minSelections >= 0
        && (groups[a].maxSelections > 0 ==> groups[a].maxSelections >= groups[a].minSelections))
  }

  ghost predicate DistinctChoices(choices: seq<Choice>) {
    forall i, j :: 0 <= i < j < |choices| ==> choices[i].id != choices[j].id
  }

  lemma {:induction false} WithoutIsSub(ids: seq<Id>, m: Id)
    ensures if m in ids then |Without(ids, m)| < |ids| else Without(ids, m) == ids
    ensures forall x :: x in Without(ids, m) <==> x in ids && x != m
    ensures Distinct(ids) ==> Distinct(Without(ids, m))
  {
    if ids != [] {
      var n := |ids| - 1;
      WithoutIsSub(ids[..n], m);
      assert ids == ids[..n] + [ids[n]];
      assert Distinct(ids) ==> Distinct(ids[..n]) && ids[n] !in ids[..n];
    }
  }

  lemma ToggleKeeps(g: PickerGroup, current: seq<Id>, choice: nat)
    requires choice < |g.choices| && WellChosen(g, current)
    ensures WellChosen(g, Toggle(g, current, g.choices[choice].id))
  {
    var m := g.choices[choice].id;
    WithoutIsSub(current, m);
  }

  /**
   * What a tap means. In a single-choice group the tapped option becomes the choice, or is taken back if
   * the group is optional; in a multiple-choice group it switches unless the cap refuses one more.
   */
  lemma TapSwitches(g: PickerGroup, current: seq<Id>, m: Id)
    ensures var next := Toggle(g, current, m); var full := g.maxSelections > 0 && |current| >= g.maxSelections;
      && (g.selection.Single? && m !in current ==> next == [m])
      && (g.selection.Single? && m in current ==> next == if g.required then current else [])
      && (g.selection.Multiple? ==> forall x :: x in next <==> if x == m then m !in current && !full else x in current)
  {
    WithoutIsSub(current, m);
  }

  /** A required single-choice group stays answered through any taps. */
  lemma {:induction false} RequiredStaysAnswered(groups: seq<PickerGroup>, taps: seq<Tap>, a: nat)
    requires WellFormed(groups) && a < |groups| && groups[a].required && groups[a].selection.Single?
      && groups[a].choices != []
    requires forall i :: 0 <= i < |taps| ==> OnScreen(groups, taps[i])
    ensures |Chosen(AfterTaps(groups, taps), groups[a].id)| == 1
  {
    if taps == [] {
      DefaultAnswers(groups, a);
    } else {
      var n := |taps| - 1;
      RequiredStaysAnswered(groups, taps[..n], a);
      assert OnScreen(groups, taps[n]);
    }
  }

  lemma {:induction false} DefaultAnswers(groups: seq<PickerGroup>, a: nat)
    requires WellFormed(groups) && a < |groups| && groups[a].required && groups[a].selection.Single?
      && groups[a].choices != []
    ensures |Chosen(Defaults(groups), groups[a].id)| == 1
  {
    var n := |groups| - 1;
    if a < n {
      DefaultAnswers(groups[..n], a);
    }
  }

  /** Only what is chosen matters, never the order of the taps. */
  lemma {:induction false} TapOrderIsInvisible(groups: seq<PickerGroup>, s: Selection, t: Selection)
    requires forall a, m :: 0 <= a < |groups| ==> (m in Chosen(s, groups[a].id) <==> m in Chosen(t, groups[a].id))
    ensures Picked(groups, s) == Picked(groups, t)
  {
    if groups != [] {
      var n := |groups| - 1;
      TapOrderIsInvisible(groups[..n], s, t);
      SameMembersSamePick(groups[n].choices, Chosen(s, groups[n].id), Chosen(t, groups[n].id));
    }
  }

  lemma {:induction false} SameMembersSamePick(choices: seq<Choice>, s: seq<Id>, t: seq<Id>)
    requires forall m :: m in s <==> m in t
    ensures PickedIn(choices, s) == PickedIn(choices, t)
  {
    if choices != [] {
      SameMembersSamePick(choices[..|choices| - 1], s, t);
    }
  }

  lemma {:induction false} DefaultsAreWellChosen(groups: seq<PickerGroup>, a: nat)
    requires WellFormed(groups) && a < |groups|
    ensures WellChosen(groups[a], Chosen(Defaults(groups), groups[a].id))
  {
    var n := |groups| - 1;
    if a < n {
      DefaultsAreWellChosen(groups[..n], a);
    }
  }

  /** After any taps, every group's selection is free of duplicates, of the group, and within its cap. */
  lemma {:induction false} TapsKeepCaps(groups: seq<PickerGroup>, taps: seq<Tap>, a: nat)
    requires WellFormed(groups) && a < |groups|
    requires forall i :: 0 <= i < |taps| ==> OnScreen(groups, taps[i])
    ensures WellChosen(groups[a], Chosen(AfterTaps(groups, taps), groups[a].id))
    ensures var g, chosen := groups[a], Chosen(AfterTaps(groups, taps), groups[a].id);
      && (forall i, j :: 0 <= i < j < |chosen| ==> chosen[i] != chosen[j])
      && (forall i :: 0 <= i < |chosen| ==> IsChoice(g, chosen[i]))
      && (g.selection == Single ==> |chosen| <= 1)
      && (g.selection == Multiple && g.maxSelections > 0 ==> |chosen| <= g.maxSelections)
  {
    if taps == [] {
      DefaultsAreWellChosen(groups, a);
    } else {
      var n := |taps| - 1;
      TapsKeepCaps(groups, taps[..n], a);
      if taps[n].group == a {
        ToggleKeeps(groups[a], Chosen(AfterTaps(groups, taps[..n]), groups[a].id), taps[n].choice);
      }
    }
    WellChosenInColumns(groups[a], Chosen(AfterTaps(groups, taps), groups[a].id));
  }

  lemma WellChosenInColumns(g: PickerGroup, chosen: seq<Id>)
    requires WellChosen(g, chosen)
    ensures forall i, j :: 0 <= i < j < |chosen| ==> chosen[i] != chosen[j]
    ensures forall i :: 0 <= i < |chosen| ==> IsChoice(g, chosen[i])
  {
    forall i | 0 <= i < |chosen| ensures IsChoice(g, chosen[i]) {
      assert chosen[i] in chosen;
    }
  }

  predicate IsChoice(g: PickerGroup, id: Id) {
    exists k :: 0 <= k < |g.choices| && g.choices[k].id == id
  }

  // ---------------------------------------------------------------- what is selected, in columns

  /**
   * The first selection of a group: as many of its first options as it asks for, one if it is required and asks
   * for none, and in a single-choice group one if it is required and none otherwise.
   */
  lemma {:induction false} DefaultsInColumns(groups: seq<PickerGroup>, a: nat)
    requires WellFormed(groups) && a < |groups|
    ensures var g := groups[a]; var ids := Chosen(Defaults(groups), g.id);
      var asked := if g.selection == Single then 0 else g.minSelections;
      var n := if g.required && asked < 1 then 1 else asked;
      && |ids| == (if n < |g.choices| then n else |g.choices|)
      && forall i :: 0 <= i < |ids| ==> ids[i] == g.choices[i].id
  {
    var n := |groups| - 1;
    if a < n {
      DefaultsInColumns(groups[..n], a);
    }
  }

  lemma {:induction false} PickedInExactly(choices: seq<Choice>, chosen: seq<Id>, c: Choice)
    ensures c in PickedIn(choices, chosen) <==> c in choices && c.id in chosen
  {
    if choices != [] {
      PickedInExactly(choices[..|choices| - 1], chosen, c);
      assert choices == choices[..|choices| - 1] + [choices[|choices| - 1]];
    }
  }

  /** What is listed is exactly what is chosen: the options of each group whose ids are in its selection. */
  lemma {:induction false} PickedExactly(groups: seq<PickerGroup>, selection: Selection, c: Choice)
    ensures c in Picked(groups, selection) <==>
      exists a :: 0 <= a < |groups| && c in groups[a].choices && c.id in Chosen(selection, groups[a].id)
  {
    if groups != [] {
      var n := |groups| - 1;
      PickedExactly(groups[..n], selection, c);
      PickedInExactly(groups[n].choices, Chosen(selection, groups[n].id), c);
      assert forall a :: 0 <= a < n ==> groups[..n][a] == groups[a];
    }
  }

  /** Within a group the chosen options are listed in the order in which they are shown. */
  lemma {:induction false} PickedInOrder(choices: seq<Choice>, chosen: seq<Id>, i: nat, j: nat) returns (p: nat, q: nat)
    requires i < j < |choices| && choices[i].id in chosen && choices[j].id in chosen
    ensures p < q < |PickedIn(choices, chosen)|
    ensures PickedIn(choices, chosen)[p] == choices[i] && PickedIn(choices, chosen)[q] == choices[j]
  {
    var n := |choices| - 1;
    if j < n {
      p, q := PickedInOrder(choices[..n], chosen, i, j);
    } else {
      PickedInExactly(choices[..n], chosen, choices[i]);
      assert choices[i] in choices[..n];
      p :| 0 <= p < |PickedIn(choices[..n], chosen)| && PickedIn(choices[..n], chosen)[p] == choices[i];
      q := |PickedIn(choices, chosen)| - 1;
    }
  }

  /** A unit price is the base price plus the differences of the options listed. */
  lemma {:induction false} UnitPriceIsBasePlus(base: int, picked: seq<Choice>, c: Choice)
    ensures UnitPriceWith(base, []) == base
    ensures UnitPriceWith(base, picked + [c]) == UnitPriceWith(base, picked) + c.delta
  {
    assert (picked + [c])[..|picked|] == picked;
  }

  // ---------------------------------------------------------------- agreement with the server

  /** The picker's copy of an option says what the catalog says. */
  ghost predicate TrueChoice(db: Tables, c: Choice, group: Id) {
    && c.id in db.modifiers && db.modifiers[c.id].active && db.modifiers[c.id].group == group
    && c.name == db.modifiers[c.id].name && c.delta == db.modifiers[c.id].delta
  }

  ghost predicate TrueGroup(db: Tables, branch: Id, product: Id, g: PickerGroup) {
    && Attached(db, branch, product, g.id)
    && g.selection == db.groups[g.id].selection && g.maxSelections == MaxOf(db.groups[g.id])
    && forall i :: 0 <= i < |g.choices| ==> TrueChoice(db, g.choices[i], g.id)
  }

  lemma {:induction false} ActiveChoicesKeepAll(db: Tables, mods: seq<(Id, Modifier)>, group: Id)
    requires forall m :: m in mods ==> ActiveIn(db, m, group)
    ensures |ActiveChoices(mods)| == |mods|
    ensures forall i :: 0 <= i < |mods| ==>
      ActiveChoices(mods)[i].id == mods[i].0 && TrueChoice(db, ActiveChoices(mods)[i], group)
  {
    if mods != [] {
      var n := |mods| - 1;
      ActiveChoicesKeepAll(db, mods[..n], group);
      assert mods[n] in mods;
    }
  }

  lemma PickerGroupIsTrue(db: Tables, branch: Id, product: Id, g: GroupOptions)
    requires IsGroup(db, branch, product, g) && Consistent(db)
    ensures TrueGroup(db, branch, product, ToPickerGroup(g)) && WellFormed([ToPickerGroup(g)])
      && ToPickerGroup(g).id == g.id
  {
    ActiveChoicesKeepAll(db, g.modifiers, g.id);
    assert ValidGroup(db.groups[g.id]);
  }

  /** The picker's groups are the catalog's, told apart by id. */
  lemma {:induction false} BuiltIsTrue(db: Tables, branch: Id, p: ProductOptions, k: nat)
    requires Consistent(db) && IsProduct(db, branch, p) && k <= |p.groups| && Built(p.groups[..k]).Some?
    ensures var groups := Built(p.groups[..k]).value;
      && WellFormed(groups)
      && (forall a :: 0 <= a < |groups| ==> TrueGroup(db, branch, p.product, groups[a]))
      && (forall a :: 0 <= a < |groups| ==> exists j :: 0 <= j < k && p.groups[j].id == groups[a].id)
  {
    if k > 0 {
      hide TrueGroup;
      hide ToPickerGroup;
      hide WellFormed;
      assert p.groups[..k][..k - 1] == p.groups[..k - 1];
      BuiltIsTrue(db, branch, p, k - 1);
      PickerGroupIsTrue(db, branch, p.product, p.groups[k - 1]);
      var before, groups, g :=
        Built(p.groups[..k - 1]).value, Built(p.groups[..k]).value, ToPickerGroup(p.groups[k - 1]);
      if groups != before {
        assert groups == before + [g] && p.groups[k - 1].id == g.id;
        WellFormedGrows(before, g);
      }
    }
  }

  lemma WellFormedGrows(groups: seq<PickerGroup>, g: PickerGroup)
    requires WellFormed(groups) && WellFormed([g]) && forall a :: 0 <= a < |groups| ==> groups[a].id != g.id
    ensures WellFormed(groups + [g])
  {
    assert [g][0] == g;
  }

  /** A sequence without repetitions whose elements all occur in another is no longer than it. */
  lemma {:induction false} NoLonger(a: seq<Id>, b: seq<Id>)
    requires Distinct(a) && forall x :: x in a ==> x in b
    ensures |a| <= |b|
  {
    if a != [] {
      var n := |a| - 1;
      WithoutIsSub(b, a[n]);
      forall x | x in a[..n] ensures x in Without(b, a[n]) {
        assert x in a;
      }
      NoLonger(a[..n], Without(b, a[n]));
    }
  }

  lemma {:induction false} PickedInGroup(choices: seq<Choice>, chosen: seq<Id>)
    requires DistinctChoices(choices)
    ensures Distinct(Ids(PickedIn(choices, chosen)))
    ensures forall c :: c in PickedIn(choices, chosen) ==> c in choices && c.id in chosen
  {
    if choices != [] {
      var n := |choices| - 1;
      PickedInGroup(choices[..n], chosen);
      var front := PickedIn(choices[..n], chosen);
      forall i | 0 <= i < |front| ensures Ids(front)[i] != choices[n].id {
        assert front[i] in front;
      }
    }
  }

  lemma PickedWithinCap(g: PickerGroup, chosen: seq<Id>)
    requires DistinctChoices(g.choices) && WellChosen(g, chosen)
    ensures var limit := GroupSelectionLimit(g.selection, g.maxSelections); limit > 0 ==>
      |PickedIn(g.choices, chosen)| <= limit
  {
    var picked := PickedIn(g.choices, chosen);
    PickedInGroup(g.choices, chosen);
    forall x | x in Ids(picked) ensures x in chosen {
      var i :| 0 <= i < |picked| && picked[i].id == x;
      assert picked[i] in picked;
    }
    NoLonger(Ids(picked), chosen);
  }

  lemma {:induction false} InGroupAdds(db: Tables, a: seq<Id>, b: seq<Id>, group: Id)
    ensures InGroup(db, a + b, group) == InGroup(db, a, group) + InGroup(db, b, group)
  {
    if b == [] {
      assert a + b == a;
    } else {
      var n := |b| - 1;
      InGroupAdds(db, a, b[..n], group);
      assert (a + b)[..|a| + n] == a + b[..n];
    }
  }

  lemma {:induction false} InGroupOfPicked(db: Tables, picked: seq<Choice>, owner: Id, group: Id)
    requires forall c :: c in picked ==> TrueChoice(db, c, owner)
    ensures InGroup(db, Ids(picked), group) == if owner == group then |picked| else 0
  {
    if picked != [] {
      var n := |picked| - 1;
      assert picked[n] in picked;
      assert Ids(picked)[..n] == Ids(picked[..n]);
      InGroupOfPicked(db, picked[..n], owner, group);
    }
  }

  /** Groups with true, distinct content and a well-chosen selection each. */
  ghost predicate Ready(db: Tables, branch: Id, product: Id, groups: seq<PickerGroup>, selection: Selection) {
    && WellFormed(groups)
    && (forall a :: 0 <= a < |groups| ==> TrueGroup(db, branch, product, groups[a]))
    && (forall a :: 0 <= a < |groups| ==> WellChosen(groups[a], Chosen(selection, groups[a].id)))
  }

  lemma TruePicked(db: Tables, branch: Id, product: Id, g: PickerGroup, chosen: seq<Id>)
    requires TrueGroup(db, branch, product, g) && DistinctChoices(g.choices)
    ensures forall c :: c in PickedIn(g.choices, chosen) ==> TrueChoice(db, c, g.id)
  {
    PickedInGroup(g.choices, chosen);
  }

  lemma ReadyPrefix(db: Tables, branch: Id, product: Id, groups: seq<PickerGroup>, selection: Selection)
    requires Ready(db, branch, product, groups, selection) && groups != []
    ensures Ready(db, branch, product, groups[..|groups| - 1], selection)
  {
  }

  /** Options of one group, and options of groups other than that one, are different. */
  lemma OwnersDiffer(db: Tables, front: seq<Choice>, last: seq<Choice>, group: Id)
    requires forall c :: c in front ==> !TrueChoice(db, c, group)
    requires forall c :: c in last ==> TrueChoice(db, c, group)
    requires forall c :: c in front ==> exists other :: TrueChoice(db, c, other)
    requires Distinct(Ids(front)) && Distinct(Ids(last))
    ensures Distinct(Ids(front + last))
  {
    assert Ids(front + last) == Ids(front) + Ids(last);
    forall i, j | 0 <= i < |front| && 0 <= j < |last| ensures front[i].id != last[j].id {
      assert front[i] in front && last[j] in last;
    }
  }

  /** What is picked from the groups: options of those groups, none twice. */
  lemma {:induction false} PickedIsDistinct(db: Tables, branch: Id, product: Id, groups: seq<PickerGroup>,
                                            selection: Selection)
    requires Ready(db, branch, product, groups, selection)
    ensures Distinct(Ids(Picked(groups, selection)))
    ensures forall c :: c in Picked(groups, selection) ==>
      exists a :: 0 <= a < |groups| && TrueChoice(db, c, groups[a].id)
  {
    if groups != [] {
      hide PickedIn;
      hide Distinct;
      var n := |groups| - 1;
      var front, last := Picked(groups[..n], selection), PickedIn(groups[n].choices, Chosen(selection, groups[n].id));
      ReadyPrefix(db, branch, product, groups, selection);
      PickedIsDistinct(db, branch, product, groups[..n], selection);
      TruePicked(db, branch, product, groups[n], Chosen(selection, groups[n].id));
      PickedInGroup(groups[n].choices, Chosen(selection, groups[n].id));
      forall c | c in front
        ensures (exists a :: 0 <= a < n && TrueChoice(db, c, groups[a].id)) && !TrueChoice(db, c, groups[n].id)
      {
        var a :| 0 <= a < n && TrueChoice(db, c, groups[..n][a].id);
        assert groups[a].id != groups[n].id && TrueChoice(db, c, groups[a].id);
      }
      OwnersDiffer(db, front, last, groups[n].id);
    }
  }

  /** The last group adds its own picks to the count, and nothing to other groups'. */
  lemma LastGroupCounts(db: Tables, branch: Id, product: Id, groups: seq<PickerGroup>, selection: Selection, group: Id)
    requires Ready(db, branch, product, groups, selection) && groups != []
    ensures var n := |groups| - 1;
      InGroup(db, Ids(Picked(groups, selection)), group) == InGroup(db, Ids(Picked(groups[..n], selection)), group)
        + if groups[n].id == group then |PickedIn(groups[n].choices, Chosen(selection, group))| else 0
  {
    var n := |groups| - 1;
    var chosen := Chosen(selection, groups[n].id);
    var front, last := Picked(groups[..n], selection), PickedIn(groups[n].choices, chosen);
    TruePicked(db, branch, product, groups[n], chosen);
    InGroupOfPicked(db, last, groups[n].id, group);
    InGroupAdds(db, Ids(front), Ids(last), group);
    assert Ids(front + last) == Ids(front) + Ids(last);
  }

  lemma {:induction false} NonePicked(db: Tables, branch: Id, product: Id, groups: seq<PickerGroup>,
                                      selection: Selection, group: Id)
    requires Ready(db, branch, product, groups, selection) && forall a :: 0 <= a < |groups| ==> groups[a].id != group
    ensures InGroup(db, Ids(Picked(groups, selection)), group) == 0
  {
    if groups != [] {
      LastGroupCounts(db, branch, product, groups, selection, group);
      ReadyPrefix(db, branch, product, groups, selection);
      NonePicked(db, branch, product, groups[..|groups| - 1], selection, group);
    }
  }

  /** How many options of a group are picked. */
  lemma {:induction false} PickedCount(db: Tables, branch: Id, product: Id, groups: seq<PickerGroup>,
                                       selection: Selection, a: nat, g: PickerGroup)
    requires Ready(db, branch, product, groups, selection) && a < |groups| && groups[a] == g
    ensures InGroup(db, Ids(Picked(groups, selection)), g.id) == |PickedIn(g.choices, Chosen(selection, g.id))|
  {
    hide TrueGroup;
    hide WellChosen;
    hide DistinctChoices;
    hide InGroup;
    hide PickedIn;
    hide Picked;
    var n := |groups| - 1;
    var front := groups[..n];
    LastGroupCounts(db, branch, product, groups, selection, g.id);
    ReadyPrefix(db, branch, product, groups, selection);
    IdsDiffer(groups, a);
    if a < n {
      assert front[a] == g;
      PickedCount(db, branch, product, front, selection, a, g);
    } else {
      NonePicked(db, branch, product, front, selection, g.id);
    }
  }

  lemma IdsDiffer(groups: seq<PickerGroup>, a: nat)
    requires WellFormed(groups) && a < |groups|
    ensures var n := |groups| - 1;
      if a < n then groups[n].id != groups[a].id else forall b :: 0 <= b < n ==> groups[..n][b].id != groups[a].id
  {
  }

  lemma {:induction false} UnitPriceIsSum(db: Tables, base: int, picked: seq<Choice>)
    requires forall c :: c in picked ==> c.id in db.modifiers && c.delta == db.modifiers[c.id].delta
    ensures UnitPriceWith(base, picked) == base + DeltaSum(db, Ids(picked))
  {
    if picked != [] {
      var n := |picked| - 1;
      assert picked[n] in picked;
      assert Ids(picked)[..n] == Ids(picked[..n]);
      UnitPriceIsSum(db, base, picked[..n]);
    }
  }

  /** A ready selection is one the server allows. */
  lemma ReadyIsAllowed(db: Tables, branch: Id, product: Id, groups: seq<PickerGroup>, selection: Selection)
    requires Ready(db, branch, product, groups, selection)
    ensures Allowed(db, product, Ids(Picked(groups, selection)))
  {
    var picked := Picked(groups, selection);
    PickedIsDistinct(db, branch, product, groups, selection);
    forall m | m in Ids(picked)
      ensures Available(db, product, m) && WithinLimit(db, Ids(picked), db.modifiers[m].group)
    {
      var i :| 0 <= i < |picked| && picked[i].id == m;
      assert picked[i] in picked;
      var a :| 0 <= a < |groups| && TrueChoice(db, picked[i], groups[a].id);
      PickedCount(db, branch, product, groups, selection, a, groups[a]);
      PickedWithinCap(groups[a], Chosen(selection, groups[a].id));
    }
  }

  lemma TapsAreReady(db: Tables, branch: Id, p: ProductOptions, groups: seq<PickerGroup>, taps: seq<Tap>)
    requires Consistent(db) && IsProduct(db, branch, p) && Built(p.groups) == Some(groups)
    requires forall i :: 0 <= i < |taps| ==> OnScreen(groups, taps[i])
    ensures Ready(db, branch, p.product, groups, AfterTaps(groups, taps))
  {
    assert p.groups[..|p.groups|] == p.groups;
    BuiltIsTrue(db, branch, p, |p.groups|);
    forall a | 0 <= a < |groups| ensures WellChosen(groups[a], Chosen(AfterTaps(groups, taps), groups[a].id)) {
      TapsKeepCaps(groups, taps, a);
    }
  }

  lemma TapsAreAllowed(db: Tables, branch: Id, p: ProductOptions, groups: seq<PickerGroup>, taps: seq<Tap>, base: int)
    requires Consistent(db) && IsProduct(db, branch, p) && Built(p.groups) == Some(groups)
    requires forall i :: 0 <= i < |taps| ==> OnScreen(groups, taps[i])
    ensures var picked := Picked(groups, AfterTaps(groups, taps));
      Allowed(db, p.product, Ids(picked)) && UnitPriceWith(base, picked) == base + DeltaSum(db, Ids(picked))
  {
    var selection := AfterTaps(groups, taps);
    TapsAreReady(db, branch, p, groups, taps);
    ReadyIsAllowed(db, branch, p.product, groups, selection);
    PickedIsDistinct(db, branch, p.product, groups, selection);
    UnitPriceIsSum(db, base, Picked(groups, selection));
  }

  /**
   * For one state of the catalog, any product whose picker can be built and any sequence of taps from the
   * default selection: the server accepts the line and charges exactly the unit price the picker computed,
   * unless that price is below zero, which it refuses as such.
   */
  lemma TapsPriceAgrees(db: Tables, branch: Id, p: ProductOptions, groups: seq<PickerGroup>, taps: seq<Tap>,
                        priced: map<Id, PricedProduct>, quantity: int)
    requires Consistent(db) && IsProduct(db, branch, p) && Built(p.groups) == Some(groups)
    requires forall i :: 0 <= i < |taps| ==> OnScreen(groups, taps[i])
    requires p.product in priced
    ensures var picked := Picked(groups, AfterTaps(groups, taps));
      var line := PriceLine(db, priced, CartLine(p.product, quantity, Ids(picked)));
      var unit := UnitPriceWith(priced[p.product].price, picked);
      if unit < 0 then line == Err(NegativePrice)
      else line.Ok? && line.value.unit == unit && line.value.quantity == quantity && line.value.product == p.product
  {
    TapsAreAllowed(db, branch, p, groups, taps, priced[p.product].price);
    LineAcceptedExactly(db, priced, CartLine(p.product, quantity, Ids(Picked(groups, AfterTaps(groups, taps)))));
  }
}
