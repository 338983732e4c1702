/** Option groups of a menu item (a "menuItemOption" in the component) and
    the rule that toggles one of their option items. */
module OptionGroups {
  import opened Basics

  /** The JavaScript value held in a group's `totalSelectedOptionItems`:
      never assigned, a number, or NaN (what `undefined--` produces). */
  datatype Counter = Unset | Count(n: int) | NotANumber

  /** `counter || 0`: `undefined`, `0` and `NaN` are all falsy. */
  function Tally(c: Counter): int
  {
    if c.Count? then c.n else 0
  }

  /** `counter--` in JavaScript. */
  function Decrement(c: Counter): Counter
  {
    match c
    case Unset => NotANumber
    case NotANumber => NotANumber
    case Count(n) => Count(n - 1)
  }

  /** The catalogue part of an option item, as the server sends it. */
  datatype OptionItemSpec = OptionItemSpec(name: string, isDefault: bool)

  /** The catalogue part of an option group, as the server sends it. */
  datatype OptionGroupSpec = OptionGroupSpec(
    header: string,
    isSingleSelect: bool,
    minimumSelect: int,
    maximumSelect: int,
    items: seq<OptionItemSpec>)

  /** The mutable part of a group: `selectedOptionItem` (single-select),
      each item's `isSelected` flag and `totalSelectedOptionItems` (multi-select). */
  datatype GroupState = GroupState(
    selectedOptionItem: Option<nat>,
    isSelected: seq<bool>,
    totalSelected: Counter)

  /** A group as a value: its catalogue data and its current state. */
  datatype GroupView = GroupView(spec: OptionGroupSpec, state: GroupState)

  datatype ToggleOutcome = Applied | MaximumLimitReached

  datatype Toggled = Toggled(state: GroupState, outcome: ToggleOutcome)

  predicate WellFormed(spec: OptionGroupSpec, st: GroupState)
  {
    && |st.isSelected| == |spec.items|
    && (st.selectedOptionItem.Some? ==> st.selectedOptionItem.value < |spec.items|)
  }

  /** A freshly loaded group: nothing chosen, no item flagged, counter never assigned. */
  function Initial(spec: OptionGroupSpec): (st: GroupState)
    ensures WellFormed(spec, st)
    ensures CountTrue(st.isSelected) == 0
  {
    var flags := seq(|spec.items|, _ => false);
    NoneSelected(flags);
    GroupState(None, flags, Unset)
  }

  lemma {:induction false} NoneSelected(flags: seq<bool>)
    requires forall k :: 0 <= k < |flags| ==> !flags[k]
    ensures CountTrue(flags) == 0
  {
    if |flags| > 0 {
      NoneSelected(flags[1..]);
    }
  }

  /** Toggling item `i` of a group (`selectMenuItemOptionItem`). */
  function Toggle(spec: OptionGroupSpec, st: GroupState, i: nat): (r: Toggled)
    requires WellFormed(spec, st) && i < |spec.items|
    ensures WellFormed(spec, r.state)
  {
    if spec.isSingleSelect then
      Toggled(st.(selectedOptionItem := Some(i)), Applied)
    else if !st.isSelected[i] then
      // an undefined, zero or NaN counter is first reset to 0
      var t := Tally(st.totalSelected);
      if spec.maximumSelect > 1 && t == spec.maximumSelect then
        Toggled(st.(totalSelected := Count(t)), MaximumLimitReached)
      else
        Toggled(st.(isSelected := st.isSelected[i := true], totalSelected := Count(t + 1)), Applied)
    else
      Toggled(st.(isSelected := st.isSelected[i := false], totalSelected := Decrement(st.totalSelected)), Applied)
  }

  /** In a single-select group a toggle always succeeds, makes the toggled
      item the selection and touches nothing else. */
  lemma ToggleSingleSelect(spec: OptionGroupSpec, st: GroupState, i: nat)
    requires WellFormed(spec, st) && i < |spec.items|
    requires spec.isSingleSelect
    ensures Toggle(spec, st, i) == Toggled(st.(selectedOptionItem := Some(i)), Applied)
  {
  }

  /** In a multi-select group a toggle that goes through flips exactly the
      toggled item and moves the counter by one in the same direction. */
  lemma ToggleMultiSelect(spec: OptionGroupSpec, st: GroupState, i: nat)
    requires WellFormed(spec, st) && i < |spec.items|
    requires !spec.isSingleSelect
    ensures var r := Toggle(spec, st, i);
      r.outcome == Applied ==>
        && r.state.selectedOptionItem == st.selectedOptionItem
        && r.state.isSelected == st.isSelected[i := !st.isSelected[i]]
        && (!st.isSelected[i] ==> r.state.totalSelected == Count(Tally(st.totalSelected) + 1))
        && (st.isSelected[i] ==> r.state.totalSelected == Decrement(st.totalSelected))
  {
  }

  /** A select is refused exactly when the group is multi-select, the limit
      is above one and the counter already equals it; a refused toggle leaves
      the group exactly as it was. */
  lemma ToggleRejection(spec: OptionGroupSpec, st: GroupState, i: nat)
    requires WellFormed(spec, st) && i < |spec.items|
    ensures var r := Toggle(spec, st, i);
      && (r.outcome == MaximumLimitReached <==>
            !spec.isSingleSelect && !st.isSelected[i]
            && spec.maximumSelect > 1 && Tally(st.totalSelected) == spec.maximumSelect)
      && (r.outcome == MaximumLimitReached ==> r.state == st)
  {
  }

  /** A limit of one or less never blocks a toggle. */
  lemma ToggleNoLimitUpToOne(spec: OptionGroupSpec, st: GroupState, i: nat)
    requires WellFormed(spec, st) && i < |spec.items|
    requires spec.maximumSelect <= 1
    ensures Toggle(spec, st, i).outcome == Applied
  {
  }

  /** A counter at or below a limit above one stays at or below it. */
  lemma ToggleKeepsBound(spec: OptionGroupSpec, st: GroupState, i: nat)
    requires WellFormed(spec, st) && i < |spec.items|
    requires spec.maximumSelect > 1 && Tally(st.totalSelected) <= spec.maximumSelect
    ensures Tally(Toggle(spec, st, i).state.totalSelected) <= spec.maximumSelect
  {
  }

  /** The counter of a multi-select group agrees with its selected items:
      it is the number of flagged items, or still unassigned while none is. */
  predicate Consistent(spec: OptionGroupSpec, st: GroupState)
  {
    !spec.isSingleSelect ==>
      st.totalSelected == Count(CountTrue(st.isSelected))
      || (st.totalSelected == Unset && CountTrue(st.isSelected) == 0)
  }

  /** A toggle keeps the counter consistent with the selected items. */
  lemma ToggleKeepsConsistent(spec: OptionGroupSpec, st: GroupState, i: nat)
    requires WellFormed(spec, st) && i < |spec.items|
    requires Consistent(spec, st)
    ensures Consistent(spec, Toggle(spec, st, i).state)
  {
    if !spec.isSingleSelect {
      CountTrueUpdate(st.isSelected, i, !st.isSelected[i]);
      if st.isSelected[i] {
        assert CountTrue(st.isSelected) >= 1 by {
          CountTrueUpdate(st.isSelected, i, false);
        }
      }
    }
  }

  /** A limit above one bounds the counter. */
  predicate WithinLimit(spec: OptionGroupSpec, st: GroupState)
  {
    spec.maximumSelect > 1 ==> Tally(st.totalSelected) <= spec.maximumSelect
  }

  predicate AllInRange(spec: OptionGroupSpec, picks: seq<nat>)
  {
    forall k :: 0 <= k < |picks| ==> picks[k] < |spec.items|
  }

  /** The state after toggling the items `picks` one after another. */
  function ToggleAll(spec: OptionGroupSpec, st: GroupState, picks: seq<nat>): (r: GroupState)
    requires WellFormed(spec, st) && AllInRange(spec, picks)
    ensures WellFormed(spec, r)
    decreases |picks|
  {
    if |picks| == 0 then st
    else ToggleAll(spec, Toggle(spec, st, picks[0]).state, picks[1..])
  }

  /** In a single-select group the selection is always the most recently
      toggled item. */
  lemma {:induction false} SingleSelectKeepsLast(spec: OptionGroupSpec, st: GroupState, picks: seq<nat>)
    requires WellFormed(spec, st) && AllInRange(spec, picks)
    requires spec.isSingleSelect && |picks| > 0
    ensures ToggleAll(spec, st, picks).selectedOptionItem == Some(picks[|picks| - 1])
    decreases |picks|
  {
    if |picks| > 1 {
      SingleSelectKeepsLast(spec, Toggle(spec, st, picks[0]).state, picks[1..]);
    }
  }

  /** Over any run of toggles a consistent counter stays consistent, and one
      that starts at or below a limit above one never exceeds it. */
  lemma {:induction false} ToggleAllKeepsInvariants(spec: OptionGroupSpec, st: GroupState, picks: seq<nat>)
    requires WellFormed(spec, st) && AllInRange(spec, picks)
    requires Consistent(spec, st)
    ensures Consistent(spec, ToggleAll(spec, st, picks))
    ensures spec.maximumSelect > 1 && Tally(st.totalSelected) <= spec.maximumSelect ==>
      Tally(ToggleAll(spec, st, picks).totalSelected) <= spec.maximumSelect
    decreases |picks|
  {
    if |picks| > 0 {
      var next := Toggle(spec, st, picks[0]).state;
      ToggleKeepsConsistent(spec, st, picks[0]);
      if spec.maximumSelect > 1 && Tally(st.totalSelected) <= spec.maximumSelect {
        ToggleKeepsBound(spec, st, picks[0]);
      }
      ToggleAllKeepsInvariants(spec, next, picks[1..]);
    }
  }

  /** With a limit of two, selecting two items of a fresh group succeeds
      and a third select is refused without changing anything. */
  lemma ThirdSelectRefusedAtLimitTwo(spec: OptionGroupSpec)
    requires !spec.isSingleSelect && spec.maximumSelect == 2 && |spec.items| == 3
    ensures var two := ToggleAll(spec, Initial(spec), [0, 1]);
      && two.isSelected == [true, true, false] && two.totalSelected == Count(2)
      && Toggle(spec, two, 2) == Toggled(two, MaximumLimitReached)
  {
    var st := Initial(spec);
    assert ToggleAll(spec, st, [0, 1]) == ToggleAll(spec, Toggle(spec, st, 0).state, [1]);
    assert [0, 1][1..] == [1];
  }

  predicate IsDefaultItem(item: OptionItemSpec)
  {
    item.isDefault
  }

  /** The loop of `selectMenuItemSize` over one group, from item `j` on:
      every default item is toggled, and a single-select group stops at its
      first default. */
  function DefaultsFrom(spec: OptionGroupSpec, st: GroupState, j: nat): (r: GroupState)
    requires WellFormed(spec, st) && j <= |spec.items|
    ensures WellFormed(spec, r)
    decreases |spec.items| - j
  {
    if j == |spec.items| then st
    else if spec.items[j].isDefault then
      var next := Toggle(spec, st, j).state;
      if spec.isSingleSelect then next else DefaultsFrom(spec, next, j + 1)
    else DefaultsFrom(spec, st, j + 1)
  }

  /** A group with its defaults applied. */
  function WithDefaults(spec: OptionGroupSpec, st: GroupState): (r: GroupState)
    requires WellFormed(spec, st)
    ensures WellFormed(spec, r)
  {
    DefaultsFrom(spec, st, 0)
  }

  lemma {:induction false} SingleSelectDefaultsFrom(spec: OptionGroupSpec, st: GroupState, j: nat)
    requires WellFormed(spec, st) && j <= |spec.items| && spec.isSingleSelect
    ensures DefaultsFrom(spec, st, j) ==
      match FirstWhere(spec.items[j..], IsDefaultItem)
      case Some(k) => st.(selectedOptionItem := Some(j + k))
      case None => st
    decreases |spec.items| - j
  {
    if j < |spec.items| {
      assert spec.items[j..][1..] == spec.items[j + 1..];
      if !spec.items[j].isDefault {
        SingleSelectDefaultsFrom(spec, st, j + 1);
      }
    }
  }

  /** A single-select group receives its first default item, and nothing
      else changes; without a default it is left as it was. */
  lemma SingleSelectDefaults(spec: OptionGroupSpec, st: GroupState)
    requires WellFormed(spec, st) && spec.isSingleSelect
    ensures WithDefaults(spec, st) ==
      match FirstWhere(spec.items, IsDefaultItem)
      case Some(k) => st.(selectedOptionItem := Some(k))
      case None => st
  {
    SingleSelectDefaultsFrom(spec, st, 0);
    assert spec.items[0..] == spec.items;
  }

  /** Applying the defaults of a multi-select group goes through the toggle,
      so the counter stays consistent and the limit still holds; items that
      are not defaults keep their flag. */
  lemma {:induction false} MultiSelectDefaultsKeepInvariants(spec: OptionGroupSpec, st: GroupState, j: nat)
    requires WellFormed(spec, st) && j <= |spec.items| && !spec.isSingleSelect
    requires Consistent(spec, st)
    ensures Consistent(spec, DefaultsFrom(spec, st, j))
    ensures spec.maximumSelect > 1 && Tally(st.totalSelected) <= spec.maximumSelect ==>
      Tally(DefaultsFrom(spec, st, j).totalSelected) <= spec.maximumSelect
    ensures forall k :: 0 <= k < |spec.items| && (k < j || !spec.items[k].isDefault) ==>
      DefaultsFrom(spec, st, j).isSelected[k] == st.isSelected[k]
    decreases |spec.items| - j
  {
    if j < |spec.items| {
      if spec.items[j].isDefault {
        var next := Toggle(spec, st, j).state;
        ToggleKeepsConsistent(spec, st, j);
        if spec.maximumSelect > 1 && Tally(st.totalSelected) <= spec.maximumSelect {
          ToggleKeepsBound(spec, st, j);
        }
        MultiSelectDefaultsKeepInvariants(spec, next, j + 1);
      } else {
        MultiSelectDefaultsKeepInvariants(spec, st, j + 1);
      }
    }
  }

  /** The default flags of a group's items, in order. */
  function DefaultFlags(spec: OptionGroupSpec): (flags: seq<bool>)
    ensures |flags| == |spec.items|
  {
    seq(|spec.items|, k requires 0 <= k < |spec.items| => spec.items[k].isDefault)
  }

  lemma {:induction false} MultiSelectDefaultsFromRoom(spec: OptionGroupSpec, st: GroupState, j: nat)
    requires WellFormed(spec, st) && j <= |spec.items| && !spec.isSingleSelect
    requires forall k :: j <= k < |spec.items| ==> !st.isSelected[k]
    requires spec.maximumSelect <= 1
      || Tally(st.totalSelected) + CountTrue(DefaultFlags(spec)[j..]) <= spec.maximumSelect
    ensures forall k :: 0 <= k < |spec.items| ==>
      DefaultsFrom(spec, st, j).isSelected[k] == if k < j then st.isSelected[k] else spec.items[k].isDefault
    ensures CountTrue(DefaultFlags(spec)[j..]) > 0 ==>
      DefaultsFrom(spec, st, j).totalSelected == Count(Tally(st.totalSelected) + CountTrue(DefaultFlags(spec)[j..]))
    ensures CountTrue(DefaultFlags(spec)[j..]) == 0 ==> DefaultsFrom(spec, st, j) == st
    decreases |spec.items| - j
  {
    if j < |spec.items| {
      CountTrueSuffix(DefaultFlags(spec), j);
      if spec.items[j].isDefault {
        var next := Toggle(spec, st, j).state;
        assert next.isSelected == st.isSelected[j := true];
        assert next.totalSelected == Count(Tally(st.totalSelected) + 1);
        MultiSelectDefaultsFromRoom(spec, next, j + 1);
      } else {
        MultiSelectDefaultsFromRoom(spec, st, j + 1);
      }
    }
  }

  /** When a freshly loaded multi-select group has room for all its defaults
      (or no effective limit), exactly its default items end up selected and
      the counter holds their number (it stays unassigned if there are none). */
  lemma MultiSelectDefaultsFromFresh(spec: OptionGroupSpec)
    requires !spec.isSingleSelect
    requires spec.maximumSelect <= 1 || CountTrue(DefaultFlags(spec)) <= spec.maximumSelect
    ensures WithDefaults(spec, Initial(spec)).isSelected == DefaultFlags(spec)
    ensures WithDefaults(spec, Initial(spec)).totalSelected ==
      if CountTrue(DefaultFlags(spec)) == 0 then Unset else Count(CountTrue(DefaultFlags(spec)))
  {
    assert DefaultFlags(spec)[0..] == DefaultFlags(spec);
    MultiSelectDefaultsFromRoom(spec, Initial(spec), 0);
  }

  /** An option group whose state the modal changes in place. */
  class OptionGroup {
    const spec: OptionGroupSpec
    var selectedOptionItem: Option<nat>
    var isSelected: seq<bool>
    var totalSelectedOptionItems: Counter

    function State(): GroupState
      reads this
    {
      GroupState(selectedOptionItem, isSelected, totalSelectedOptionItems)
    }

    function View(): GroupView
      reads this
    {
      GroupView(spec, State())
    }

    /** Well formed, with a counter that agrees with the selected items and
        respects a limit above one. */
    predicate Valid()
      reads this
    {
      && WellFormed(spec, State())
      && Consistent(spec, State())
      && WithinLimit(spec, State())
    }

    /** A copy of a group as loaded from the server. */
    constructor (spec: OptionGroupSpec)
      ensures this.spec == spec && State() == Initial(spec) && Valid()
    {
      this.spec := spec;
      selectedOptionItem := None;
      isSelected := seq(|spec.items|, _ => false);
      totalSelectedOptionItems := Unset;
    }

    /** `selectMenuItemOptionItem(optionItem, this)` for the item at index `i`. */
    method SelectOptionItem(i: nat) returns (outcome: ToggleOutcome)
      requires Valid() && i < |spec.items|
      modifies this
      ensures Valid()
      ensures Toggled(State(), outcome) == Toggle(spec, old(State()), i)
    {
      ToggleKeepsConsistent(spec, State(), i);
      if spec.maximumSelect > 1 {
        ToggleKeepsBound(spec, State(), i);
      }
      outcome := Applied;
      if spec.isSingleSelect {
        selectedOptionItem := Some(i);
      } else {
        isSelected := isSelected[i := !isSelected[i]];
        if isSelected[i] {
          if totalSelectedOptionItems.Unset? || Tally(totalSelectedOptionItems) == 0 {
            totalSelectedOptionItems := Count(0);
          }
          if spec.maximumSelect > 1 && totalSelectedOptionItems.n == spec.maximumSelect {
            isSelected := isSelected[i := false];
            assert State() == old(State());
            outcome := MaximumLimitReached;
            return;
          }
          totalSelectedOptionItems := Count(totalSelectedOptionItems.n + 1);
        } else {
          totalSelectedOptionItems := Decrement(totalSelectedOptionItems);
        }
      }
    }

    /** The default-selection loop of `selectMenuItemSize` for this group. */
    method ApplyDefaults()
      requires Valid()
      modifies this
      ensures Valid()
      ensures State() == WithDefaults(spec, old(State()))
    {
      var j := 0;
      while j < |spec.items|
        invariant 0 <= j <= |spec.items| && Valid()
        invariant DefaultsFrom(spec, State(), j) == WithDefaults(spec, old(State()))
      {
        if spec.items[j].isDefault {
          var _ := SelectOptionItem(j);
          if spec.isSingleSelect {
            break;
          }
        }
        j := j + 1;
      }
    }
  }
}
