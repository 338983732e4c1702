/** The menu-item options modal: quantity stepping, size selection with
    default application, and the validation that guards "add to cart". */
module OptionsModal {
  import opened Basics
  import opened OptionGroups

  datatype MenuItemSize = MenuItemSize(id: int, name: string, isDefault: bool)

  predicate IsDefaultSize(size: MenuItemSize)
  {
    size.isDefault
  }

  datatype QtyOutcome = QtyUpdated | QtyLimitExceeded

  /** The result of the checks in `addToCart`; each failure names what the
      error message shows (the group's position, header and minimum). */
  datatype Verdict =
    | Accepted
    | SizeNotChosen
    | NoOptionChosen(group: nat, header: string)
    | TooFewOptions(group: nat, header: string, minimumSelect: int)

  /** The quantity after `updateQty(increment)` with cart limit `limit`:
      unchanged when the request passes the limit, otherwise the larger of 1
      and `quantity + increment`. */
  function QtyAfter(quantity: int, increment: int, limit: int): (r: int)
    ensures quantity + increment > limit ==> r == quantity
    ensures quantity + increment <= limit ==>
      && r >= 1 && r >= quantity + increment
      && (r == 1 || r == quantity + increment)
  {
    if quantity + increment > limit then quantity
    else if quantity + increment < 1 then 1
    else quantity + increment
  }

  /** A quantity in [1, limit] stays in [1, limit]. */
  lemma QtyAfterInRange(quantity: int, increment: int, limit: int)
    requires 1 <= quantity <= limit
    ensures 1 <= QtyAfter(quantity, increment, limit) <= limit
  {
  }

  /** The quantity after a run of `updateQty` calls. */
  function QtyAfterAll(quantity: int, increments: seq<int>, limit: int): int
    decreases |increments|
  {
    if |increments| == 0 then quantity
    else QtyAfterAll(QtyAfter(quantity, increments[0], limit), increments[1..], limit)
  }

  /** However the quantity is stepped, it never leaves [1, limit]. */
  lemma {:induction false} QtyAfterAllInRange(quantity: int, increments: seq<int>, limit: int)
    requires 1 <= quantity <= limit
    ensures 1 <= QtyAfterAll(quantity, increments, limit) <= limit
    decreases |increments|
  {
    if |increments| > 0 {
      QtyAfterInRange(quantity, increments[0], limit);
      QtyAfterAllInRange(QtyAfter(quantity, increments[0], limit), increments[1..], limit);
    }
  }

  /** The check `addToCart` applies to one group. */
  predicate GroupFails(v: GroupView)
  {
    if v.spec.isSingleSelect then v.state.selectedOptionItem.None?
    else Tally(v.state.totalSelected) < v.spec.minimumSelect
  }

  /** The message reported for the failing group at position `k`. */
  function FailureOf(v: GroupView, k: nat): Verdict
  {
    if v.spec.isSingleSelect then NoOptionChosen(k, v.spec.header)
    else TooFewOptions(k, v.spec.header, v.spec.minimumSelect)
  }

  /** The group scan of `addToCart`, from position `k` on. */
  function FirstFailure(views: seq<GroupView>, k: nat): (r: Verdict)
    requires k <= |views|
    ensures !r.SizeNotChosen?
    ensures (r.NoOptionChosen? || r.TooFewOptions?) ==> k <= r.group < |views|
    decreases |views| - k
  {
    if k == |views| then Accepted
    else if GroupFails(views[k]) then FailureOf(views[k], k)
    else FirstFailure(views, k + 1)
  }

  /** The verdict of `addToCart`: the size check first, then the groups. */
  function CommitVerdict(sizes: seq<MenuItemSize>, selectedSize: Option<MenuItemSize>, views: seq<GroupView>): (r: Verdict)
    ensures r == SizeNotChosen <==> |sizes| > 0 && selectedSize.None?
    ensures (r.NoOptionChosen? || r.TooFewOptions?) ==> r.group < |views|
  {
    if |sizes| > 0 && selectedSize.None? then SizeNotChosen
    else FirstFailure(views, 0)
  }

  /** A missing size is reported whatever state the groups are in. */
  lemma SizeCheckComesFirst(sizes: seq<MenuItemSize>, selectedSize: Option<MenuItemSize>, views: seq<GroupView>)
    requires |sizes| > 0 && selectedSize.None?
    ensures CommitVerdict(sizes, selectedSize, views) == SizeNotChosen
  {
  }

  lemma {:induction false} FirstFailureFrom(views: seq<GroupView>, k: nat)
    requires k <= |views|
    ensures FirstFailure(views, k) == Accepted <==> forall j :: k <= j < |views| ==> !GroupFails(views[j])
    ensures FirstFailure(views, k) != Accepted ==>
      && !FirstFailure(views, k).SizeNotChosen?
      && var g := FirstFailure(views, k).group;
      && k <= g < |views| && GroupFails(views[g])
      && FirstFailure(views, k) == FailureOf(views[g], g)
      && forall j :: k <= j < g ==> !GroupFails(views[j])
    decreases |views| - k
  {
    if k < |views| && !GroupFails(views[k]) {
      FirstFailureFrom(views, k + 1);
    }
  }

  /** The item may go to the cart exactly when the size check and every
      group pass. */
  lemma CommitValidIff(sizes: seq<MenuItemSize>, selectedSize: Option<MenuItemSize>, views: seq<GroupView>)
    ensures CommitVerdict(sizes, selectedSize, views) == Accepted <==>
      !(|sizes| > 0 && selectedSize.None?) && forall j :: 0 <= j < |views| ==> !GroupFails(views[j])
  {
    FirstFailureFrom(views, 0);
  }

  /** A reported group failure is the first failing group, in declaration
      order, with that group's message. */
  lemma CommitReportsFirstFailure(sizes: seq<MenuItemSize>, selectedSize: Option<MenuItemSize>, views: seq<GroupView>)
    ensures var v := CommitVerdict(sizes, selectedSize, views);
      (v.NoOptionChosen? || v.TooFewOptions?) ==>
        && v.group < |views| && GroupFails(views[v.group])
        && v == FailureOf(views[v.group], v.group)
        && (forall j :: 0 <= j < v.group ==> !GroupFails(views[j]))
        && (v.NoOptionChosen? <==> views[v.group].spec.isSingleSelect)
  {
    FirstFailureFrom(views, 0);
  }

  /** The groups as values, in order. */
  function ViewsOf(groups: seq<OptionGroup>): (vs: seq<GroupView>)
    reads groups
    ensures |vs| == |groups|
    ensures forall k :: 0 <= k < |groups| ==> vs[k] == groups[k].View()
  {
    seq(|groups|, k reads groups requires 0 <= k < |groups| => groups[k].View())
  }

  /** The groups a size switch installs: the loaded groups with their
      defaults applied. */
  function DefaultViews(loaded: seq<OptionGroupSpec>): (vs: seq<GroupView>)
    ensures |vs| == |loaded|
  {
    seq(|loaded|, k requires 0 <= k < |loaded| => GroupView(loaded[k], WithDefaults(loaded[k], Initial(loaded[k]))))
  }

  /** `Util.clone(response.MenuOptions)`: one fresh group object per loaded
      group, in order, each in its initial state. */
  method CloneGroups(loaded: seq<OptionGroupSpec>) returns (groups: seq<OptionGroup>)
    ensures |groups| == |loaded|
    ensures forall a :: 0 <= a < |groups| ==> fresh(groups[a]) && groups[a].Valid()
    ensures forall a :: 0 <= a < |groups| ==> groups[a].spec == loaded[a] && groups[a].State() == Initial(loaded[a])
    ensures forall a, b :: 0 <= a < b < |groups| ==> groups[a] != groups[b]
  {
    groups := [];
    var k := 0;
    while k < |loaded|
      invariant 0 <= k <= |loaded| && |groups| == k
      invariant forall a :: 0 <= a < k ==> fresh(groups[a]) && groups[a].Valid()
      invariant forall a :: 0 <= a < k ==> groups[a].spec == loaded[a] && groups[a].State() == Initial(loaded[a])
      invariant forall a, b :: 0 <= a < b < k ==> groups[a] != groups[b]
    {
      var g := new OptionGroup(loaded[k]);
      groups := groups + [g];
      k := k + 1;
    }
  }

  /** The modal's working copy of one menu item. */
  class MenuItemOptionsModal {
    const isSingleSize: bool
    /** `CART_ITEM_MAX_LIMIT` of the application's constants. */
    const cartItemMaxLimit: int
    var quantity: int
    var menuItemSizes: seq<MenuItemSize>
    var selectedMenuItemSize: Option<MenuItemSize>
    var menuItemOptions: seq<OptionGroup>

    /** Every group is well formed and no group object occurs twice. */
    predicate Valid()
      reads this, menuItemOptions
    {
      && (forall k :: 0 <= k < |menuItemOptions| ==> menuItemOptions[k].Valid())
      && (forall a, b :: 0 <= a < b < |menuItemOptions| ==> menuItemOptions[a] != menuItemOptions[b])
    }

    function Views(): seq<GroupView>
      reads this, menuItemOptions
    {
      ViewsOf(menuItemOptions)
    }

    /** `open(menuItem)`: a copy of the item with quantity 1 and nothing chosen. */
    constructor Open(isSingleSize: bool, cartItemMaxLimit: int)
      ensures this.isSingleSize == isSingleSize && this.cartItemMaxLimit == cartItemMaxLimit
      ensures quantity == 1 && menuItemSizes == [] && selectedMenuItemSize == None && menuItemOptions == []
      ensures Valid()
    {
      this.isSingleSize := isSingleSize;
      this.cartItemMaxLimit := cartItemMaxLimit;
      quantity := 1;
      menuItemSizes := [];
      selectedMenuItemSize := None;
      menuItemOptions := [];
    }

    /** `updateQty(increment)`. */
    method UpdateQty(increment: int) returns (outcome: QtyOutcome)
      modifies this
      ensures outcome == QtyLimitExceeded <==> old(quantity) + increment > cartItemMaxLimit
      ensures quantity == QtyAfter(old(quantity), increment, cartItemMaxLimit)
      ensures menuItemSizes == old(menuItemSizes) && selectedMenuItemSize == old(selectedMenuItemSize)
      ensures menuItemOptions == old(menuItemOptions)
    {
      var newQty := increment + quantity;
      if increment + quantity > cartItemMaxLimit {
        outcome := QtyLimitExceeded;
      } else {
        if newQty < 1 {
          newQty := 1;
        }
        quantity := newQty;
        outcome := QtyUpdated;
      }
    }

    /** `selectMenuItemOptionItem(optionItem, menuItemOption)` for item `i`
        of the group at position `g`: only that group changes. */
    method SelectMenuItemOptionItem(g: nat, i: nat) returns (outcome: ToggleOutcome)
      requires Valid() && g < |menuItemOptions| && i < |menuItemOptions[g].spec.items|
      modifies menuItemOptions[g]
      ensures Valid()
      ensures var r := Toggle(old(Views())[g].spec, old(Views())[g].state, i);
        outcome == r.outcome && Views() == old(Views())[g := GroupView(old(Views())[g].spec, r.state)]
    {
      outcome := menuItemOptions[g].SelectOptionItem(i);
    }

    /** The synchronous part of `selectMenuItemSize(size)`: the groups of
        the previous size are dropped and the size is recorded when one is
        given; the groups for it are then requested. */
    method SelectMenuItemSize(size: Option<MenuItemSize>)
      modifies this
      ensures Valid() && menuItemOptions == []
      ensures selectedMenuItemSize == if size.Some? then size else old(selectedMenuItemSize)
      ensures quantity == old(quantity) && menuItemSizes == old(menuItemSizes)
    {
      menuItemOptions := [];
      if size.Some? {
        selectedMenuItemSize := size;
      }
    }

    /** The response handler of `selectMenuItemSize`: the loaded groups are
        copied in and each one gets its defaults. */
    method MenuOptionsLoaded(loaded: seq<OptionGroupSpec>)
      modifies this
      ensures Valid()
      ensures forall k :: 0 <= k < |menuItemOptions| ==> fresh(menuItemOptions[k])
      ensures Views() == DefaultViews(loaded)
      ensures quantity == old(quantity) && menuItemSizes == old(menuItemSizes)
      ensures selectedMenuItemSize == old(selectedMenuItemSize)
    {
      var groups := CloneGroups(loaded);
      menuItemOptions := groups;
      var k := 0;
      while k < |groups|
        invariant 0 <= k <= |groups| && menuItemOptions == groups && |groups| == |loaded|
        invariant forall a :: 0 <= a < |groups| ==> fresh(groups[a]) && groups[a].spec == loaded[a] && groups[a].Valid()
        invariant forall a :: 0 <= a < k ==> groups[a].State() == WithDefaults(loaded[a], Initial(loaded[a]))
        invariant forall a :: k <= a < |groups| ==> groups[a].State() == Initial(loaded[a])
        invariant forall a, b :: 0 <= a < b < |groups| ==> groups[a] != groups[b]
        invariant selectedMenuItemSize == old(selectedMenuItemSize)
        invariant quantity == old(quantity) && menuItemSizes == old(menuItemSizes)
      {
        groups[k].ApplyDefaults();
        k := k + 1;
      }
      assert Views() == DefaultViews(loaded);
    }

    /** `loadData()` once the sizes `loadedSizes` and then the option groups
        `loaded` for the chosen size have arrived. A multi-size item takes
        the first default size; when none is marked default no size is
        chosen and the groups stay as they were. A single-size item has no
        sizes and loads the groups without choosing one. */
    method LoadData(loadedSizes: seq<MenuItemSize>, loaded: seq<OptionGroupSpec>)
      requires Valid()
      modifies this
      ensures Valid() && quantity == old(quantity)
      ensures forall k :: 0 <= k < |menuItemOptions| ==>
        menuItemOptions[k] in old(menuItemOptions) || fresh(menuItemOptions[k])
      ensures isSingleSize ==>
        && menuItemSizes == [] && selectedMenuItemSize == old(selectedMenuItemSize)
        && Views() == DefaultViews(loaded)
      ensures !isSingleSize ==> menuItemSizes == loadedSizes
      ensures !isSingleSize ==>
        match FirstWhere(loadedSizes, IsDefaultSize)
        case Some(k) => selectedMenuItemSize == Some(loadedSizes[k]) && Views() == DefaultViews(loaded)
        case None => selectedMenuItemSize == old(selectedMenuItemSize) && menuItemOptions == old(menuItemOptions)
    {
      if !isSingleSize {
        menuItemSizes := loadedSizes;
        var i := 0;
        while i < |menuItemSizes|
          invariant 0 <= i <= |menuItemSizes| && menuItemSizes == loadedSizes
          invariant forall j :: 0 <= j < i ==> !loadedSizes[j].isDefault
          invariant selectedMenuItemSize == old(selectedMenuItemSize) && menuItemOptions == old(menuItemOptions)
          invariant quantity == old(quantity)
        {
          if menuItemSizes[i].isDefault {
            SelectMenuItemSize(Some(menuItemSizes[i]));
            MenuOptionsLoaded(loaded);
            break;
          }
          i := i + 1;
        }
      } else {
        menuItemSizes := [];
        SelectMenuItemSize(None);
        MenuOptionsLoaded(loaded);
      }
    }

    /** The validation part of `addToCart()`. */
    method ValidateForCommit() returns (v: Verdict)
      ensures v == CommitVerdict(menuItemSizes, selectedMenuItemSize, Views())
    {
      v := Accepted;
      if |menuItemSizes| > 0 && selectedMenuItemSize.None? {
        v := SizeNotChosen;
      } else {
        var i := 0;
        while i < |menuItemOptions|
          invariant 0 <= i <= |menuItemOptions| && v == Accepted
          invariant FirstFailure(Views(), i) == FirstFailure(Views(), 0)
        {
          var group := menuItemOptions[i];
          if group.spec.isSingleSelect {
            if group.selectedOptionItem.None? {
              v := NoOptionChosen(i, group.spec.header);
              break;
            }
          } else {
            var totalSelected := Tally(group.totalSelectedOptionItems);
            if totalSelected < group.spec.minimumSelect {
              v := TooFewOptions(i, group.spec.header, group.spec.minimumSelect);
              break;
            }
          }
          i := i + 1;
        }
      }
    }
  }
}
