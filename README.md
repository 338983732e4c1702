# Menu-item options modal

This is a Dafny model of the rules inside `MenuItemOptionsModalComponent`. That component is the dialog in which a
consumer customises a menu item before adding it to the cart. The model covers these parts of it:

- Toggling an option item. In a single-select group the toggled item replaces the choice. In a multi-select group the
  toggle flips the item's `isSelected` flag and keeps a per-group counter, `totalSelectedOptionItems`. A select beyond
  `Maximum_Select` is refused.
- Stepping the quantity against `CART_ITEM_MAX_LIMIT`.
- The validation done by "add to cart": the size check comes first, then the groups are checked in order and the first
  failing group is reported.
- Applying the catalogue defaults when the item is loaded and when its size changes.
- Picking the sold-out action and the delivery-fee row when the modal opens.

The model is written in four modules:

- `Basics` (`basics.dfy`): `Option`, and `FirstWhere`, a first-match search. `ChooseSoldOutAction` uses it, and so do
  the default size in `LoadData` and the single-select defaults in `SingleSelectDefaults`. `ChooseDeliveryFee` runs
  its own loop. The module also holds `CountTrue` and the facts about it.
- `OptionGroups` (`option_groups.dfy`): the catalogue data of a group and of its items, and the mutable state of a
  group. It has the pure specification of a toggle (`Toggle`) and of default application (`WithDefaults`), and the
  lemmas about both. The class `OptionGroup` changes that state in place: `SelectOptionItem` and `ApplyDefaults` are
  proved equal to those functions.
- `OptionsModal` (`options_modal.dfy`): the class `MenuItemOptionsModal`. Its fields are the item's `quantity`,
  `menuItemSizes`, `selectedMenuItemSize` and `menuItemOptions`. The module also defines the quantity rule
  (`QtyAfter`) and the verdict of "add to cart" (`CommitVerdict`), with lemmas about both.
- `OpenLookups` (`open_lookups.dfy`): the two choices made in `open`.

Some JavaScript values are spelled out:

- `totalSelectedOptionItems` is a `Counter`. It can be never assigned (`Unset`), a number, or `NaN`. `NaN` is what
  `undefined--` yields.
- A select first resets a counter that is `undefined`, `0` or `NaN` to `0`, because all three are falsy.
- The validation reads the counter as `counter || 0` (`Tally`).
- Rejections are returned as values: `MaximumLimitReached`, `QtyLimitExceeded`, and a `Verdict` naming the failing
  group. The component shows a toast instead.

In these places the code does something a reader might not expect; the model follows the code:

- The max-limit check is guarded by `Maximum_Select > 1`. So a multi-select group whose maximum is 1 (not only 0 or
  unset) never refuses a select (`ToggleNoLimitUpToOne`).
- When no sold-out action matches the logged-in user's, or no delivery-fee row matches the restaurant, the component's
  field is not written. It keeps the value it had before, which may come from an earlier opening. It is not cleared.
- For an item with several sizes and no default size, nothing is selected. No option groups are requested, so
  `menuItemOptions` is left as it was.
- The counter bound of a multi-select group, `totalSelectedOptionItems <= Maximum_Select`, holds only if the counter
  starts at or below the maximum. Likewise, the counter equals the number of selected items only if it starts
  consistent with them. Both are proved as preservation lemmas. Both are also part of `OptionGroup.Valid()`, so every
  in-place toggle and every default application keeps them.

## Model

| member | source | states |
|---|---|---|
| `Basics.FirstWhere` | apps/angular-app/src/app/consumer/shared/components/menu-item-options-modal/menu-item-options-modal.component.ts:146-151 | The index returned satisfies the predicate and no earlier element does; no index is returned only when no element does (the loop-with-break / `filter(..)[0]` search) |
| `OptionGroups.Initial` | apps/angular-app/src/app/consumer/shared/components/menu-item-options-modal/menu-item-options-modal.component.ts:185 | A freshly loaded group is well formed and has no item selected |
| `OptionGroups.Toggle` | apps/angular-app/src/app/consumer/shared/components/menu-item-options-modal/menu-item-options-modal.component.ts:204-231 | A toggle keeps the group well formed (one flag per item, a selection that names an item of the group) |
| `OptionGroups.ToggleSingleSelect` | apps/angular-app/src/app/consumer/shared/components/menu-item-options-modal/menu-item-options-modal.component.ts:205-207 | In a single-select group a toggle is never refused, makes the toggled item `selectedOptionItem` and changes nothing else |
| `OptionGroups.ToggleMultiSelect` | apps/angular-app/src/app/consumer/shared/components/menu-item-options-modal/menu-item-options-modal.component.ts:209-227 | In a multi-select group an accepted toggle flips exactly the toggled item's `isSelected`; a select sets the counter to (counter, with undefined/0/NaN read as 0) + 1, a deselect decrements it |
| `OptionGroups.ToggleRejection` | apps/angular-app/src/app/consumer/shared/components/menu-item-options-modal/menu-item-options-modal.component.ts:213-222 | A toggle is refused if and only if it is a select in a multi-select group with `Maximum_Select > 1` whose counter equals `Maximum_Select`; a refused toggle leaves the group exactly as it was |
| `OptionGroups.ToggleNoLimitUpToOne` | apps/angular-app/src/app/consumer/shared/components/menu-item-options-modal/menu-item-options-modal.component.ts:218 | With `Maximum_Select <= 1` no toggle is ever refused |
| `OptionGroups.ToggleKeepsBound` | apps/angular-app/src/app/consumer/shared/components/menu-item-options-modal/menu-item-options-modal.component.ts:213-227 | With `Maximum_Select > 1`, a counter at or below the maximum is still at or below it after a toggle |
| `OptionGroups.ToggleKeepsConsistent` | apps/angular-app/src/app/consumer/shared/components/menu-item-options-modal/menu-item-options-modal.component.ts:211-227 | If the counter equals the number of selected items (or is unassigned with none selected), it still does after a toggle |
| `OptionGroups.SingleSelectKeepsLast` | apps/angular-app/src/app/consumer/shared/components/menu-item-options-modal/menu-item-options-modal.component.ts:205-207 | After any non-empty run of toggles in a single-select group, the selection is the most recently toggled item |
| `OptionGroups.ToggleAllKeepsInvariants` | apps/angular-app/src/app/consumer/shared/components/menu-item-options-modal/menu-item-options-modal.component.ts:211-227 | Over any run of toggles the counter stays consistent with the selected items, and never exceeds a `Maximum_Select > 1` it started within |
| `OptionGroups.ThirdSelectRefusedAtLimitTwo` | apps/angular-app/src/app/consumer/shared/components/menu-item-options-modal/menu-item-options-modal.component.ts:218-222 | With a maximum of 2, two selects from a fresh group succeed (counter 2) and the third select is refused with the group unchanged |
| `OptionGroups.DefaultsFrom` | apps/angular-app/src/app/consumer/shared/components/menu-item-options-modal/menu-item-options-modal.component.ts:188-198 | Applying the defaults of a group from any item on keeps it well formed |
| `OptionGroups.Tally` | apps/angular-app/src/app/consumer/shared/components/menu-item-options-modal/menu-item-options-modal.component.ts:214-215 | the counter read with a fallback of 0 and the falsy reset of a select: an unassigned, zero or NaN counter reads as 0. No contract of its own; `ToggleMultiSelect` and `CommitValidIff` state what follows from it |
| `OptionGroups.Decrement` | apps/angular-app/src/app/consumer/shared/components/menu-item-options-modal/menu-item-options-modal.component.ts:226 | JavaScript `--` on the counter: `undefined` and NaN give NaN, a number goes down by one. No contract of its own; `ToggleMultiSelect` states the deselect step and `ToggleKeepsConsistent` shows NaN is never reached from a consistent counter |
| `OptionGroups.WithDefaults` | apps/angular-app/src/app/consumer/shared/components/menu-item-options-modal/menu-item-options-modal.component.ts:188-198 | Applying the defaults of a whole group keeps it well formed; what it selects is stated by `SingleSelectDefaults`, `MultiSelectDefaultsKeepInvariants` and `MultiSelectDefaultsFromFresh` |
| `OptionGroups.SingleSelectDefaults` | apps/angular-app/src/app/consumer/shared/components/menu-item-options-modal/menu-item-options-modal.component.ts:190-196 | A single-select group receives exactly its first `Is_Default` item as selection and nothing else changes; with no default it is unchanged |
| `OptionGroups.MultiSelectDefaultsKeepInvariants` | apps/angular-app/src/app/consumer/shared/components/menu-item-options-modal/menu-item-options-modal.component.ts:190-196 | Defaults of a multi-select group go through the toggle: the counter stays consistent, a `Maximum_Select > 1` bound still holds, and non-default items keep their flag |
| `OptionGroups.MultiSelectDefaultsFromFresh` | apps/angular-app/src/app/consumer/shared/components/menu-item-options-modal/menu-item-options-modal.component.ts:190-196 | When a fresh multi-select group has room for all its defaults, exactly the `Is_Default` items end up selected and the counter is their number (unassigned if there are none) |
| `OptionGroups.OptionGroup.constructor` | apps/angular-app/src/app/consumer/shared/components/menu-item-options-modal/menu-item-options-modal.component.ts:185 | The copy of a loaded group carries its catalogue data and the initial state |
| `OptionGroups.OptionGroup.SelectOptionItem` | apps/angular-app/src/app/consumer/shared/components/menu-item-options-modal/menu-item-options-modal.component.ts:204-231 | The in-place toggle leaves the group in exactly the state, and returns exactly the outcome, that `Toggle` specifies, and keeps `Valid()`: the group is well formed, its counter agrees with its selected items, and a limit above one bounds the counter |
| `OptionGroups.OptionGroup.ApplyDefaults` | apps/angular-app/src/app/consumer/shared/components/menu-item-options-modal/menu-item-options-modal.component.ts:188-198 | The default loop, with its break for single-select groups, leaves the group in the state `WithDefaults` specifies |
| `OptionsModal.QtyAfter` | apps/angular-app/src/app/consumer/shared/components/menu-item-options-modal/menu-item-options-modal.component.ts:307-315 | A request with `quantity + increment > CART_ITEM_MAX_LIMIT` leaves the quantity unchanged; any other request gives the least value that is at least 1 and at least `quantity + increment`, i.e. max(1, quantity + increment) |
| `OptionsModal.GroupFails` | apps/angular-app/src/app/consumer/shared/components/menu-item-options-modal/menu-item-options-modal.component.ts:276-291 | A single-select group fails when it has no `selectedOptionItem`; a multi-select group fails when its counter (0 when falsy) is below `Minimum_Select`. No contract of its own; `CommitValidIff` and `CommitReportsFirstFailure` state its role |
| `OptionsModal.FailureOf` | apps/angular-app/src/app/consumer/shared/components/menu-item-options-modal/menu-item-options-modal.component.ts:279-288 | The message of a failing group: the single-select message with the header, or the minimum message with the header and `Minimum_Select`. No contract of its own; `CommitReportsFirstFailure` states which one is reported |
| `OptionsModal.FirstFailure` | apps/angular-app/src/app/consumer/shared/components/menu-item-options-modal/menu-item-options-modal.component.ts:272-293 | The group scan never reports a size failure, and a reported group lies at or after the starting position; `FirstFailureFrom` states that it is the first failing group |
| `OptionsModal.CommitVerdict` | apps/angular-app/src/app/consumer/shared/components/menu-item-options-modal/menu-item-options-modal.component.ts:262-294 | The size message is reported exactly when sizes exist and none is selected, and a reported group is one of the item's groups; `CommitValidIff` and `CommitReportsFirstFailure` state the rest |
| `OptionsModal.QtyAfterInRange` | apps/angular-app/src/app/consumer/shared/components/menu-item-options-modal/menu-item-options-modal.component.ts:305-319 | A quantity in [1, `CART_ITEM_MAX_LIMIT`] stays in that range after one step |
| `OptionsModal.QtyAfterAllInRange` | apps/angular-app/src/app/consumer/shared/components/menu-item-options-modal/menu-item-options-modal.component.ts:305-319 | Any run of quantity steps from a quantity in [1, limit] ends in [1, limit] |
| `OptionsModal.SizeCheckComesFirst` | apps/angular-app/src/app/consumer/shared/components/menu-item-options-modal/menu-item-options-modal.component.ts:266-269 | If sizes exist and none is selected, the verdict is the size message whatever state the groups are in |
| `OptionsModal.FirstFailureFrom` | apps/angular-app/src/app/consumer/shared/components/menu-item-options-modal/menu-item-options-modal.component.ts:272-293 | The scan from a position accepts iff no later group fails; otherwise it reports the first failing group with its message |
| `OptionsModal.CommitValidIff` | apps/angular-app/src/app/consumer/shared/components/menu-item-options-modal/menu-item-options-modal.component.ts:262-297 | The item may be added exactly when the size check passes and no group fails (single-select without a selection, or multi-select with counter (0 when falsy) below `Minimum_Select`) |
| `OptionsModal.CommitReportsFirstFailure` | apps/angular-app/src/app/consumer/shared/components/menu-item-options-modal/menu-item-options-modal.component.ts:271-293 | A reported group failure names the first failing group in declaration order, the single-select message for a single-select group and the minimum message otherwise |
| `OptionsModal.MenuItemOptionsModal.Open` | apps/angular-app/src/app/consumer/shared/components/menu-item-options-modal/menu-item-options-modal.component.ts:61-62 | Opening starts from quantity 1 with no sizes, no size chosen and no groups |
| `OptionsModal.MenuItemOptionsModal.UpdateQty` | apps/angular-app/src/app/consumer/shared/components/menu-item-options-modal/menu-item-options-modal.component.ts:305-319 | The limit condition is reported iff `quantity + increment > CART_ITEM_MAX_LIMIT`; the new quantity is `QtyAfter` of the old one; nothing else changes |
| `OptionsModal.MenuItemOptionsModal.SelectMenuItemOptionItem` | apps/angular-app/src/app/consumer/shared/components/menu-item-options-modal/menu-item-options-modal.component.ts:204-231 | Only the toggled group changes, to the state `Toggle` gives, and the modal's groups stay valid (well formed, counters consistent and within a limit above one) and distinct |
| `OptionsModal.MenuItemOptionsModal.SelectMenuItemSize` | apps/angular-app/src/app/consumer/shared/components/menu-item-options-modal/menu-item-options-modal.component.ts:162-174 | Changing size first empties `menuItemOptions`; a given size becomes `selectedMenuItemSize`, no size leaves it as it was |
| `OptionsModal.CloneGroups` | apps/angular-app/src/app/consumer/shared/components/menu-item-options-modal/menu-item-options-modal.component.ts:185 | The copy of the loaded groups has one fresh, distinct, valid group per loaded group, in order, each in its initial state |
| `OptionsModal.MenuItemOptionsModal.MenuOptionsLoaded` | apps/angular-app/src/app/consumer/shared/components/menu-item-options-modal/menu-item-options-modal.component.ts:183-201 | The loaded groups are copied in as fresh, distinct objects, in order, each with its defaults applied |
| `OptionsModal.MenuItemOptionsModal.LoadData` | apps/angular-app/src/app/consumer/shared/components/menu-item-options-modal/menu-item-options-modal.component.ts:132-160 | A multi-size item keeps the loaded sizes and selects the first `Is_Default` one (then installs the groups); with no default nothing is selected and the groups are unchanged; a single-size item gets no sizes and its groups; every installed group is a new object or one the modal already held, so the groups stay open to later toggles |
| `OptionsModal.MenuItemOptionsModal.ValidateForCommit` | apps/angular-app/src/app/consumer/shared/components/menu-item-options-modal/menu-item-options-modal.component.ts:260-294 | The loop with its breaks returns exactly `CommitVerdict` of the current sizes, selected size and groups |
| `OpenLookups.ChooseSoldOutAction` | apps/angular-app/src/app/consumer/shared/components/menu-item-options-modal/menu-item-options-modal.component.ts:86-105 | A logged-in user with a saved action gets the first action with the same ID, or the field is unchanged when none matches or nothing is saved; otherwise the first action is chosen, or the field is unchanged when the list is empty |
| `OpenLookups.ChooseDeliveryFee` | apps/angular-app/src/app/consumer/shared/components/menu-item-options-modal/menu-item-options-modal.component.ts:107-124 | For a schlep-fetch item with a defined list, the first row whose restaurant ID matches is chosen, and the fee is unchanged when none matches; otherwise it is unchanged |

## Left out

- Total price. `updateTotalPrice` delegates to `ShoppingCart.calculateMenuItemTotalPrice`, which is not part of this model and works on floating-point prices. Its calls after a toggle, a quantity step and default application are left out.
- HTTP and observable plumbing: `getAppSettings`, `getDeliveryFee`, `getMenuItemSizes`, `getMenuItemOptions`, `forkJoin`. Their responses become method parameters: `loadedSizes`, `loaded`, `rows` and `actions`.
- `onSoldOutActionChanged`. It is a server update followed by a write of the user's saved action on a success code, so it is network glue.
- The `busy` and `busySoldOutAction` flags, including the early return in `selectMenuItemSize` while busy. They only guard re-entry during asynchronous loading. Stale-response ordering likewise belongs to the caller.
- Toasts, opening and closing the modal, `isRestOpen` (a UTC time check in a helper that is not part of this model), and `shoppingCart.addMenuItem`. `ValidateForCommit` returns the verdict, and the cart update it guards is left out.
- Object identity of option items. An item's `isSelected` flag is kept in a sequence owned by its group, and `selectedOptionItem` is the item's index. Sharing one item object between groups is not modelled.
- `Maximum_Select`, `Minimum_Select` and the quantity are integers. `undefined`, `null` or fractional catalogue numbers, and a `null` counter (`null--` is `-1`), are not modelled.
- `OptionsModal.MenuItemOptionsModal.Open`: this assumes the catalogue item being cloned carries no size selection. The clone in `open` would copy one if it did.
- `OptionGroups.Initial` and `OptionGroups.OptionGroup.constructor`: these assume the `MenuOptions` payload cloned when the groups arrive carries none of the client-side fields `selectedOptionItem`, `isSelected` and `totalSelectedOptionItems`. The clone would copy them if it did.
- `CART_ITEM_MAX_LIMIT` comes from a constants file that is not part of this model. It is a constant field of the modal, fixed at construction.
- The search screen and the restaurant-coupon screen. They are routing and CRUD over HTTP with no rules of their own.
