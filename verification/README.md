# Ship design dialog of the FreeStars Qt client, in Dafny

This project models `ShipDesignDialog`, the dialog of the FreeStars Qt
client where a player browses ship and starbase designs. The dialog keeps two
selections:

- a design mode: ships or starbases;
- a view mode: existing designs, available hull types, enemy hulls, or
  components.

Every click on a mode button runs `switchMode`. It enables or disables the
copy, edit and delete buttons, flips the stacked widget between the design
page and the component page, and refills the design list box or the
component-category combo box. The rest of the dialog is three list
population routines:

- the component filter behind the category combo (`setComponentCategory`);
- the existing-designs list (`populateExistingDesigns`);
- the available-hulls list (`populateAvailableHullTypes`).

The widgets are plain values. The enabled flags are booleans and the page is
an integer. The list boxes are sequences of names. The combo box is a
sequence of `(title, mask)` entries, plus a count of how many times its
`activated` signal is connected to `setComponentCategory`. Each handler is a
pure function from one dialog state to the next. The game engine's answers
(component list, buildability, type flags, design slots, rule constants) are
a `Game` value given as input.

Modules:

- `Options`: the null-or-value wrapper used for design slots.
- `Modes`: the design and view modes.
- `Components`: the component record and the filter "buildable and shares a
  type bit with the mask". Its witness `Positions` shows the result is the
  in-order subsequence of matching components. `ListComponents` is the
  source's loop.
- `Categories`: the CT_* flags as a parameter record, the starbase and ship
  category tables, and the proof that each table's "All" entry lists exactly
  the union of the other entries.
- `Designs`: the design-slot list for slots `0 .. max-1`, and the loop with
  the source's `i != max` condition.
- `DesignDialog`: the widget state, `switchMode`, the two mode setters,
  `setComponentCategory`, the constructor, and an event-driven `Run`. It
  also holds the dialog invariant and the lemmas showing every event keeps
  it.

A 64-bit type word is modelled as the set of its set-bit positions. Bitwise
AND becomes intersection, bitwise OR becomes union, and "non-zero" becomes
"non-empty". This is exact for 64-bit words. Every lemma about masks holds
for any values of the CT_* flags.

## Model

| member | source | states |
|---|---|---|
| Components.ComponentNames | QtClient/ship_design_dialog.cpp:155-163 | the component list has no more names than there are components, and each name is the name of a buildable component whose type shares a bit with the mask |
| Components.Positions | QtClient/ship_design_dialog.cpp:159-160 | the listed components' indices, strictly ascending; an index appears exactly when that component is buildable and shares a type bit with the mask |
| Components.NamesFollowPositions | QtClient/ship_design_dialog.cpp:159-163 | the k-th listed name is the name of the k-th matching component: every match appears once, in the engine's order, and nothing else does |
| Components.DisjointMaskListsNothing | QtClient/ship_design_dialog.cpp:153-160 | a mask sharing no bit with any component type, including the zero mask, lists nothing |
| Components.ListComponents | QtClient/ship_design_dialog.cpp:155-163 | the front-to-back loop that appends matching names builds exactly the filtered name list |
| Categories.StarbaseCategories | QtClient/ship_design_dialog.cpp:17-26 | the starbase table has seven entries before its null terminator; the first is "All" and its mask is the OR of the six masks after it |
| Categories.ShipCategories | QtClient/ship_design_dialog.cpp:28-42 | the ship table has eleven entries before its null terminator; the first is "All" and its mask is the OR of the ten masks after it |
| Categories.CategoryTable | QtClient/ship_design_dialog.cpp:119 | the table chosen for either design mode is non-empty, starts with "All", and its "All" mask is the OR of the rest |
| Categories.OrAllOfSix | QtClient/ship_design_dialog.cpp:18 | the starbase "All" mask, written as a chain of ORs, equals the OR over the run of individual masks |
| Categories.OrAllOfTen | QtClient/ship_design_dialog.cpp:29-30 | the ship "All" mask, written as a chain of ORs, equals the OR over the run of individual masks |
| Categories.OrAllOfRun | QtClient/ship_design_dialog.cpp:18 | a bit is set in the OR of several masks iff it is set in one of them |
| Categories.AllListsExactlyTheUnion | QtClient/ship_design_dialog.cpp:17-42 | in either table, a component is listed under "All" iff some individual category of that table lists it, for any values of the CT_* flags |
| Designs.ExistingNames | QtClient/ship_design_dialog.cpp:166-178 | the existing-designs list has at most max names |
| Designs.FilledSlots | QtClient/ship_design_dialog.cpp:171-174 | the indices of the non-null slots below max, strictly ascending, and every non-null slot below max among them |
| Designs.NamesFollowFilledSlots | QtClient/ship_design_dialog.cpp:171-177 | the k-th existing name is the design in the k-th non-null slot below max, so the names come in ascending slot order |
| Designs.OnlyFirstSlotsMatter | QtClient/ship_design_dialog.cpp:171 | slots at index max or above never affect the list |
| Designs.PopulateExistingDesigns | QtClient/ship_design_dialog.cpp:166-178 | the loop with condition `i != max` ends when max is at least 0 and builds exactly the existing-designs list |
| DesignDialog.ExistingDesigns | QtClient/ship_design_dialog.cpp:166-178 | ship mode reads the ship slots up to MaxShipDesigns and starbase mode the base slots up to MaxBaseDesigns; at most that many names, the k-th being the design in the k-th non-null slot |
| DesignDialog.AvailableHullTypes | QtClient/ship_design_dialog.cpp:180-189 | the available-hulls list names the buildable components of type CT_HULL (ships) or CT_BASE (starbases), each once, in the engine's order, and no more names than components |
| DesignDialog.SetComponentCategory | QtClient/ship_design_dialog.cpp:149-164 | only the component list and the listed index change; a valid index lists that entry's mask; an index with no item lists nothing |
| DesignDialog.HandlersActLikeOne | QtClient/ship_design_dialog.cpp:126 | with the handler connected k times, activating a category acts like one call of setComponentCategory, or like nothing when k is 0 |
| DesignDialog.RunCategoryHandlers | QtClient/ship_design_dialog.cpp:126 | running the connected handler k times changes only the component list and the listed index, and after one run or more the listed index is the picked one |
| DesignDialog.ActivateCategory | QtClient/ship_design_dialog.cpp:126 | picking a combo entry acts like one call of setComponentCategory when the handler is connected and changes nothing when it is not |
| DesignDialog.LeaveView | QtClient/ship_design_dialog.cpp:98-114 | leaving components empties the combo and drops its connections but keeps the design list; leaving any other view empties the design list. Leaving components toward another view enables all three buttons; leaving existing enables none; leaving available or enemy enables only delete; so when the buttons followed the old view, all three end up enabled toward a non-components view |
| DesignDialog.EnterView | QtClient/ship_design_dialog.cpp:116-146 | page 1 iff the new view is components; the design list gains the new view's names; entering components appends the table, adds one connection, lists entry 0 and disables the buttons when coming from elsewhere |
| DesignDialog.SwitchMode | QtClient/ship_design_dialog.cpp:96-147 | page 1 iff the new view is components; the button rule carries from the old view to the new one; leaving components keeps the old design items; entering or staying in components appends the new table, adds one connection and lists entry 0 |
| DesignDialog.SetDesignMode | QtClient/ship_design_dialog.cpp:84-88 | only the design mode changes, and a consistent dialog stays consistent: in the components view the combo ends up holding the new mode's table with one connection, and in the existing or available view the design list is rebuilt for the new mode |
| DesignDialog.SetViewMode | QtClient/ship_design_dialog.cpp:90-94 | only the view mode changes, and a consistent dialog stays consistent, with copy, edit and delete enabled as the new view requires |
| DesignDialog.Open | QtClient/ship_design_dialog.cpp:44-81 | the dialog opens on ship designs in the existing-designs view, with the existing ship designs appended to the form's design list; it meets the invariant iff the form starts with all buttons enabled, page 0, both boxes empty and no combo connection |
| DesignDialog.SwitchKeepsConsistent | QtClient/ship_design_dialog.cpp:98-146 | for any old and new modes, switchMode keeps the invariant: buttons, page, design list, combo contents and connection count all match the new modes |
| DesignDialog.EnterComponents | QtClient/ship_design_dialog.cpp:98-133 | on entering or staying in components, the combo holds exactly the new mode's table with "All" first; entry 0 is listed; the handler is connected once |
| DesignDialog.ActivateKeepsConsistent | QtClient/ship_design_dialog.cpp:149-164 | picking any combo entry keeps the invariant |
| DesignDialog.StepKeepsConsistent | QtClient/ship_design_dialog.cpp:84-94 | every click on a mode button or category entry keeps the invariant |
| DesignDialog.RunKeepsConsistent | QtClient/ship_design_dialog.cpp:84-94 | every sequence of such events keeps the invariant |
| DesignDialog.ReachedDialogFollowsView | QtClient/ship_design_dialog.cpp:98-145 | in any dialog reached from such a form, copy and edit are enabled iff the view is not components, delete iff the view is existing, and page 1 is shown iff the view is components |

## Left out

- Qt mechanics are not modelled: signal mappers, `connect`, `setupUi` and widget ownership. Only the number of `activated` connections to `setComponentCategory` is kept, because it decides how often that slot runs.
- `tr()` is not modelled: category titles stay untranslated.
- `QVariant` and the `qlonglong`/`toULongLong`/`long` conversions are left out. They keep the 64-bit pattern unchanged, so the mask is stored as-is. An index with no combo item gives an empty item data, which converts to the zero mask.
- Each table's `{ NULL, 0 }` terminator is not a table entry. The fill loop at QtClient/ship_design_dialog.cpp:121-124 stops there, so the table functions return the entries before it.
- The `int` slot arguments of `setDesignMode`/`setViewMode` are the mode enums. The signal mappers only deliver those values.
- The initial widget state comes from the form description, which is not part of this model. `Open` takes it as a parameter, and its contract says which initial states satisfy the invariant.
- The game engine is an input, not a model: `TheGame->GetComponents()`, `IsBuildable`, `GetType`, `IsType`, `GetShipDesign`/`GetBaseDesign` and `Rules::GetConstant`. Buildability is a field already evaluated for the dialog's player.
- DesignDialog.AvailableHullTypes reads `IsType(CT_HULL)` as "shares a bit with CT_HULL", the same test `setComponentCategory` applies. For a single-bit flag this equals "has every bit of CT_HULL".
- Designs.Slot reads a slot index past the end of the engine's slot sequence as an empty slot.
- `copyDesign`, `editDesign` and `deleteDesign` have empty bodies and change nothing. They are not events of the model.
- Designs.PopulateExistingDesigns: requires MaxShipDesigns/MaxBaseDesigns to be at least 0, because the source's `i != max` loop at QtClient/ship_design_dialog.cpp:171 never reaches a negative `max` short of `long` overflow. For the same reason `ExistingNames`, `ExistingDesigns`, `Open` and `Step`/`Run` (through `LimitsValid`) require it.
- The engine's answers (components, buildability, design slots, rule constants) are assumed not to change while the dialog is open. The source's list boxes are snapshots taken at the last `switchMode`. The invariant compares them with the current answers, so it describes the source only while those answers stay fixed.
- The Done button (`accept`) closes the dialog and is not modelled.
- The enemy-hulls view never fills the design list in the source. The model reproduces this: the list is empty in that view.
- QtClient/game_view.h holds declarations only and is not part of this model.
