/** ShipDesignDialog with its widgets reduced to plain values: the design and
    view modes, the three design buttons' enabled flags, the stacked widget's
    page, the design list box, the category combo box with the number of
    connections from its `activated` signal to setComponentCategory, and the
    component list. Every event handler is a pure function from one dialog
    state to the next. */
module DesignDialog {
  import opened Options
  import opened Modes
  import opened Components
  import opened Categories
  import opened Designs

  /** What the dialog reads from the game engine: the component list, the
      CT_* flags, the player's ship and starbase design slots and the rule
      constants MaxShipDesigns and MaxBaseDesigns. */
  datatype Game = Game(
    components: seq<Component>,
    types: TypeBits,
    shipDesigns: seq<Option<string>>,
    baseDesigns: seq<Option<string>>,
    maxShipDesigns: int,
    maxBaseDesigns: int)

  /** Both rule constants admit the `i != max` loop. */
  predicate LimitsValid(g: Game)
  {
    g.maxShipDesigns >= 0 && g.maxBaseDesigns >= 0
  }

  function DesignLimit(g: Game, dm: DesignMode): int
  {
    match dm
    case Ships => g.maxShipDesigns
    case Starbases => g.maxBaseDesigns
  }

  function DesignSlots(g: Game, dm: DesignMode): seq<Option<string>>
  {
    match dm
    case Ships => g.shipDesigns
    case Starbases => g.baseDesigns
  }

  /** populateExistingDesigns: the names of the filled design slots of the
      mode's kind, ships read against MaxShipDesigns and starbases against
      MaxBaseDesigns. */
  function ExistingDesigns(g: Game, dm: DesignMode): (names: seq<string>)
    requires DesignLimit(g, dm) >= 0
    ensures dm == Ships ==> names == ExistingNames(g.shipDesigns, g.maxShipDesigns)
    ensures dm == Starbases ==> names == ExistingNames(g.baseDesigns, g.maxBaseDesigns)
    ensures |names| <= DesignLimit(g, dm)
    ensures var idx := FilledSlots(DesignSlots(g, dm), DesignLimit(g, dm));
            && |names| == |idx|
            && forall k :: 0 <= k < |idx| ==> Slot(DesignSlots(g, dm), idx[k]) == Some(names[k])
  {
    NamesFollowFilledSlots(DesignSlots(g, dm), DesignLimit(g, dm));
    ExistingNames(DesignSlots(g, dm), DesignLimit(g, dm))
  }

  /** The type a component needs to be offered as a hull: CT_HULL for ships,
      CT_BASE for starbases. */
  function HullMask(t: TypeBits, dm: DesignMode): Word
  {
    match dm
    case Ships => t.hull
    case Starbases => t.base
  }

  /** populateAvailableHullTypes: the buildable components of the hull (or
      base) type, each once, in the engine's order. */
  function AvailableHullTypes(g: Game, dm: DesignMode): (names: seq<string>)
    ensures |names| <= |g.components|
    ensures var idx := Positions(g.components, HullMask(g.types, dm));
            && |names| == |idx|
            && (forall k :: 0 <= k < |idx| ==>
                  var c := g.components[idx[k]];
                  names[k] == c.name && c.buildable && SharesBit(c.kind, HullMask(g.types, dm)))
            && (forall i :: 0 <= i < |g.components| && Listed(g.components[i], HullMask(g.types, dm)) ==> i in idx)
  {
    NamesFollowPositions(g.components, HullMask(g.types, dm));
    ComponentNames(g.components, HullMask(g.types, dm))
  }

  /** The widgets whose state the mode switches touch. */
  datatype Widgets = Widgets(
    copyEnabled: bool,
    editEnabled: bool,
    deleteEnabled: bool,
    page: int,                     // current index of the stacked widget
    designItems: seq<string>,      // the design list box
    categoryItems: seq<Category>,  // the category combo box
    categoryHandlers: nat,         // connections of `activated` to setComponentCategory
    listedCategory: int,           // the index setComponentCategory last listed
    componentItems: seq<string>)   // the component list

  datatype Dialog = Dialog(designMode: DesignMode, viewMode: ViewMode, ui: Widgets)

  /** The combo box's item data at `index` read as a mask; an index with no
      item yields an empty item data, which reads as the zero mask. */
  function MaskAt(items: seq<Category>, index: int): (mask: Word)
    ensures 0 <= index < |items| ==> mask == items[index].mask
    ensures !(0 <= index < |items|) ==> mask == {}
  {
    if 0 <= index < |items| then items[index].mask else {}
  }

  /** setComponentCategory: refill the component list with the components
      listed under the combo entry at `index`. */
  function SetComponentCategory(g: Game, w: Widgets, index: int): (r: Widgets)
    ensures r == w.(listedCategory := index, componentItems := r.componentItems)
    ensures 0 <= index < |w.categoryItems| ==>
              r.componentItems == ComponentNames(g.components, w.categoryItems[index].mask)
    ensures !(0 <= index < |w.categoryItems|) ==> r.componentItems == []
  {
    DisjointMaskListsNothing(g.components, {});
    w.(listedCategory := index, componentItems := ComponentNames(g.components, MaskAt(w.categoryItems, index)))
  }

  /** The user picks entry `index` of the combo box: setComponentCategory runs
      once per connection of the `activated` signal, which acts like a single
      run when connected and like nothing when not. */
  function ActivateCategory(g: Game, w: Widgets, index: int): (r: Widgets)
    ensures r == if w.categoryHandlers == 0 then w else SetComponentCategory(g, w, index)
  {
    HandlersActLikeOne(g, w, index, w.categoryHandlers);
    RunCategoryHandlers(g, w, index, w.categoryHandlers)
  }

  /** `k` runs of setComponentCategory: only the component list and the
      listed index move, and after at least one run the listed index is
      `index`. */
  function RunCategoryHandlers(g: Game, w: Widgets, index: int, k: nat): (r: Widgets)
    ensures r == w.(listedCategory := r.listedCategory, componentItems := r.componentItems)
    ensures k > 0 ==> r.listedCategory == index
    decreases k
  {
    if k == 0 then w else SetComponentCategory(g, RunCategoryHandlers(g, w, index, k - 1), index)
  }

  /** Running the handler several times has the effect of running it once,
      and running it no time changes nothing. */
  lemma {:induction false} HandlersActLikeOne(g: Game, w: Widgets, index: int, k: nat)
    ensures RunCategoryHandlers(g, w, index, k) == if k == 0 then w else SetComponentCategory(g, w, index)
    decreases k
  {
  }

  /** The button rule: copy and edit are enabled exactly outside the
      components view, delete exactly in the existing-designs view. */
  predicate ButtonsFollow(w: Widgets, vm: ViewMode)
  {
    && w.copyEnabled == (vm != Components)
    && w.editEnabled == (vm != Components)
    && w.deleteEnabled == (vm == Existing)
  }

  /** The contents the design list box should have in a mode pair. */
  function DesignListFor(g: Game, dm: DesignMode, vm: ViewMode): seq<string>
    requires vm == Existing ==> DesignLimit(g, dm) >= 0
  {
    match vm
    case Existing => ExistingDesigns(g, dm)
    case Available => AvailableHullTypes(g, dm)
    case Enemy => []
    case Components => []
  }

  /** The first half of switchMode: leave the old view. Leaving the
      components view empties the combo box and drops its connections but
      keeps the design list box; leaving any other view empties the design
      list box. */
  function LeaveView(w: Widgets, oldV: ViewMode, newV: ViewMode): (r: Widgets)
    ensures r.page == w.page && r.listedCategory == w.listedCategory && r.componentItems == w.componentItems
    ensures r.designItems == if oldV == Components then w.designItems else []
    ensures oldV == Components ==> r.categoryItems == [] && r.categoryHandlers == 0
    ensures oldV != Components ==> r.categoryItems == w.categoryItems && r.categoryHandlers == w.categoryHandlers
    // Leaving components toward another view enables all three buttons;
    // leaving any other view touches only delete, enabling it after the
    // available-hulls and enemy-hulls views.
    ensures oldV == Components && newV != Components ==> r.copyEnabled && r.editEnabled && r.deleteEnabled
    ensures oldV != Components ==>
              && r.copyEnabled == w.copyEnabled && r.editEnabled == w.editEnabled
              && r.deleteEnabled == (w.deleteEnabled || oldV == Available || oldV == Enemy)
    // When the buttons followed the old view, all three end up enabled
    // toward any view but components.
    ensures ButtonsFollow(w, oldV) && newV != Components ==> r.copyEnabled && r.editEnabled && r.deleteEnabled
    ensures oldV == Components && newV == Components ==>
              r.copyEnabled == w.copyEnabled && r.editEnabled == w.editEnabled && r.deleteEnabled == w.deleteEnabled
  {
    if oldV == Components then
      var cleared := w.(categoryItems := [], categoryHandlers := 0);
      if newV != Components then cleared.(copyEnabled := true, editEnabled := true, deleteEnabled := true)
      else cleared
    else
      var cleared := w.(designItems := []);
      if oldV == Available || oldV == Enemy then cleared.(deleteEnabled := true) else cleared
  }

  /** The second half of switchMode: show the new view's page and fill it. */
  function EnterView(g: Game, w: Widgets, newD: DesignMode, oldV: ViewMode, newV: ViewMode): (r: Widgets)
    requires newV == Existing ==> DesignLimit(g, newD) >= 0
    ensures r.page == if newV == Components then 1 else 0
    ensures r.designItems == w.designItems + DesignListFor(g, newD, newV)
    ensures newV != Components ==>
              && r.categoryItems == w.categoryItems && r.categoryHandlers == w.categoryHandlers
              && (w.copyEnabled && w.editEnabled && w.deleteEnabled ==> ButtonsFollow(r, newV))
    ensures newV == Components ==>
              && r.categoryItems == w.categoryItems + CategoryTable(g.types, newD)
              && r.categoryHandlers == w.categoryHandlers + 1
              && r.listedCategory == 0
              && r.componentItems == ComponentNames(g.components, r.categoryItems[0].mask)
              && (oldV != Components ==> ButtonsFollow(r, Components))
              && (oldV == Components ==>
                    r.copyEnabled == w.copyEnabled && r.editEnabled == w.editEnabled && r.deleteEnabled == w.deleteEnabled)
  {
    var shown := w.(page := if newV == Components then 1 else 0);
    if newV == Components then
      var filled := shown.(categoryItems := shown.categoryItems + CategoryTable(g.types, newD),
                           categoryHandlers := shown.categoryHandlers + 1);
      var listed := SetComponentCategory(g, filled, 0);
      if oldV != Components then listed.(copyEnabled := false, editEnabled := false, deleteEnabled := false)
      else listed
    else
      var populated :=
        if newV == Existing then shown.(designItems := shown.designItems + ExistingDesigns(g, newD))
        else if newV == Available then shown.(designItems := shown.designItems + AvailableHullTypes(g, newD))
        else shown;
      if newV == Available || newV == Enemy then populated.(deleteEnabled := false) else populated
  }

  /** switchMode: take the widgets from the mode pair (oldD, oldV) to the
      mode pair (newD, newV). The old design mode is not consulted. */
  function SwitchMode(g: Game, w: Widgets, oldD: DesignMode, newD: DesignMode,
                      oldV: ViewMode, newV: ViewMode): (r: Widgets)
    requires newV == Existing ==> DesignLimit(g, newD) >= 0
    ensures r.page == if newV == Components then 1 else 0
    ensures ButtonsFollow(w, oldV) ==> ButtonsFollow(r, newV)
    // Leaving the components view does not clear the design list box.
    ensures r.designItems == (if oldV == Components then w.designItems else []) + DesignListFor(g, newD, newV)
    ensures newV != Components && oldV != Components ==>
              r.categoryItems == w.categoryItems && r.categoryHandlers == w.categoryHandlers
    ensures newV != Components && oldV == Components ==>
              r.categoryItems == [] && r.categoryHandlers == 0
    ensures newV == Components ==>
              && r.categoryItems == (if oldV == Components then [] else w.categoryItems) + CategoryTable(g.types, newD)
              && r.categoryHandlers == (if oldV == Components then 0 else w.categoryHandlers) + 1
              && r.listedCategory == 0
              && r.componentItems == ComponentNames(g.components, r.categoryItems[0].mask)
  {
    EnterView(g, LeaveView(w, oldV, newV), newD, oldV, newV)
  }

  /** setDesignMode: switch the design mode, keeping the view mode. */
  function SetDesignMode(g: Game, d: Dialog, mode: DesignMode): (r: Dialog)
    requires d.viewMode == Existing ==> DesignLimit(g, mode) >= 0
    ensures r.designMode == mode && r.viewMode == d.viewMode
    ensures r.ui == SwitchMode(g, d.ui, d.designMode, mode, d.viewMode, d.viewMode)
    ensures DialogConsistent(g, d) ==> DialogConsistent(g, r)
    // In the components view the combo box is refilled with the new mode's table.
    ensures DialogConsistent(g, d) && d.viewMode == Components ==>
              r.ui.categoryItems == CategoryTable(g.types, mode) && r.ui.categoryHandlers == 1
    // Elsewhere the design list is rebuilt for the new mode.
    ensures DialogConsistent(g, d) && d.viewMode == Existing ==> r.ui.designItems == ExistingDesigns(g, mode)
    ensures DialogConsistent(g, d) && d.viewMode == Available ==> r.ui.designItems == AvailableHullTypes(g, mode)
  {
    Dialog(mode, d.viewMode, SwitchMode(g, d.ui, d.designMode, mode, d.viewMode, d.viewMode))
  }

  /** setViewMode: switch the view mode, keeping the design mode. */
  function SetViewMode(g: Game, d: Dialog, mode: ViewMode): (r: Dialog)
    requires mode == Existing ==> DesignLimit(g, d.designMode) >= 0
    ensures r.designMode == d.designMode && r.viewMode == mode
    ensures r.ui == SwitchMode(g, d.ui, d.designMode, d.designMode, d.viewMode, mode)
    ensures DialogConsistent(g, d) ==> DialogConsistent(g, r)
    ensures DialogConsistent(g, d) ==> ButtonsFollow(r.ui, mode)
  {
    Dialog(d.designMode, mode, SwitchMode(g, d.ui, d.designMode, d.designMode, d.viewMode, mode))
  }

  /** The constructor: `form` is the widget state the form description leaves
      behind, which is not part of this model. The dialog starts on ship
      designs, existing-designs view, and lists the existing ship designs. */
  function Open(g: Game, form: Widgets): (d: Dialog)
    requires g.maxShipDesigns >= 0
    ensures d.designMode == Ships && d.viewMode == Existing
    ensures d.ui == form.(designItems := form.designItems + ExistingNames(g.shipDesigns, g.maxShipDesigns))
    // The opened dialog satisfies the invariant exactly when the form starts plain.
    ensures DialogConsistent(g, d) <==> PlainForm(form)
  {
    ListedFormConsistentIff(g, form);
    Dialog(Ships, Existing, form.(designItems := form.designItems + ExistingDesigns(g, Ships)))
  }

  /** The user-visible events that reach the modelled handlers. */
  datatype Event =
    | DesignModeClicked(designMode: DesignMode)
    | ViewModeClicked(viewMode: ViewMode)
    | CategoryActivated(index: int)

  function Step(g: Game, d: Dialog, e: Event): Dialog
    requires LimitsValid(g)
  {
    match e
    case DesignModeClicked(mode) => SetDesignMode(g, d, mode)
    case ViewModeClicked(mode) => SetViewMode(g, d, mode)
    case CategoryActivated(index) => d.(ui := ActivateCategory(g, d.ui, index))
  }

  function Run(g: Game, d: Dialog, es: seq<Event>): Dialog
    requires LimitsValid(g)
    decreases |es|
  {
    if es == [] then d else Run(g, Step(g, d, es[0]), es[1..])
  }

  /** The dialog invariant: widgets agree with the mode pair. */
  predicate Consistent(g: Game, w: Widgets, dm: DesignMode, vm: ViewMode)
  {
    && ButtonsFollow(w, vm)
    && w.page == (if vm == Components then 1 else 0)
    && (vm == Existing ==> DesignLimit(g, dm) >= 0)
    && w.designItems == DesignListFor(g, dm, vm)
    && if vm == Components then
         && w.categoryItems == CategoryTable(g.types, dm)
         && w.categoryHandlers == 1
         && w.componentItems == ComponentNames(g.components, MaskAt(w.categoryItems, w.listedCategory))
       else
         w.categoryItems == [] && w.categoryHandlers == 0
  }

  predicate DialogConsistent(g: Game, d: Dialog)
  {
    Consistent(g, d.ui, d.designMode, d.viewMode)
  }

  /** The invariant holds after every mode switch, whatever the old and new
      modes. */
  lemma SwitchKeepsConsistent(g: Game, w: Widgets, oldD: DesignMode, newD: DesignMode,
                              oldV: ViewMode, newV: ViewMode)
    requires Consistent(g, w, oldD, oldV)
    requires newV == Existing ==> DesignLimit(g, newD) >= 0
    ensures Consistent(g, SwitchMode(g, w, oldD, newD, oldV, newV), newD, newV)
  {
  }

  /** Entering or staying in the components view: the combo box holds exactly
      the new design mode's table, "All" first, that entry is listed, and the
      handler is connected once. */
  lemma EnterComponents(g: Game, w: Widgets, oldD: DesignMode, newD: DesignMode, oldV: ViewMode)
    requires Consistent(g, w, oldD, oldV)
    ensures var r := SwitchMode(g, w, oldD, newD, oldV, Components);
            && r.categoryItems == CategoryTable(g.types, newD)
            && r.categoryItems[0].title == "All"
            && r.listedCategory == 0
            && r.categoryHandlers == 1
            && r.componentItems == ComponentNames(g.components, OrAll(MasksOf(CategoryTable(g.types, newD)[1..])))
  {
  }

  /** Picking a category keeps the invariant. */
  lemma ActivateKeepsConsistent(g: Game, d: Dialog, index: int)
    requires DialogConsistent(g, d)
    ensures Consistent(g, ActivateCategory(g, d.ui, index), d.designMode, d.viewMode)
  {
    HandlersActLikeOne(g, d.ui, index, d.ui.categoryHandlers);
  }

  /** Every event keeps the invariant. */
  lemma StepKeepsConsistent(g: Game, d: Dialog, e: Event)
    requires LimitsValid(g)
    requires DialogConsistent(g, d)
    ensures DialogConsistent(g, Step(g, d, e))
  {
    match e
    case DesignModeClicked(mode) =>
      SwitchKeepsConsistent(g, d.ui, d.designMode, mode, d.viewMode, d.viewMode);
    case ViewModeClicked(mode) =>
      SwitchKeepsConsistent(g, d.ui, d.designMode, d.designMode, d.viewMode, mode);
    case CategoryActivated(index) =>
      ActivateKeepsConsistent(g, d, index);
  }

  /** Every sequence of events keeps the invariant. */
  lemma {:induction false} RunKeepsConsistent(g: Game, d: Dialog, es: seq<Event>)
    requires LimitsValid(g)
    requires DialogConsistent(g, d)
    ensures DialogConsistent(g, Run(g, d, es))
    decreases |es|
  {
    if es != [] {
      StepKeepsConsistent(g, d, es[0]);
      RunKeepsConsistent(g, Step(g, d, es[0]), es[1..]);
    }
  }

  /** The form the constructor starts from: all three buttons enabled, the
      first page shown, both boxes empty and nothing connected to the combo. */
  predicate PlainForm(form: Widgets)
  {
    && form.copyEnabled && form.editEnabled && form.deleteEnabled
    && form.page == 0
    && form.designItems == []
    && form.categoryItems == []
    && form.categoryHandlers == 0
  }

  /** A form with the existing ship designs appended to its design list is
      consistent with ships/existing exactly when the form starts plain. */
  lemma ListedFormConsistentIff(g: Game, form: Widgets)
    requires g.maxShipDesigns >= 0
    ensures Consistent(g, form.(designItems := form.designItems + ExistingDesigns(g, Ships)), Ships, Existing)
            <==> PlainForm(form)
  {
    var names := ExistingDesigns(g, Ships);
    var w := form.(designItems := form.designItems + names);
    assert Consistent(g, w, Ships, Existing) <==>
      && w.copyEnabled && w.editEnabled && w.deleteEnabled && w.page == 0
      && w.designItems == names && w.categoryItems == [] && w.categoryHandlers == 0;
    assert w.designItems == names <==> form.designItems == [] by {
      if w.designItems == names {
        assert |form.designItems| + |names| == |names|;
      }
    }
  }

  /** In any dialog reached from a plain form, the buttons follow the view
      mode and the stacked widget shows page 1 exactly in the components view. */
  lemma {:induction false} ReachedDialogFollowsView(g: Game, form: Widgets, es: seq<Event>)
    requires LimitsValid(g)
    requires PlainForm(form)
    ensures var d := Run(g, Open(g, form), es);
            && ButtonsFollow(d.ui, d.viewMode)
            && (d.ui.page == 1 <==> d.viewMode == Components)
            && (d.ui.page == 0 <==> d.viewMode != Components)
  {
    RunKeepsConsistent(g, Open(g, form), es);
  }
}
