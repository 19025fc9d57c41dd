/**
 * The to-do list editor of the widget dialog (ToDoListinput.js): its component
 * state (`items`, `editMode`, `formValueItemText`), the props it reads, and the
 * handlers that change that state. What it sends outside -- `onChange`,
 * `postWidgetContentUpdate` and the `saveWidget` dispatch -- is appended to `log`.
 */
module ToDoListInputField {
  import opened Wrappers
  import opened ToDoItems

  /** `editMode`: `false`, or the id of the item being edited. */
  datatype EditMode = NotEditing | Editing(id: ItemId)

  /** JavaScript truthiness of `editMode`: `false` and the empty id are falsy. */
  predicate Truthy(m: EditMode) {
    m.Editing? && m.id != ""
  }

  /** The `values` prop, as far as the editor reads it: `values.id` and `values.content.selectedItems`. */
  datatype FormValues = FormValues(id: Option<string>, selectedItems: Option<seq<ItemId>>)

  /** `(values.content || {}).selectedItems || []`. */
  function SelectedItems(values: FormValues): seq<ItemId> {
    values.selectedItems.GetOr([])
  }

  /** `values.id || ''`. */
  function WidgetId(values: FormValues): string {
    values.id.GetOr("")
  }

  /** The body of a `postWidgetContentUpdate` call, besides the widget id. */
  datatype ContentUpdate = ClearItems | SelectedItem(itemId: ItemId)

  /** Something the editor sends outside. */
  datatype Event =
    | Changed(list: seq<Item>)                                           // onChange(prepareChangeEvent(list, 'array'))
    | PostContentUpdate(widgetId: string, update: ContentUpdate)         // postWidgetContentUpdate({id, ...})
    | SaveWidget(widgetId: string, values: FormValues, toDoListItems: seq<Item>)  // dispatch(saveWidget({widgetId, values}))

  /** What the drag-and-drop library reports at the end of a drag. */
  datatype DropResult = DropResult(sourceIndex: nat, destination: Option<nat>)

  /** The events a delete sends: the list change, then a sync when the removed item was selected. */
  function DeleteEvents(values: FormValues, removedId: ItemId, list: seq<Item>): (evs: seq<Event>)
    ensures |evs| >= 1 && evs[0] == Changed(list)
    ensures |evs| > 1 <==> removedId in SelectedItems(values)
    ensures |evs| > 1 ==> evs[1..] == [PostContentUpdate(WidgetId(values), SelectedItem(removedId)),
                                       SaveWidget(WidgetId(values), values, list)]
  {
    [Changed(list)] +
    if removedId in SelectedItems(values) then
      [PostContentUpdate(WidgetId(values), SelectedItem(removedId)), SaveWidget(WidgetId(values), values, list)]
    else []
  }

  /** The events a clear sends: always the list change, the clear sync and the widget save. */
  function ClearEvents(values: FormValues, list: seq<Item>): (evs: seq<Event>)
    ensures |evs| == 3 && evs[0] == Changed(list)
    ensures evs[1] == PostContentUpdate(WidgetId(values), ClearItems)
    ensures evs[2].SaveWidget? && evs[2].toDoListItems == list && evs[2].widgetId == WidgetId(values)
  {
    [Changed(list), PostContentUpdate(WidgetId(values), ClearItems), SaveWidget(WidgetId(values), values, list)]
  }

  class ToDoListInput {
    var items: seq<Item>
    var editMode: EditMode
    var formValueItemText: string
    /** The latest `values` prop; `selectedItems` and `widgetId` are read from it. */
    var values: FormValues
    /** Everything sent outside so far, oldest first. */
    var log: seq<Event>

    /** First render: `items` is seeded once from the `value` prop, the composer is empty. */
    constructor (value: Option<seq<Item>>, values: FormValues)
      ensures items == value.GetOr([])
      ensures editMode == NotEditing && formValueItemText == ""
      ensures this.values == values && log == []
    {
      items := value.GetOr([]);
      editMode := NotEditing;
      formValueItemText := "";
      this.values := values;
      log := [];
    }

    /** A later render with new props: the state survives, a new `value` is ignored. */
    method Rerender(values: FormValues)
      modifies this
      ensures this.values == values
      ensures items == old(items) && editMode == old(editMode)
      ensures formValueItemText == old(formValueItemText) && log == old(log)
    {
      this.values := values;
    }

    /** Typing into the composer. */
    method HandleChangeValItemText(text: string)
      modifies this
      ensures formValueItemText == text
      ensures items == old(items) && editMode == old(editMode)
      ensures values == old(values) && log == old(log)
    {
      formValueItemText := text;
    }

    /** End of a drag: without a destination nothing happens; otherwise the item moves. Nothing is sent. */
    method HandleOnDragEnd(result: DropResult)
      requires result.destination.Some? ==> result.sourceIndex < |items| && result.destination.value < |items|
      modifies this
      ensures result.destination.None? ==> items == old(items)
      ensures result.destination.Some? ==>
        items == Move(old(items), result.sourceIndex, result.destination.value)
      ensures |items| == |old(items)| && multiset(items) == multiset(old(items))
      ensures old(DistinctIds(items)) ==> DistinctIds(items)
      ensures editMode == old(editMode) && formValueItemText == old(formValueItemText)
      ensures values == old(values) && log == old(log)
    {
      if result.destination.None? {
        return;
      }
      if DistinctIds(items) {
        MovePreservesDistinct(items, result.sourceIndex, result.destination.value);
      }
      var tempItems := items;
      var reorderedItem := tempItems[result.sourceIndex];
      tempItems := Remove(tempItems, result.sourceIndex);
      tempItems := Insert(tempItems, result.destination.value, reorderedItem);
      items := tempItems;
    }

    /**
     * Save of the composer text `text`. Empty text does nothing. In edit mode the
     * edited entry gets the new text, keeping its id and place; if that id is no
     * longer in the list, the source reads a field of `undefined` and throws
     * (`threw`), before changing anything. Otherwise a new entry with id
     * `IdPrefix + uuid` is appended.
     */
    method HandleSave(text: string, uuid: string) returns (threw: bool)
      modifies this
      ensures values == old(values)
      ensures |text| == 0 ==>
        !threw && items == old(items) && editMode == old(editMode) &&
        formValueItemText == old(formValueItemText) && log == old(log)
      ensures |text| > 0 && !Truthy(old(editMode)) ==>
        !threw && items == old(items) + [Item(IdPrefix + uuid, text)] &&
        editMode == old(editMode) && formValueItemText == "" && log == old(log) + [Changed(items)]
      ensures |text| > 0 && Truthy(old(editMode)) ==>
        (threw <==> !HasId(old(items), old(editMode).id))
      ensures |text| > 0 && Truthy(old(editMode)) && threw ==>
        items == old(items) && editMode == old(editMode) &&
        formValueItemText == old(formValueItemText) && log == old(log)
      ensures |text| > 0 && Truthy(old(editMode)) && !threw ==>
        items == ReplaceText(old(items), FindIndex(old(items), old(editMode).id), text) &&
        editMode == NotEditing && formValueItemText == "" && log == old(log) + [Changed(items)]
      ensures old(DistinctIds(items)) && !old(HasId(items, IdPrefix + uuid)) ==> DistinctIds(items)
    {
      threw := false;
      var updatedItems: seq<Item>;
      if |text| == 0 {
        return;
      }
      if Truthy(editMode) {
        var updatedItemId := FindIndex(items, editMode.id);
        if updatedItemId == -1 {
          threw := true;
          return;
        }
        updatedItems := ReplaceText(items, updatedItemId, text);
        editMode := NotEditing;
      } else {
        updatedItems := items + [Item(IdPrefix + uuid, text)];
        if DistinctIds(items) && !HasId(items, IdPrefix + uuid) {
          AppendPreservesDistinct(items, IdPrefix + uuid, text);
        }
      }
      items := updatedItems;
      log := log + [Changed(updatedItems)];
      formValueItemText := "";
    }

    /** "Clear Selected": drop every selected entry, notify, and always send the clear sync. */
    method OnClearClick()
      modifies this
      ensures items == WithoutSelected(old(items), SelectedItems(values))
      ensures log == old(log) + ClearEvents(values, items)
      ensures old(DistinctIds(items)) ==> DistinctIds(items)
      ensures editMode == old(editMode) && formValueItemText == old(formValueItemText)
      ensures values == old(values)
    {
      var filteredArray := WithoutSelected(items, SelectedItems(values));
      if DistinctIds(items) {
        WithoutSelectedPreservesDistinct(items, SelectedItems(values));
      }
      items := filteredArray;
      log := log + [Changed(filteredArray)];
      log := log + [PostContentUpdate(WidgetId(values), ClearItems)];
      log := log + [SaveWidget(WidgetId(values), values, filteredArray)];
    }

    /** Start editing the entry with id `id`: its text goes into the composer. */
    method HandleEdit(id: ItemId)
      requires HasId(items, id)
      modifies this
      ensures items == old(items) && values == old(values) && log == old(log)
      ensures editMode == Editing(id)
      ensures formValueItemText == items[FindIndex(items, id)].itemText
    {
      var editItem := items[FindIndex(items, id)];
      formValueItemText := editItem.itemText;
      editMode := Editing(editItem.id);
    }

    /** Delete the entry at `itemIndex`; sync only when its id is selected. */
    method HandleDelete(itemIndex: nat)
      requires itemIndex < |items|
      modifies this
      ensures items == Remove(old(items), itemIndex)
      ensures log == old(log) + DeleteEvents(values, old(items)[itemIndex].id, items)
      ensures old(DistinctIds(items)) ==> DistinctIds(items) && !HasId(items, old(items)[itemIndex].id)
      ensures editMode == old(editMode) && formValueItemText == old(formValueItemText)
      ensures values == old(values)
    {
      var itemList := Remove(items, itemIndex);
      var itemId := items[itemIndex].id;
      if DistinctIds(items) {
        RemoveDropsId(items, itemIndex);
      }
      items := itemList;
      log := log + [Changed(itemList)];
      if itemId in SelectedItems(values) {
        log := log + [PostContentUpdate(WidgetId(values), SelectedItem(itemId))];
        log := log + [SaveWidget(WidgetId(values), values, itemList)];
      }
    }
  }

  /** Deleting a selected entry: the list shrinks and the sync names the removed id. */
  method ScenarioDeleteSelected() {
    var a, b := Item("A", "x"), Item("B", "y");
    var values := FormValues(Some("w1"), Some(["B"]));
    var editor := new ToDoListInput(Some([a, b]), values);
    editor.HandleDelete(1);
    assert editor.items == [a];
    assert editor.log == [Changed([a]), PostContentUpdate("w1", SelectedItem("B")), SaveWidget("w1", values, [a])];
  }

  /** Deleting an entry nobody selected: only the change notification. */
  method ScenarioDeleteUnselected() {
    var a, b := Item("A", "x"), Item("B", "y");
    var editor := new ToDoListInput(Some([a, b]), FormValues(Some("w1"), None));
    editor.HandleDelete(0);
    assert editor.items == [b];
    assert editor.log == [Changed([b])];
  }

  /** Saving empty text while editing leaves the editor in edit mode, with nothing sent. */
  method ScenarioEditThenSaveEmpty() {
    var a, b := Item("A", "x"), Item("B", "y");
    var editor := new ToDoListInput(Some([a, b]), FormValues(None, None));
    assert editor.items[0].id == "A";
    editor.HandleEdit("A");
    assert editor.formValueItemText == "x";
    var threw := editor.HandleSave("", "u1");
    assert !threw && editor.items == [a, b] && editor.editMode == Editing("A") && editor.log == [];
    threw := editor.HandleSave("z", "u2");
    assert !threw && editor.items == [Item("A", "z"), b] && editor.editMode == NotEditing;
  }

  /** Clearing the entry being edited leaves `editMode` dangling; the next save throws. */
  method ScenarioClearWhileEditing() {
    var a, b := Item("A", "x"), Item("B", "y");
    var editor := new ToDoListInput(Some([a, b]), FormValues(Some("w1"), Some(["A"])));
    assert editor.items[0].id == "A";
    editor.HandleEdit("A");
    editor.OnClearClick();
    assert editor.items == [b] by {
      assert b in editor.items && a !in editor.items;
    }
    assert !HasId(editor.items, "A");
    var threw := editor.HandleSave("z", "u1");
    assert threw && editor.items == [b];
  }
}
