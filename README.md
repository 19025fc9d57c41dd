# Cogboard to-do list editor and Jira bucket colours, in Dafny

This project models two pieces of the Cogboard web front-end.

**The to-do list editor** (`ToDoListInput`, the dialog field of a to-do list widget).
Its component state is the ordered list `items` of `{id, itemText}` entries, the
`editMode` flag (`false` or the id being edited) and the composer text
`formValueItemText`. It reads two things from its `values` prop: the widget id and
the ids in `content.selectedItems`. Its handlers are these:
- typing into the composer;
- saving, which adds an entry or updates the one being edited;
- starting an edit;
- deleting by position;
- "Clear Selected";
- the end of a drag, which reorders.

The model is the class `ToDoListInputField.ToDoListInput`. Its fields are the state
and the latest `values`. Every handler is a method whose contract gives the whole new
state. The list operations the handlers use are functions in module `ToDoItems`:
`findIndex`, ramda's `remove`, `splice`, `filter` and replacing one entry's text.
Lemmas about those functions give what the editor promises:
- reordering is a permutation that shifts exactly the entries between the two positions;
- dragging back undoes a drag;
- clearing keeps exactly the unselected entries, in their order;
- every handler keeps ids distinct, given a fresh id for a new entry.

Everything the editor sends outside is appended to a `log` of events: the form's
`onChange` (`Changed`), `postWidgetContentUpdate` (`PostContentUpdate`) and the
`saveWidget` dispatch (`SaveWidget`). The contracts state exactly when each is sent.
A delete syncs only when the removed id is selected. A clear always syncs. A drag
sends nothing.

**The bucket colour** (`checkThreshold` of the Jira buckets widget). It maps an
issue count and two thresholds, each parsed with `parseInt`, to red, yellow or no
colour. A parsed threshold is an `Option<int>`, with `None` standing for `NaN`.
JavaScript's two tests, `t !== 0` and `count >= t`, are modelled separately, so
that `NaN` passes the first test and fails the second.

The model follows the code as written, including these behaviours:
- The empty-text check is `length === 0`, with no trimming, so a text of spaces is saved.
- The end of a drag does not call `onChange`.
- Deleting an index that is out of range is not a no-op: the code reads `items[i].id` of `undefined`. `HandleDelete` therefore requires a valid index, which the rendered list always passes.
- Saving in edit mode after the edited entry has gone throws. This happens, for example, after "Clear Selected" removed the entry being edited, because `findIndex` gives -1. `HandleSave` returns `threw` and leaves the state unchanged in that case. This is not a precondition, because callers cannot rule it out; `ScenarioClearWhileEditing` shows the sequence.
- `if (editMode)` tests truthiness. An entry seeded with the empty id therefore puts a later save into add mode (`Truthy`).
- The guard `if (!selectedItems) return;` in `onClearClick` never fires, because `selectedItems` is always an array. The model has no such branch.

## Model

| member | source | states |
|---|---|---|
| `JiraBucketsWidget.CheckThreshold` | cogboard-webapp/src/components/widgets/types/JiraBucketsWidget.js:13-20 | red exactly when the error level fires (numeric, non-zero, reached); yellow exactly when red does not and the warning level fires; no colour exactly when neither fires |
| `JiraBucketsWidget.RedIgnoresWarning` | cogboard-webapp/src/components/widgets/types/JiraBucketsWidget.js:17 | once the error level fires the result is red, whatever the warning threshold |
| `JiraBucketsWidget.ZeroDisables` | cogboard-webapp/src/components/widgets/types/JiraBucketsWidget.js:17-19 | a zero error threshold never gives red, a zero warning threshold never gives yellow, both zero give no colour |
| `JiraBucketsWidget.NaNNeverFires` | cogboard-webapp/src/components/widgets/types/JiraBucketsWidget.js:14-18 | `NaN !== 0` holds but `count >= NaN` does not, so a `NaN` threshold never triggers its level; two `NaN`s give no colour |
| `JiraBucketsWidget.MoreIssuesNoLessSevere` | cogboard-webapp/src/components/widgets/types/JiraBucketsWidget.js:13-20 | for fixed thresholds, a larger issue count never gives a less severe colour |
| `ToDoItems.FindIndex` | cogboard-webapp/src/components/widgets/dialogFields/ToDoListinput.js:67 | -1 exactly when no entry has the id; otherwise the first position holding it |
| `ToDoItems.FindIndexUnique` | cogboard-webapp/src/components/widgets/dialogFields/ToDoListinput.js:109 | with distinct ids the lookup finds the one entry holding the id |
| `ToDoItems.Remove` | cogboard-webapp/src/components/widgets/dialogFields/ToDoListinput.js:115 | one element shorter; the elements before the index stay in place, those after it move down by one; the multiset loses exactly the removed element |
| `ToDoItems.Insert` | cogboard-webapp/src/components/widgets/dialogFields/ToDoListinput.js:43 | one element longer; the new element sits at the index and later ones move up by one; the multiset gains exactly it |
| `ToDoItems.Move` | cogboard-webapp/src/components/widgets/dialogFields/ToDoListinput.js:41-43 | same length and multiset; the moved element ends at the destination |
| `ToDoItems.MoveAt` | cogboard-webapp/src/components/widgets/dialogFields/ToDoListinput.js:41-43 | every position of the reordered list holds the original element it came from, and only the elements between source and destination shift by one |
| `ToDoItems.MoveBack` | cogboard-webapp/src/components/widgets/dialogFields/ToDoListinput.js:38-46 | dragging from the destination back to the source restores the original list |
| `ToDoItems.MovePreservesDistinct` | cogboard-webapp/src/components/widgets/dialogFields/ToDoListinput.js:38-46 | reordering keeps ids distinct |
| `ToDoItems.WithoutSelected` | cogboard-webapp/src/components/widgets/dialogFields/ToDoListinput.js:91-92 | an entry is in the result exactly when it is in the list and its id is not selected; never longer than the list |
| `ToDoItems.WithoutSelectedAppend` | cogboard-webapp/src/components/widgets/dialogFields/ToDoListinput.js:92 | the filter distributes over concatenation, so the original order is kept |
| `ToDoItems.WithoutSelectedCount` | cogboard-webapp/src/components/widgets/dialogFields/ToDoListinput.js:91-92 | every unselected entry is kept as many times as it occurs; every selected one is dropped |
| `ToDoItems.WithoutSelectedNothingSelected` | cogboard-webapp/src/components/widgets/dialogFields/ToDoListinput.js:91-92 | when no entry's id is selected, the filter returns the list unchanged |
| `ToDoItems.WithoutSelectedIdempotent` | cogboard-webapp/src/components/widgets/dialogFields/ToDoListinput.js:88-105 | clearing a second time with the same selection changes nothing |
| `ToDoItems.WithoutSelectedPreservesDistinct` | cogboard-webapp/src/components/widgets/dialogFields/ToDoListinput.js:92 | the filter keeps ids distinct |
| `ToDoItems.ReplaceText` | cogboard-webapp/src/components/widgets/dialogFields/ToDoListinput.js:66-71 | same length and the same id at every position; only the chosen entry's text changes, to the new text |
| `ToDoItems.AppendPreservesDistinct` | cogboard-webapp/src/components/widgets/dialogFields/ToDoListinput.js:74-80 | appending an entry with an unused id keeps ids distinct |
| `ToDoItems.RemoveDropsId` | cogboard-webapp/src/components/widgets/dialogFields/ToDoListinput.js:114-118 | with distinct ids, deletion keeps them distinct and the removed id is no longer in the list |
| `ToDoListInputField.DeleteEvents` | cogboard-webapp/src/components/widgets/dialogFields/ToDoListinput.js:119-129 | first the change notification with the new list; then the content update naming the removed id and the widget save, exactly when that id is selected |
| `ToDoListInputField.ClearEvents` | cogboard-webapp/src/components/widgets/dialogFields/ToDoListinput.js:94-105 | always three events: the change, the `clearItems` content update, and the widget save with the filtered list |
| `ToDoListInputField.ToDoListInput.constructor` | cogboard-webapp/src/components/widgets/dialogFields/ToDoListinput.js:20-36 | items seeded from `value` (empty when absent), not editing, empty composer, nothing sent |
| `ToDoListInputField.ToDoListInput.Rerender` | cogboard-webapp/src/components/widgets/dialogFields/ToDoListinput.js:24-28 | new props replace `values`; items, edit mode, composer and log are kept |
| `ToDoListInputField.ToDoListInput.HandleChangeValItemText` | cogboard-webapp/src/components/widgets/dialogFields/ToDoListinput.js:25-26 | only the composer text changes |
| `ToDoListInputField.ToDoListInput.HandleOnDragEnd` | cogboard-webapp/src/components/widgets/dialogFields/ToDoListinput.js:38-46 | no destination: nothing changes; otherwise the items are the source entry moved to the destination; length, multiset and distinct ids kept; nothing sent |
| `ToDoListInputField.ToDoListInput.HandleSave` | cogboard-webapp/src/components/widgets/dialogFields/ToDoListinput.js:58-86 | empty text: nothing changes. Add mode: one entry with id `item-<uuid>` appended, earlier entries untouched, one change event, composer cleared. Edit mode: only the edited entry's text changes, edit mode ends, one change event, composer cleared; it throws with nothing changed exactly when the edited id is gone. Distinct ids are kept when the new id is fresh |
| `ToDoListInputField.ToDoListInput.OnClearClick` | cogboard-webapp/src/components/widgets/dialogFields/ToDoListinput.js:88-106 | items become exactly the unselected entries; the change, clear sync and widget save are always sent; edit mode and composer kept |
| `ToDoListInputField.ToDoListInput.HandleEdit` | cogboard-webapp/src/components/widgets/dialogFields/ToDoListinput.js:108-112 | for an id in the list: edit mode holds that id, the composer holds its entry's text, items and log unchanged |
| `ToDoListInputField.ToDoListInput.HandleDelete` | cogboard-webapp/src/components/widgets/dialogFields/ToDoListinput.js:114-130 | for an index in range: items lose exactly that entry; the events are those of `DeleteEvents`, syncing exactly when the removed id is selected; with distinct ids the removed id is gone |

## Left out

- Rendering: the JSX of the editor (ToDoListinput.js:132-236) and the bucket table (JiraBucketsWidget.js:22-62) are user interface only.
- `onSaveClick` and `resetInput` (ToDoListinput.js:48-56) are not separate members. `onSaveClick` passes the composer text to `HandleSave`, and `resetInput` is the composer reset inside it.
- React's state semantics are not modelled: each setter is an assignment, and re-render batching and bail-out are ignored. The drag handler splices the state array in place and the edit branch of save assigns into it, so the same array object is mutated. Arrays earlier handed to `onChange` are therefore aliased and change as well. The model gives every handler a fresh list value, so this aliasing is not captured.
- `uuid.v4` is a parameter `uuid` of `HandleSave`. Its uniqueness is an assumption, stated where it is used: the distinct-id postcondition of `HandleSave`.
- `prepareChangeEvent` (in a helpers file that is not part of this model) is the opaque event `Changed(list)`.
- `postWidgetContentUpdate` and the `saveWidget` thunk are network and store calls. They are log entries only; whether they succeed is not modelled.
- The `values` prop is modelled only through `values.id` and `content.selectedItems`; its other fields travel unchanged into `SaveWidget`.
- Ids are strings. An id of another JavaScript type (a number from a seeded `value`) is not modelled.
- `parseInt` itself is not modelled. Thresholds arrive already parsed, and issue counts are integers.
- `COLORS` is the enumeration `Color`; its CSS values are not modelled.
- HandleOnDragEnd requires both drag indices to be in range, as the drag-and-drop library reports them; a `splice` with an out-of-range source index is not modelled.
