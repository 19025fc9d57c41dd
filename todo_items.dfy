/**
 * The to-do item list of ToDoListinput.js and the list operations its handlers
 * perform: `findIndex`, ramda's `remove`, `splice`, `filter` and the update of one
 * entry's text.
 */
module ToDoItems {

  type ItemId = string

  /** One entry of the list, `{id, itemText}`. */
  datatype Item = Item(id: ItemId, itemText: string)

  /** Prefix of every id the editor generates (`item-${v4()}`). */
  const IdPrefix: string := "item-"

  /** Some entry of `items` has id `id`. */
  predicate HasId(items: seq<Item>, id: ItemId) {
    exists k :: 0 <= k < |items| && items[k].id == id
  }

  /** No two entries share an id. */
  predicate DistinctIds(items: seq<Item>) {
    forall i, j :: 0 <= i < j < |items| ==> items[i].id != items[j].id
  }

  /** `items.findIndex(el => el.id === id)`: the first position holding `id`, or -1. */
  function FindIndex(items: seq<Item>, id: ItemId): (r: int)
    ensures -1 <= r < |items|
    ensures r == -1 <==> !HasId(items, id)
    ensures 0 <= r ==> items[r].id == id && forall k :: 0 <= k < r ==> items[k].id != id
  {
    if |items| == 0 then -1
    else if items[0].id == id then 0
    else
      var r := FindIndex(items[1..], id);
      assert forall k :: 0 < k < |items| ==> items[k] == items[1..][k - 1];
      if r == -1 then -1 else r + 1
  }

  /** With distinct ids, FindIndex is the one position holding `id`. */
  lemma FindIndexUnique(items: seq<Item>, id: ItemId, k: nat)
    requires DistinctIds(items) && k < |items| && items[k].id == id
    ensures FindIndex(items, id) == k
  {
  }

  /** `remove(i, 1, s)`: `s` without its element at `i`, the others kept in order. */
  function Remove<T>(s: seq<T>, i: nat): (r: seq<T>)
    requires i < |s|
    ensures |r| == |s| - 1
    ensures forall k :: 0 <= k < |r| ==> r[k] == if k < i then s[k] else s[k + 1]
    ensures multiset(r) + multiset{s[i]} == multiset(s)
  {
    assert s == s[..i] + [s[i]] + s[i + 1..];
    s[..i] + s[i + 1..]
  }

  /** `s.splice(i, 0, x)` for `i <= |s|`: `x` placed at position `i`, later elements shifted up. */
  function Insert<T>(s: seq<T>, i: nat, x: T): (r: seq<T>)
    requires i <= |s|
    ensures |r| == |s| + 1
    ensures forall k :: 0 <= k < |r| ==> r[k] == if k < i then s[k] else if k == i then x else s[k - 1]
    ensures multiset(r) == multiset(s) + multiset{x}
  {
    assert s == s[..i] + s[i..];
    s[..i] + [x] + s[i..]
  }

  /** The drag reorder: the element at `from` is taken out and put back in at `to`. */
  function Move<T>(s: seq<T>, from: nat, to: nat): (r: seq<T>)
    requires from < |s| && to < |s|
    ensures |r| == |s|
    ensures multiset(r) == multiset(s)
    ensures r[to] == s[from]
  {
    Insert(Remove(s, from), to, s[from])
  }

  /** The position in the original list of what Move(s, from, to) holds at `k`. */
  function MovedFrom(from: nat, to: nat, k: nat): nat {
    if k == to then from
    else if from < to && from <= k < to then k + 1
    else if to < from && to < k <= from then k - 1
    else k
  }

  /** Move shifts exactly the elements between `from` and `to` by one place. */
  lemma MoveAt<T>(s: seq<T>, from: nat, to: nat, k: nat)
    requires from < |s| && to < |s| && k < |s|
    ensures MovedFrom(from, to, k) < |s|
    ensures Move(s, from, to)[k] == s[MovedFrom(from, to, k)]
  {
  }

  /** Moving from `to` back to `from` undoes moving from `from` to `to`, position by position. */
  lemma MovedFromBack(from: nat, to: nat, k: nat)
    ensures MovedFrom(from, to, MovedFrom(to, from, k)) == k
  {
  }

  /** Dragging an item back to where it came from restores the list. */
  lemma {:induction false} MoveBack<T>(s: seq<T>, from: nat, to: nat)
    requires from < |s| && to < |s|
    ensures Move(Move(s, from, to), to, from) == s
  {
    var m := Move(s, from, to);
    var b := Move(m, to, from);
    forall k | 0 <= k < |s|
      ensures b[k] == s[k]
    {
      MoveAt(m, to, from, k);
      var j := MovedFrom(to, from, k);
      MoveAt(s, from, to, j);
      MovedFromBack(from, to, k);
    }
  }

  /** Moving a list whose ids are distinct keeps them distinct. */
  lemma {:induction false} MovePreservesDistinct(items: seq<Item>, from: nat, to: nat)
    requires from < |items| && to < |items| && DistinctIds(items)
    ensures DistinctIds(Move(items, from, to))
  {
    var m := Move(items, from, to);
    forall i, j | 0 <= i < j < |m|
      ensures m[i].id != m[j].id
    {
      MoveAt(items, from, to, i);
      MoveAt(items, from, to, j);
    }
  }

  /** `items.filter(obj => !new Set(selected).has(obj.id))`. */
  function WithoutSelected(items: seq<Item>, selected: seq<ItemId>): (r: seq<Item>)
    ensures |r| <= |items|
    ensures forall x :: x in r <==> x in items && x.id !in selected
  {
    if items == [] then []
    else
      assert forall x :: x in items <==> x == items[0] || x in items[1..];
      if items[0].id in selected then WithoutSelected(items[1..], selected)
      else [items[0]] + WithoutSelected(items[1..], selected)
  }

  /** Filtering keeps the order: it distributes over concatenation. */
  lemma {:induction false} WithoutSelectedAppend(a: seq<Item>, b: seq<Item>, selected: seq<ItemId>)
    ensures WithoutSelected(a + b, selected) == WithoutSelected(a, selected) + WithoutSelected(b, selected)
  {
    if a == [] {
      assert a + b == b;
    } else {
      assert (a + b)[0] == a[0];
      assert (a + b)[1..] == a[1..] + b;
      WithoutSelectedAppend(a[1..], b, selected);
    }
  }

  /** Filtering keeps every unselected entry as often as it occurs and drops every selected one. */
  lemma {:induction false} WithoutSelectedCount(items: seq<Item>, selected: seq<ItemId>, x: Item)
    ensures multiset(WithoutSelected(items, selected))[x] == if x.id in selected then 0 else multiset(items)[x]
  {
    if items != [] {
      assert items == [items[0]] + items[1..];
      WithoutSelectedCount(items[1..], selected, x);
    }
  }

  /** With nothing selected that is in the list, filtering returns the list itself. */
  lemma {:induction false} WithoutSelectedNothingSelected(items: seq<Item>, selected: seq<ItemId>)
    requires forall k :: 0 <= k < |items| ==> items[k].id !in selected
    ensures WithoutSelected(items, selected) == items
  {
    if items != [] {
      WithoutSelectedNothingSelected(items[1..], selected);
    }
  }

  /** Clearing twice is clearing once. */
  lemma WithoutSelectedIdempotent(items: seq<Item>, selected: seq<ItemId>)
    ensures WithoutSelected(WithoutSelected(items, selected), selected) == WithoutSelected(items, selected)
  {
    var r := WithoutSelected(items, selected);
    assert forall k :: 0 <= k < |r| ==> r[k] in r;
    WithoutSelectedNothingSelected(r, selected);
  }

  /** Filtering a list whose ids are distinct keeps them distinct. */
  lemma {:induction false} WithoutSelectedPreservesDistinct(items: seq<Item>, selected: seq<ItemId>)
    requires DistinctIds(items)
    ensures DistinctIds(WithoutSelected(items, selected))
  {
    if items != [] {
      var rest := items[1..];
      assert DistinctIds(rest);
      WithoutSelectedPreservesDistinct(rest, selected);
      var r := WithoutSelected(rest, selected);
      forall x | x in r
        ensures x.id != items[0].id
      {
        var k :| 0 <= k < |rest| && rest[k] == x;
        assert items[k + 1] == x;
      }
      assert forall k :: 0 <= k < |r| ==> r[k] in r;
    }
  }

  /** `{id: items[i].id, itemText: text}` stored at position `i`. */
  function ReplaceText(items: seq<Item>, i: nat, text: string): (r: seq<Item>)
    requires i < |items|
    ensures |r| == |items|
    ensures forall k :: 0 <= k < |r| ==> r[k].id == items[k].id
    ensures r[i].itemText == text
    ensures forall k :: 0 <= k < |r| && k != i ==> r[k] == items[k]
  {
    items[i := Item(items[i].id, text)]
  }

  /** Appending an entry whose id is not yet used keeps ids distinct. */
  lemma AppendPreservesDistinct(items: seq<Item>, id: ItemId, text: string)
    requires DistinctIds(items) && !HasId(items, id)
    ensures DistinctIds(items + [Item(id, text)])
  {
  }

  /** Removing an entry keeps ids distinct, and its id is then gone from the list. */
  lemma RemoveDropsId(items: seq<Item>, i: nat)
    requires i < |items| && DistinctIds(items)
    ensures DistinctIds(Remove(items, i))
    ensures !HasId(Remove(items, i), items[i].id)
  {
  }
}
