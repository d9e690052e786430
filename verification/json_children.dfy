/** The children of an array or object: a doubly linked list, edited by rewiring. */
module JsonChildren {
  /** A node of the tree, as far as the list of its parent and the list of its own children go. `value` stands
      for the rest of it. */
  class Item {
    var next: Item?
    var prev: Item?
    var child: Item?
    const value: int

    constructor (value: int)
      ensures this.value == value && next == null && prev == null && child == null
    {
      this.value := value;
      next, prev, child := null, null, null;
    }
  }

  /** The item itself, if there is one. */
  function Self(item: Item?): set<Item> {
    if item == null then {} else {item}
  }

  function Of(s: seq<Item>): set<Item> {
    set x | x in s
  }

  function At(s: seq<Item>, i: int): Item? {
    if 0 <= i < |s| then s[i] else null
  }

  ghost predicate Linked(s: seq<Item>)
    reads s
  {
    forall i :: 0 <= i < |s| ==> s[i].prev == At(s, i - 1) && s[i].next == At(s, i + 1)
  }

  predicate Distinct(s: seq<Item>) {
    forall i, j :: 0 <= i < j < |s| ==> s[i] != s[j]
  }

  /** `s` are the children: the list starts at `child`, has no cycle, and is linked both ways. */
  ghost predicate Children(parent: Item, s: seq<Item>)
    reads parent, s
  {
    parent !in s && Distinct(s) && Linked(s) && parent.child == At(s, 0)
  }

  /** An item on its own. */
  ghost predicate Loose(item: Item, parent: Item, s: seq<Item>)
    reads item
  {
    item != parent && item !in s && item.next == null && item.prev == null
  }

  function Inserted(s: seq<Item>, k: nat, x: Item): seq<Item>
    requires k <= |s|
  {
    s[..k] + [x] + s[k..]
  }

  function Removed(s: seq<Item>, k: nat): seq<Item>
    requires k < |s|
  {
    s[..k] + s[k + 1..]
  }

  /** The links are those of `s`, except at three places in a row. */
  ghost predicate LinkedBut(s: seq<Item>, k: int)
    reads s
  {
    forall i :: 0 <= i < |s| && i != k - 1 && i != k && i != k + 1 ==>
      s[i].prev == At(s, i - 1) && s[i].next == At(s, i + 1)
  }

  /** An item is none of the others. */
  lemma Apart(s: seq<Item>, k: nat)
    requires Distinct(s) && k < |s|
    ensures forall i :: 0 <= i < |s| && i != k ==> s[i] != s[k]
    ensures k > 0 ==> forall i :: 0 <= i < |s| && i != k - 1 ==> s[i] != s[k - 1]
    ensures k + 1 < |s| ==> forall i :: 0 <= i < |s| && i != k + 1 ==> s[i] != s[k + 1]
  {}

  /** Wiring the neighbours of an item to each other takes it out. */
  lemma Bypassed(parent: Item, s: seq<Item>, k: nat)
    requires Distinct(s) && parent !in s && k < |s| && LinkedBut(s, k)
    requires k > 0 ==> s[k - 1].next == At(s, k + 1) && s[k - 1].prev == At(s, k - 2)
    requires k + 1 < |s| ==> s[k + 1].prev == At(s, k - 1) && s[k + 1].next == At(s, k + 2)
    requires parent.child == if k == 0 then At(s, 1) else At(s, 0)
    ensures Children(parent, Removed(s, k))
  {
    var r := Removed(s, k);
    RemovedDistinct(s, k);
    forall i | 0 <= i < |r|
      ensures r[i].prev == At(r, i - 1) && r[i].next == At(r, i + 1)
    {
      RemovedAt(s, k, i);
      if i > 0 {
        RemovedAt(s, k, i - 1);
      }
      if i + 1 < |r| {
        RemovedAt(s, k, i + 1);
      }
    }
  }

  lemma RemovedAt(s: seq<Item>, k: nat, i: nat)
    requires k < |s| && i + 1 < |s|
    ensures Removed(s, k)[i] == if i < k then s[i] else s[i + 1]
  {}

  lemma RemovedDistinct(s: seq<Item>, k: nat)
    requires Distinct(s) && k < |s|
    ensures Distinct(Removed(s, k)) && s[k] !in Removed(s, k)
  {
    var r := Removed(s, k);
    forall i, j | 0 <= i < j < |r|
      ensures r[i] != r[j]
    {
      RemovedAt(s, k, i);
      RemovedAt(s, k, j);
    }
    forall i | 0 <= i < |r|
      ensures r[i] != s[k]
    {
      RemovedAt(s, k, i);
    }
  }

  /** Wiring a new item between two neighbours puts it there. */
  lemma Spliced(parent: Item, s: seq<Item>, k: nat, item: Item)
    requires Distinct(s) && parent !in s && k < |s| && item != parent && item !in s
    requires forall i :: 0 <= i < |s| && i != k - 1 && i != k ==> s[i].prev == At(s, i - 1) && s[i].next == At(s, i + 1)
    requires k > 0 ==> s[k - 1].next == item && s[k - 1].prev == At(s, k - 2)
    requires s[k].prev == item && s[k].next == At(s, k + 1)
    requires item.prev == At(s, k - 1) && item.next == s[k]
    requires parent.child == if k == 0 then item else s[0]
    ensures Children(parent, Inserted(s, k, item))
  {
    var r := Inserted(s, k, item);
    InsertedDistinct(s, k, item);
    forall i | 0 <= i < |r|
      ensures r[i].prev == At(r, i - 1) && r[i].next == At(r, i + 1)
    {
      InsertedAt(s, k, item, i);
      if i > 0 {
        InsertedAt(s, k, item, i - 1);
      }
      if i + 1 < |r| {
        InsertedAt(s, k, item, i + 1);
      }
    }
  }

  lemma InsertedAt(s: seq<Item>, k: nat, x: Item, i: nat)
    requires k <= |s| && i <= |s|
    ensures Inserted(s, k, x)[i] == if i < k then s[i] else if i == k then x else s[i - 1]
  {}

  lemma InsertedDistinct(s: seq<Item>, k: nat, x: Item)
    requires Distinct(s) && k <= |s| && x !in s
    ensures Distinct(Inserted(s, k, x))
  {
    var r := Inserted(s, k, x);
    forall i, j | 0 <= i < j < |r|
      ensures r[i] != r[j]
    {
      InsertedAt(s, k, x, i);
      InsertedAt(s, k, x, j);
    }
  }

  /** Wiring the neighbours of an item to another puts that in its place. */
  lemma Substituted(parent: Item, s: seq<Item>, k: nat, item: Item)
    requires Distinct(s) && parent !in s && k < |s| && item != parent && item !in s && LinkedBut(s, k)
    requires k > 0 ==> s[k - 1].next == item && s[k - 1].prev == At(s, k - 2)
    requires k + 1 < |s| ==> s[k + 1].prev == item && s[k + 1].next == At(s, k + 2)
    requires item.prev == At(s, k - 1) && item.next == At(s, k + 1)
    requires parent.child == if k == 0 then item else At(s, 0)
    ensures Children(parent, s[k := item])
  {
    var r := s[k := item];
    forall i | 0 <= i < |r|
      ensures r[i].prev == At(r, i - 1) && r[i].next == At(r, i + 1)
    {
      assert i != k ==> r[i] == s[i];
    }
  }

  method GetArraySize(parent: Item?, ghost s: seq<Item>) returns (size: nat)
    requires parent != null ==> Children(parent, s)
    ensures size == if parent == null then 0 else |s|
  {
    if parent == null {
      return 0;
    }
    var child := parent.child;
    size := 0;
    while child != null
      invariant size <= |s| && child == At(s, size)
      decreases |s| - size
    {
      size := size + 1;
      child := child.next;
    }
  }

  method GetItem(parent: Item?, index: nat, ghost s: seq<Item>) returns (item: Item?)
    requires parent != null ==> Children(parent, s)
    ensures item == if parent == null then null else At(s, index)
  {
    if parent == null {
      return null;
    }
    item := parent.child;
    var left := index;
    while item != null && left > 0
      invariant 0 <= left <= index && item == At(s, index - left)
    {
      left := left - 1;
      item := item.next;
    }
  }

  method GetArrayItem(parent: Item?, index: int, ghost s: seq<Item>) returns (item: Item?)
    requires parent != null ==> Children(parent, s)
    ensures item == if parent == null then null else At(s, index)
  {
    if index < 0 {
      return null;
    }
    item := GetItem(parent, index, s);
  }

  /** Appends an item. */
  method AddItemToArray(parent: Item?, item: Item?, ghost s: seq<Item>) returns (ok: bool)
    requires parent != null ==> Children(parent, s)
    requires parent != null && item != null ==> Loose(item, parent, s)
    modifies Self(parent)`child, Self(item)`next, Self(item)`prev, Of(s)`next, Of(s)`prev
    ensures ok == (parent != null && item != null)
    ensures ok ==> Children(parent, s + [item])
  {
    if item == null || parent == null {
      return false;
    }
    var child := parent.child;
    if child == null {
      parent.child := item;
    } else {
      ghost var k := 0;
      while child.next != null
        invariant 0 <= k < |s| && child == s[k]
        decreases |s| - k
      {
        child := child.next;
        k := k + 1;
      }
      child.next := item;
      item.prev := child;
    }
    ok := true;
  }

  /** Inserts an item before another, or appends it if there is none at that place. A negative place is
      ignored. */
  method InsertItemInArray(parent: Item, which: int, item: Item, ghost s: seq<Item>)
    requires Children(parent, s) && Loose(item, parent, s)
    modifies parent`child, item`next, item`prev, Of(s)`next, Of(s)`prev
    ensures which >= 0 ==> Children(parent, Inserted(s, if which < |s| then which else |s|, item))
    ensures which < 0 ==> Children(parent, s) && item.next == old(item.next) && item.prev == old(item.prev)
  {
    if which < 0 {
      return;
    }
    var after := GetItem(parent, which, s);
    if after == null {
      assert Inserted(s, |s|, item) == s + [item];
      var ok := AddItemToArray(parent, item, s);
      return;
    }
    LinkBefore(parent, after, item, s, which);
  }

  method LinkBefore(parent: Item, after: Item, item: Item, ghost s: seq<Item>, ghost k: nat)
    requires Children(parent, s) && k < |s| && s[k] == after && Loose(item, parent, s)
    modifies parent`child, item`next, item`prev, Of(s)`next, Of(s)`prev
    ensures Children(parent, Inserted(s, k, item))
  {
    hide Distinct;
    Apart(s, k);
    item.next := after;
    item.prev := after.prev;
    after.prev := item;
    if after == parent.child {
      parent.child := item;
    } else {
      item.prev.next := item;
    }
    Spliced(parent, s, k, item);
  }

  /** Takes an item out of the list it is in. */
  method DetachItemViaPointer(parent: Item?, item: Item?, ghost s: seq<Item>, ghost k: nat) returns (out: Item?)
    requires parent != null ==> Children(parent, s)
    requires parent != null && item != null ==> k < |s| && s[k] == item
    modifies Self(parent)`child, Of(s)`next, Of(s)`prev
    ensures out == if parent == null then null else item
    ensures parent != null ==>
      if item == null then Children(parent, s)
      else Children(parent, Removed(s, k)) && Loose(item, parent, Removed(s, k))
  {
    if parent == null || item == null {
      return null;
    }
    if item.prev != null {
      item.prev.next := item.next;
    }
    if item.next != null {
      item.next.prev := item.prev;
    }
    if item == parent.child {
      parent.child := item.next;
    }
    item.prev := null;
    item.next := null;
    out := item;
    Bypassed(parent, s, k);
  }

  /** Takes out the item at a place; a place that is not there is no error. */
  method DetachItemFromArray(parent: Item?, which: int, ghost s: seq<Item>) returns (out: Item?)
    requires parent != null ==> Children(parent, s)
    modifies Self(parent)`child, Of(s)`next, Of(s)`prev
    ensures out == if parent == null then null else At(s, which)
    ensures parent != null ==>
      if 0 <= which < |s| then Children(parent, Removed(s, which)) && Loose(s[which], parent, Removed(s, which))
      else Children(parent, s)
  {
    if which < 0 {
      return null;
    }
    var item := GetItem(parent, which, s);
    out := DetachItemViaPointer(parent, item, s, which);
  }

  /** Puts an item in the place of another, which is dropped. */
  method ReplaceItemViaPointer(parent: Item?, item: Item?, replacement: Item?, ghost s: seq<Item>, ghost k: nat)
    returns (ok: bool)
    requires parent != null ==> Children(parent, s)
    requires parent != null && item != null ==> k < |s| && s[k] == item
    requires parent != null && replacement != null ==> replacement == item || Loose(replacement, parent, s)
    modifies Self(parent)`child, Self(replacement)`next, Self(replacement)`prev, Of(s)`next, Of(s)`prev
    ensures ok == (parent != null && item != null && replacement != null)
    ensures parent != null ==> Children(parent, if ok then s[k := replacement] else s)
  {
    if parent == null || replacement == null || item == null {
      return false;
    }
    if replacement == item {
      assert s[k := replacement] == s;
      return true;
    }
    Rewire(parent, item, replacement, s, k);
    ok := true;
  }

  method Rewire(parent: Item, item: Item, replacement: Item, ghost s: seq<Item>, ghost k: nat)
    requires Children(parent, s) && k < |s| && s[k] == item && Loose(replacement, parent, s)
    modifies parent`child, replacement`next, replacement`prev, Of(s)`next, Of(s)`prev
    ensures Children(parent, s[k := replacement])
  {
    hide Distinct;
    Apart(s, k);
    replacement.next := item.next;
    replacement.prev := item.prev;
    if replacement.next != null {
      replacement.next.prev := replacement;
    }
    if replacement.prev != null {
      replacement.prev.next := replacement;
    }
    if parent.child == item {
      parent.child := replacement;
    }
    item.next := null;
    item.prev := null;
    Substituted(parent, s, k, replacement);
  }

  method ReplaceItemInArray(parent: Item?, which: int, item: Item?, ghost s: seq<Item>) returns (ok: bool)
    requires parent != null ==> Children(parent, s)
    requires parent != null && item != null ==> Loose(item, parent, s)
    modifies Self(parent)`child, Self(item)`next, Self(item)`prev, Of(s)`next, Of(s)`prev
    ensures ok == (parent != null && item != null && 0 <= which < |s|)
    ensures parent != null ==> Children(parent, if ok then s[which := item] else s)
  {
    if which < 0 {
      return false;
    }
    var old' := GetItem(parent, which, s);
    ok := ReplaceItemViaPointer(parent, old', item, s, which);
  }

  datatype Edit =
    | Append(value: int)
    | Insert(which: int, value: int)
    | Detach(which: int)
    | Replace(which: int, value: int)

  /** What an edit does to the sequence of the children's values. */
  function Edited(list: seq<int>, e: Edit): seq<int> {
    match e
    case Append(v) => list + [v]
    case Insert(k, v) =>
      if k < 0 then list else if k < |list| then list[..k] + [v] + list[k..] else list + [v]
    case Detach(k) => if 0 <= k < |list| then list[..k] + list[k + 1..] else list
    case Replace(k, v) => if 0 <= k < |list| then list[k := v] else list
  }

  function EditedAll(list: seq<int>, edits: seq<Edit>): seq<int> {
    if |edits| == 0 then list else Edited(EditedAll(list, edits[..|edits| - 1]), edits[|edits| - 1])
  }

  lemma EditedNext(edits: seq<Edit>, n: nat)
    requires n < |edits|
    ensures EditedAll([], edits[..n + 1]) == Edited(EditedAll([], edits[..n]), edits[n])
  {
    assert edits[..n + 1][..n] == edits[..n];
  }

  lemma EditedNone(edits: seq<Edit>)
    ensures Values([]) == EditedAll([], edits[..0])
  {}

  function Values(s: seq<Item>): (v: seq<int>)
    ensures |v| == |s| && forall i :: 0 <= i < |s| ==> v[i] == s[i].value
  {
    seq(|s|, i requires 0 <= i < |s| => s[i].value)
  }

  lemma ValuesLength(s: seq<Item>)
    ensures |Values(s)| == |s|
  {}

  lemma ValuesInserted(s: seq<Item>, k: nat, item: Item)
    requires k <= |s|
    ensures |Values(s)| == |s| && Values(Inserted(s, k, item)) == Values(s)[..k] + [item.value] + Values(s)[k..]
    ensures forall x :: x in Inserted(s, k, item) ==> x in s || x == item
  {}

  /** Any run of edits with new items keeps the list well linked, with the children the edits say. */
  method Run(parent: Item, edits: seq<Edit>) returns (ghost s: seq<Item>)
    requires parent.child == null
    modifies parent`child
    ensures Children(parent, s) && Values(s) == EditedAll([], edits)
  {
    s := [];
    assert Children(parent, s);
    hide Children, Edited, Values, EditedAll;
    EditedNone(edits);
    for n := 0 to |edits|
      invariant Children(parent, s) && (forall x :: x in s ==> fresh(x))
      invariant Values(s) == EditedAll([], edits[..n])
    {
      EditedNext(edits, n);
      s := Apply(parent, edits[n], s);
    }
    assert edits[..|edits|] == edits;
  }

  method Apply(parent: Item, e: Edit, ghost s: seq<Item>) returns (ghost t: seq<Item>)
    requires Children(parent, s)
    modifies parent`child, Of(s)`next, Of(s)`prev
    ensures Children(parent, t) && Values(t) == Edited(Values(s), e)
    ensures forall x :: x in t ==> x in s || fresh(x)
  {
    hide Children;
    match e
    case Append(v) => t := ApplyAppend(parent, v, s);
    case Insert(k, v) => t := ApplyInsert(parent, k, v, s);
    case Detach(k) => t := ApplyDetach(parent, k, s);
    case Replace(k, v) => t := ApplyReplace(parent, k, v, s);
  }

  method ApplyAppend(parent: Item, v: int, ghost s: seq<Item>) returns (ghost t: seq<Item>)
    requires Children(parent, s)
    modifies parent`child, Of(s)`next, Of(s)`prev
    ensures Children(parent, t) && Values(t) == Edited(Values(s), Append(v))
    ensures forall x :: x in t ==> x in s || fresh(x)
  {
    hide Linked, Distinct;
    var item := new Item(v);
    var ok := AddItemToArray(parent, item, s);
    t := s + [item];
  }

  method ApplyInsert(parent: Item, k: int, v: int, ghost s: seq<Item>) returns (ghost t: seq<Item>)
    requires Children(parent, s)
    modifies parent`child, Of(s)`next, Of(s)`prev
    ensures Children(parent, t) && Values(t) == Edited(Values(s), Insert(k, v))
    ensures forall x :: x in t ==> x in s || fresh(x)
  {
    hide Children, Inserted, Values;
    var item := new Item(v);
    InsertItemInArray(parent, k, item, s);
    t := s;
    if k >= 0 {
      t := Inserted(s, if k < |s| then k else |s|, item);
      ValuesInserted(s, if k < |s| then k else |s|, item);
    } else {
      ValuesLength(s);
    }
  }

  method ApplyDetach(parent: Item, k: int, ghost s: seq<Item>) returns (ghost t: seq<Item>)
    requires Children(parent, s)
    modifies parent`child, Of(s)`next, Of(s)`prev
    ensures Children(parent, t) && Values(t) == Edited(Values(s), Detach(k))
    ensures forall x :: x in t ==> x in s || fresh(x)
  {
    hide Linked, Distinct, Children;
    var out := DetachItemFromArray(parent, k, s);
    t := if 0 <= k < |s| then Removed(s, k) else s;
  }

  method ApplyReplace(parent: Item, k: int, v: int, ghost s: seq<Item>) returns (ghost t: seq<Item>)
    requires Children(parent, s)
    modifies parent`child, Of(s)`next, Of(s)`prev
    ensures Children(parent, t) && Values(t) == Edited(Values(s), Replace(k, v))
    ensures forall x :: x in t ==> x in s || fresh(x)
  {
    hide Linked, Distinct;
    var item := new Item(v);
    var ok := ReplaceItemInArray(parent, k, item, s);
    t := if 0 <= k < |s| then s[k := item] else s;
  }
}
