/** The child list of an array or object in cJSON.c: doubly linked, with the tail in the head's `prev`. */
module ItemList {

  class Item {
    var next: Item?
    var prev: Item?
    var child: Item?

    constructor ()
      ensures next == null && prev == null && child == null
    {
      next, prev, child := null, null, null;
    }
  }

  /** The index before `i`, around the list. */
  function Before(i: nat, n: nat): (j: nat)
    requires i < n
    ensures j < n
  {
    if i == 0 then n - 1 else i - 1
  }

  /** `next` lists the items in order, `prev` leads back, and the head's `prev` is the tail. */
  ghost predicate Chained(s: seq<Item>)
    reads s
  {
    && (forall i {:trigger s[i].next} :: 0 <= i < |s| ==> s[i].next == if i + 1 < |s| then s[i + 1] else null)
    && (forall i {:trigger s[i].prev} :: 0 <= i < |s| ==> s[i].prev == s[Before(i, |s|)])
  }

  ghost predicate Distinct(s: seq<Item>) { forall i, j :: 0 <= i < j < |s| ==> s[i] != s[j] }

  /** The children of `parent` are `s`. */
  ghost predicate Lists(parent: Item, s: seq<Item>)
    reads parent, s
  {
    Distinct(s) && parent !in s && Chained(s) && parent.child == if |s| == 0 then null else s[0]
  }

  /** An item that is in no list. */
  ghost predicate Unlinked(x: Item)
    reads x
  {
    x.next == null && x.prev == null
  }

  /** `suffix_object` */
  method SuffixObject(prev: Item, item: Item)
    modifies prev`next, item`prev
    ensures prev.next == item && item.prev == prev
  {
    prev.next := item;
    item.prev := prev;
  }

  /** `add_item_to_array` */
  method AddItemToArray(list: Item?, item: Item?, ghost s: seq<Item>) returns (ok: bool)
    requires list != null ==> Lists(list, s)
    requires list != null && item != null && list != item ==> item !in s && Unlinked(item)
    modifies list, item, s
    ensures ok == (list != null && item != null && list != item)
    ensures ok ==> Lists(list, s + [item])
    ensures list != null && !ok ==> Lists(list, s)
  {
    if item == null || list == null || list == item {
      return false;
    }
    var child := list.child;
    if child == null {
      list.child := item;
      item.prev := item;
      item.next := null;
    } else if child.prev != null {
      SuffixObject(child.prev, item);
      list.child.prev := item;
    }
    return true;
  }

  /** `get_array_item` */
  method GetArrayItem(list: Item?, index: nat, ghost s: seq<Item>) returns (item: Item?)
    requires list != null ==> Lists(list, s)
    ensures item == if list != null && index < |s| then s[index] else null
  {
    if list == null {
      return null;
    }
    item := list.child;
    var left := index;
    ghost var at := 0;
    while item != null && left > 0
      invariant at + left == index && at <= |s| && 0 <= left
      invariant item == if at < |s| then s[at] else null
    {
      assert s[at].next == if at + 1 < |s| then s[at + 1] else null;
      left := left - 1;
      item := item.next;
      at := at + 1;
    }
  }

  /** The items other than `s[k]` are linked as if it were not there. */
  ghost predicate Skips(s: seq<Item>, k: nat)
    requires k < |s|
    reads s
  {
    && (forall i {:trigger s[i].next} :: 0 <= i < |s| && i != k ==> s[i].next == NextWithout(s, k, i))
    && (forall i {:trigger s[i].prev} :: 0 <= i < |s| && i != k ==> s[i].prev == PrevWithout(s, k, i))
  }

  function NextWithout(s: seq<Item>, k: nat, i: nat): (x: Item?)
    requires k < |s| && i < |s|
  {
    var j := if i + 1 == k then i + 2 else i + 1;
    if j < |s| then s[j] else null
  }

  function PrevWithout(s: seq<Item>, k: nat, i: nat): (x: Item)
    requires k < |s| && i < |s| && i != k
  {
    var j := Before(i, |s|);
    s[if j == k then Before(j, |s|) else j]
  }

  lemma SkipsChains(s: seq<Item>, k: nat)
    requires k < |s| && Distinct(s) && Skips(s, k)
    ensures var rest := s[..k] + s[k + 1..]; Distinct(rest) && Chained(rest)
  {
    var rest := s[..k] + s[k + 1..];
    forall i | 0 <= i < |rest|
      ensures rest[i].next == (if i + 1 < |rest| then rest[i + 1] else null) && rest[i].prev == rest[Before(i, |rest|)]
    {
      var j := if i < k then i else i + 1;
      assert rest[i] == s[j];
    }
  }

  /** `cJSON_DetachItemViaPointer`, for a child of `parent`. */
  method DetachItemViaPointer(parent: Item?, item: Item?, ghost s: seq<Item>, ghost k: nat) returns (r: Item?)
    requires parent != null ==> Lists(parent, s)
    requires parent != null && item != null ==> k < |s| && s[k] == item
    modifies parent, s
    ensures parent != null && item != null ==> r == item && Unlinked(item) && Lists(parent, s[..k] + s[k + 1..])
    ensures parent != null && item == null ==> r == null && Lists(parent, s)
  {
    if parent == null || item == null || (item != parent.child && item.prev == null) {
      return null;
    }
    Bypass(parent, item, s, k);
    item.prev := null;
    item.next := null;
    SkipsChains(s, k);
    return item;
  }

  /** Its assignments to the neighbours and the parent. */
  method Bypass(parent: Item, item: Item, ghost s: seq<Item>, ghost k: nat)
    requires Lists(parent, s) && k < |s| && s[k] == item
    modifies parent, s
    ensures Skips(s, k) && parent.child == if k > 0 then s[0] else if |s| > 1 then s[1] else null
  {
    assert item.prev == s[Before(k, |s|)] && item.next == (if k + 1 < |s| then s[k + 1] else null);
    assert item == parent.child <==> k == 0;
    if item != parent.child {
      item.prev.next := item.next;
    }
    if item.next != null {
      item.next.prev := item.prev;
    }
    if item == parent.child {
      parent.child := item.next;
    } else if item.next == null {
      parent.child.prev := item.prev;
    }
  }

  function Inserted(s: seq<Item>, k: nat, x: Item): (r: seq<Item>)
    requires k <= |s|
  {
    s[..k] + [x] + s[k..]
  }

  /** `x` is linked in front of `s[k]`. */
  ghost predicate Wedged(s: seq<Item>, k: nat, x: Item)
    requires k < |s|
    reads s, x
  {
    && x.next == s[k] && x.prev == s[Before(k, |s|)]
    && (forall i {:trigger s[i].next} :: 0 <= i < |s| ==> s[i].next == if i + 1 == k then x else if i + 1 < |s| then s[i + 1] else null)
    && (forall i {:trigger s[i].prev} :: 0 <= i < |s| ==> s[i].prev == if i == k then x else s[Before(i, |s|)])
  }

  lemma WedgedChains(s: seq<Item>, k: nat, x: Item)
    requires k < |s| && Distinct(s) && x !in s && Wedged(s, k, x)
    ensures Distinct(Inserted(s, k, x)) && Chained(Inserted(s, k, x))
  {
    hide Inserted, Wedged;
    var r := Inserted(s, k, x);
    InsertedAt(s, k, x);
    InsertedDistinct(s, k, x, r);
    forall i | 0 <= i < |r|
      ensures LinkedAt(r, i)
    {
      WedgedAt(s, k, x, r, i);
    }
    AllLinked(r);
  }

  ghost predicate LinkedAt(r: seq<Item>, i: nat)
    requires i < |r|
    reads r
  {
    r[i].next == (if i + 1 < |r| then r[i + 1] else null) && r[i].prev == r[Before(i, |r|)]
  }

  lemma AllLinked(r: seq<Item>)
    requires forall i :: 0 <= i < |r| ==> LinkedAt(r, i)
    ensures Chained(r)
  {
    forall i | 0 <= i < |r|
      ensures r[i].next == if i + 1 < |r| then r[i + 1] else null
    {
      assert LinkedAt(r, i);
    }
    forall i | 0 <= i < |r|
      ensures r[i].prev == r[Before(i, |r|)]
    {
      assert LinkedAt(r, i);
    }
  }

  lemma InsertedAt(s: seq<Item>, k: nat, x: Item)
    requires k <= |s|
    ensures IsInserted(s, k, x, Inserted(s, k, x))
  {
  }

  ghost predicate IsInserted(s: seq<Item>, k: nat, x: Item, r: seq<Item>)
    requires k <= |s|
  {
    && |r| == |s| + 1
    && forall j {:trigger r[j]} :: 0 <= j < |r| ==> r[j] == if j < k then s[j] else if j == k then x else s[j - 1]
  }

  lemma InsertedDistinct(s: seq<Item>, k: nat, x: Item, r: seq<Item>)
    requires k <= |s| && IsInserted(s, k, x, r) && Distinct(s) && x !in s
    ensures Distinct(r)
  {
    forall i, j | 0 <= i < j < |r|
      ensures r[i] != r[j]
    {
    }
  }

  lemma WedgedAt(s: seq<Item>, k: nat, x: Item, r: seq<Item>, i: nat)
    requires k < |s| && Wedged(s, k, x) && IsInserted(s, k, x, r) && i < |r|
    ensures LinkedAt(r, i)
  {
    if i != k { assert r[i] == s[if i < k then i else i - 1]; }
  }

  /** `cJSON_InsertItemInArray` */
  method InsertItemInArray(list: Item?, which: int, newitem: Item?, ghost s: seq<Item>) returns (ok: bool)
    requires list != null ==> Lists(list, s)
    requires list != null && newitem != null ==> newitem !in s && newitem != list && Unlinked(newitem)
    modifies list, newitem, s
    ensures ok == (which >= 0 && newitem != null && list != null)
    ensures ok ==> var k := if which < |s| then which else |s|; Lists(list, s[..k] + [newitem] + s[k..])
    ensures !ok && list != null ==> Lists(list, s)
  {
    if which < 0 || newitem == null {
      return false;
    }
    var after := GetArrayItem(list, which, s);
    if after == null {
      ok := AddItemToArray(list, newitem, s);
      if ok { assert Inserted(s, |s|, newitem) == s + [newitem]; }
      return ok;
    }
    if after != list.child && after.prev == null {
      return false;
    }
    Wedge(list, after, newitem, s, which);
    return true;
  }

  /** Its links, where the item goes before another. */
  method Wedge(list: Item, after: Item, newitem: Item, ghost s: seq<Item>, ghost k: nat)
    requires Lists(list, s) && k < |s| && s[k] == after && newitem !in s && newitem != list
    modifies list, newitem, s
    ensures Lists(list, Inserted(s, k, newitem))
  {
    newitem.next := after;
    newitem.prev := after.prev;
    after.prev := newitem;
    if after == list.child {
      list.child := newitem;
    } else {
      newitem.prev.next := newitem;
    }
    WedgedChains(s, k, newitem);
  }

  /** `x` is linked in the place of `s[k]`. */
  ghost predicate Substituted(s: seq<Item>, k: nat, x: Item)
    requires k < |s|
    reads s, x
  {
    && x.next == (if k + 1 < |s| then s[k + 1] else null) && x.prev == (if |s| == 1 then x else s[Before(k, |s|)])
    && (forall i {:trigger s[i].next} :: 0 <= i < |s| && i != k ==>
          s[i].next == if i + 1 == k then x else if i + 1 < |s| then s[i + 1] else null)
    && (forall i {:trigger s[i].prev} :: 0 <= i < |s| && i != k ==>
          s[i].prev == if Before(i, |s|) == k then x else s[Before(i, |s|)])
  }

  lemma SubstitutedChains(s: seq<Item>, k: nat, x: Item)
    requires k < |s| && Distinct(s) && x !in s && Substituted(s, k, x)
    ensures Distinct(s[k := x]) && Chained(s[k := x])
  {
    var r := s[k := x];
    forall i | 0 <= i < |r|
      ensures r[i].next == (if i + 1 < |r| then r[i + 1] else null) && r[i].prev == r[Before(i, |r|)]
    {
      if i != k { assert r[i] == s[i]; }
    }
  }

  /** `cJSON_ReplaceItemViaPointer`, for a child of `parent`; freeing the item it replaces is left out. */
  method ReplaceItemViaPointer(parent: Item?, item: Item?, replacement: Item?, ghost s: seq<Item>, ghost k: nat) returns (ok: bool)
    requires parent != null ==> Lists(parent, s)
    requires parent != null && item != null ==> k < |s| && s[k] == item
    requires parent != null && replacement != null && replacement != item ==> replacement !in s && replacement != parent
    modifies parent, replacement, s
    ensures ok == (parent != null && item != null && replacement != null)
    ensures ok ==> Lists(parent, s[k := replacement]) && (replacement != item ==> Unlinked(item))
    ensures !ok && parent != null ==> Lists(parent, s)
  {
    if parent == null || parent.child == null || replacement == null || item == null {
      return false;
    }
    if replacement == item {
      assert s[k := replacement] == s;
      return true;
    }
    Relink(parent, item, replacement, s, k);
    SubstitutedChains(s, k, replacement);
    item.next := null;
    item.prev := null;
    return true;
  }

  /** Its assignments to the replacement, the neighbours and the parent. */
  method Relink(parent: Item, item: Item, replacement: Item, ghost s: seq<Item>, ghost k: nat)
    requires Lists(parent, s) && k < |s| && s[k] == item && replacement !in s && replacement != parent
    modifies parent, replacement, s
    ensures Substituted(s, k, replacement) && parent.child == if k == 0 then replacement else s[0]
  {
    assert item.prev == s[Before(k, |s|)] && item.next == (if k + 1 < |s| then s[k + 1] else null);
    assert item == parent.child <==> k == 0;
    replacement.next := item.next;
    replacement.prev := item.prev;
    if replacement.next != null {
      replacement.next.prev := replacement;
    }
    if parent.child == item {
      if parent.child.prev == parent.child {
        replacement.prev := replacement;
      }
      parent.child := replacement;
    } else {
      if replacement.prev != null {
        replacement.prev.next := replacement;
      }
      if replacement.next == null {
        parent.child.prev := replacement;
      }
    }
  }

  // ---------- sequences of edits ----------

  datatype Edit =
    | Append(x: Item)
    | Insert(which: nat, x: Item)
    | Detach(which: nat)
    | Replace(which: nat, x: Item)

  /** New items are taken from `free`; what is removed must be there. */
  ghost predicate Legal(s: seq<Item>, free: set<Item>, e: Edit) {
    match e
    case Append(x) => x in free
    case Insert(_, x) => x in free
    case Detach(which) => which < |s|
    case Replace(which, x) => which < |s| && x in free
  }

  /** The list after an edit. */
  ghost function Edited(s: seq<Item>, free: set<Item>, e: Edit): (r: seq<Item>)
    requires Legal(s, free, e)
  {
    match e
    case Append(x) => s + [x]
    case Insert(which, x) => var k := if which < |s| then which else |s|; s[..k] + [x] + s[k..]
    case Detach(which) => s[..which] + s[which + 1..]
    case Replace(which, x) => s[which := x]
  }

  /** The items free after it. */
  ghost function Freed(s: seq<Item>, free: set<Item>, e: Edit): (r: set<Item>)
    requires Legal(s, free, e)
  {
    match e
    case Append(x) => free - {x}
    case Insert(_, x) => free - {x}
    case Detach(which) => free + {s[which]}
    case Replace(which, x) => free - {x} + {s[which]}
  }

  /** The free items are in no list. */
  ghost predicate Apart(list: Item, s: seq<Item>, free: set<Item>)
    reads free
  {
    list !in free && forall x :: x in free ==> x !in s && Unlinked(x)
  }

  /** All items that take part. */
  ghost predicate Within(s: seq<Item>, free: set<Item>, all: set<Item>) { free <= all && forall i :: 0 <= i < |s| ==> s[i] in all }

  lemma EditedWithin(s: seq<Item>, free: set<Item>, e: Edit, all: set<Item>)
    requires Legal(s, free, e) && Within(s, free, all)
    ensures Within(Edited(s, free, e), Freed(s, free, e), all)
  {
  }

  /** No item is both in the list and free after an edit. */
  lemma EditedApart(s: seq<Item>, free: set<Item>, e: Edit)
    requires Legal(s, free, e) && Distinct(s) && forall x :: x in free ==> x !in s
    ensures forall x :: x in Freed(s, free, e) ==> x !in Edited(s, free, e)
  {
    if e.Detach? || e.Replace? {
      var x, r := s[e.which], Edited(s, free, e);
      forall i | 0 <= i < |r|
        ensures r[i] != x
      {
        if e.Detach? { assert r[i] == s[if i < e.which then i else i + 1]; }
      }
    }
  }

  /** One edit by the operation of cJSON. */
  method Apply(list: Item, e: Edit, ghost s: seq<Item>, ghost free: set<Item>, ghost all: set<Item>)
    requires Lists(list, s) && Apart(list, s, free) && Legal(s, free, e) && Within(s, free, all) && list !in all
    modifies list, all
    ensures Lists(list, Edited(s, free, e)) && Apart(list, Edited(s, free, e), Freed(s, free, e))
    ensures Within(Edited(s, free, e), Freed(s, free, e), all)
  {
    hide Lists, Distinct, Chained;
    ListsDistinct(list, s);
    EditedWithin(s, free, e, all);
    EditedApart(s, free, e);
    match e {
      case Append(x) => ApplyAppend(list, x, s, free);
      case Insert(which, x) => ApplyInsert(list, which, x, s, free);
      case Detach(which) => ApplyDetach(list, which, s, free);
      case Replace(which, x) => ApplyReplace(list, which, x, s, free);
    }
  }

  lemma ListsDistinct(list: Item, s: seq<Item>)
    requires Lists(list, s)
    ensures Distinct(s)
  {
  }

  method ApplyAppend(list: Item, x: Item, ghost s: seq<Item>, ghost free: set<Item>)
    requires Lists(list, s) && Apart(list, s, free) && x in free
    modifies list, x, s
    ensures Lists(list, s + [x]) && forall y :: y in free && y != x ==> Unlinked(y)
  {
    var ok := AddItemToArray(list, x, s);
  }

  method ApplyInsert(list: Item, which: nat, x: Item, ghost s: seq<Item>, ghost free: set<Item>)
    requires Lists(list, s) && Apart(list, s, free) && x in free
    modifies list, x, s
    ensures Lists(list, Inserted(s, if which < |s| then which else |s|, x)) && forall y :: y in free && y != x ==> Unlinked(y)
  {
    var ok := InsertItemInArray(list, which, x, s);
  }

  method ApplyDetach(list: Item, which: nat, ghost s: seq<Item>, ghost free: set<Item>)
    requires Lists(list, s) && Apart(list, s, free) && which < |s|
    modifies list, s
    ensures Lists(list, s[..which] + s[which + 1..]) && Unlinked(s[which]) && forall y :: y in free ==> Unlinked(y)
  {
    var item := GetArrayItem(list, which, s);
    var r := DetachItemViaPointer(list, item, s, which);
  }

  method ApplyReplace(list: Item, which: nat, x: Item, ghost s: seq<Item>, ghost free: set<Item>)
    requires Lists(list, s) && Apart(list, s, free) && which < |s| && x in free
    modifies list, x, s
    ensures Lists(list, s[which := x]) && Unlinked(s[which]) && forall y :: y in free && y != x ==> Unlinked(y)
  {
    var item := GetArrayItem(list, which, s);
    var ok := ReplaceItemViaPointer(list, item, x, s, which);
  }

  /** The edits can be made one after the other. */
  ghost predicate AllLegal(s: seq<Item>, free: set<Item>, edits: seq<Edit>)
    decreases |edits|
  {
    |edits| > 0 ==> Legal(s, free, edits[0]) && AllLegal(Edited(s, free, edits[0]), Freed(s, free, edits[0]), edits[1..])
  }

  /** The list after all of them. */
  ghost function AllEdited(s: seq<Item>, free: set<Item>, edits: seq<Edit>): (r: seq<Item>)
    requires AllLegal(s, free, edits)
    decreases |edits|
  {
    if |edits| == 0 then s else AllEdited(Edited(s, free, edits[0]), Freed(s, free, edits[0]), edits[1..])
  }

  /** Any sequence of edits keeps the chain equal to the list after the same edits. */
  method ApplyAll(list: Item, edits: seq<Edit>, ghost s: seq<Item>, ghost free: set<Item>, ghost all: set<Item>)
    requires Lists(list, s) && Apart(list, s, free) && AllLegal(s, free, edits) && Within(s, free, all) && list !in all
    modifies list, all
    ensures Lists(list, AllEdited(s, free, edits))
  {
    hide Lists, Apart, Legal, Edited, Freed, Within;
    ghost var now, pool := s, free;
    var i := 0;
    assert edits[0..] == edits;
    while i < |edits|
      invariant i <= |edits| && Lists(list, now) && Apart(list, now, pool) && Within(now, pool, all)
      invariant AllLegal(now, pool, edits[i..]) && AllEdited(now, pool, edits[i..]) == AllEdited(s, free, edits)
    {
      assert edits[i..][1..] == edits[i + 1..];
      Apply(list, edits[i], now, pool, all);
      now, pool := Edited(now, pool, edits[i]), Freed(now, pool, edits[i]);
      i := i + 1;
    }
  }
}
