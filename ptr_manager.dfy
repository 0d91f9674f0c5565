/**
 * The object store: the registry every wrapped GDAL object goes through. It issues uids from a
 * counter, indexes each item by uid and by wrapped pointer in one table per kind, records which
 * items depend on which dataset, owns one async lock (a semaphore of count 0 or 1) per root
 * dataset, and tears items down along two paths: an explicit dispose by uid, and the garbage
 * collector's weak callback.
 *
 * The model is sequential: one call runs to completion before the next starts (the recursive
 * master lock makes every store operation atomic with respect to the others). A lock round that
 * would have to wait for another holder ends with a `Busy` or `Blocked` outcome instead of spinning.
 */
module PtrManager {
  import opened Wrappers

  // ---------------------------------------------------------------------------------------------
  // Items
  // ---------------------------------------------------------------------------------------------

  /** The wrapped object kinds, one uid table and one pointer table each. */
  datatype Kind = Driver | SpatialRef | Band | Layer | Dataset | Group | MDArray | Dimension | Attribute

  /** The kinds `isAlive` and `dispose(uid)` look up; drivers and spatial references are not among them. */
  predicate Tracked(k: Kind)
  {
    k != Driver && k != SpatialRef
  }

  /** A wrapped GDAL pointer, as an address; 0 is the null pointer. */
  type Ptr = int

  /**
   * One registered object. Every item has its uid, its parent dataset's uid (0 for none), the
   * wrapped pointer and the controller-side object; only layers carry the result-set flag and
   * only datasets carry the list of dependent uids. A dataset's async lock lives in the store's
   * lock table, under the dataset's uid.
   */
  datatype Item =
    | Plain(uid: int, kind: Kind, parent: int, ptr: Ptr, obj: JsObject)
    | LayerItem(uid: int, parent: int, ptr: Ptr, obj: JsObject, isResultSet: bool)
    | DatasetItem(uid: int, parent: int, ptr: Ptr, obj: JsObject, children: seq<int>)
  {
    function KindOf(): Kind
    {
      if Plain? then kind else if LayerItem? then Layer else Dataset
    }

    /** Layers and datasets always use their own layouts. */
    predicate WellFormed()
    {
      Plain? ==> kind != Layer && kind != Dataset
    }

    /** The same dataset item with another dependents list. */
    function WithChildren(cs: seq<int>): (r: Item)
      requires DatasetItem?
      ensures r.DatasetItem? && r.children == cs
      ensures r.uid == uid && r.parent == parent && r.ptr == ptr && r.obj == obj
    {
      DatasetItem(uid, parent, ptr, obj, cs)
    }
  }

  /** One round of locking one dataset. */
  datatype LockOutcome = Acquired | Busy | Destroyed(message: string)

  /** One round of locking several datasets: all of them (their uids, in locking order), or none. */
  datatype LocksOutcome = AllAcquired(handles: seq<int>) | SomeBusy | SomeDestroyed(message: string)

  /**
   * A dispose that runs to the end; one that would wait for another holder of a lock; or a
   * dataset's cascade that reached a dependent `dispose(uid)` does not look up, where the
   * source's loop repeats a call that changes nothing, without end.
   */
  datatype DisposeOutcome = Done | Blocked | Stalled

  /** The GDAL calls the item destructors make. */
  datatype Event = Closed(dataset: Ptr) | ResultSetReleased(owner: Ptr, layer: Ptr)

  const DestroyedMessage := "Parent Dataset object has already been destroyed"

  // ---------------------------------------------------------------------------------------------
  // Sequences of uids
  // ---------------------------------------------------------------------------------------------

  function Elems(s: seq<int>): set<int>
  {
    set x | x in s
  }

  /** `std::list::remove`: every occurrence of `x` goes, the rest keeps its order. */
  function Remove(s: seq<int>, x: int): (r: seq<int>)
    ensures forall y :: y in r <==> y in s && y != x
    ensures x in s ==> |r| < |s|
    ensures x !in s ==> r == s
  {
    if s == [] then [] else (if s[0] == x then [] else [s[0]]) + Remove(s[1..], x)
  }

  /** No uid occurs twice. */
  predicate Distinct(s: seq<int>)
  {
    forall i, j :: 0 <= i < j < |s| ==> s[i] != s[j]
  }

  /** Removing a uid from a list without duplicates leaves one without duplicates. */
  lemma {:induction false} RemoveKeepsDistinct(s: seq<int>, x: int)
    requires Distinct(s)
    ensures Distinct(Remove(s, x))
  {
    if s != [] {
      assert Distinct(s[1..]);
      RemoveKeepsDistinct(s[1..], x);
      var rest := Remove(s[1..], x);
      assert s[0] !in s[1..];
      assert s[0] !in rest;
      var r := Remove(s, x);
      assert r == (if s[0] == x then [] else [s[0]]) + rest;
      if s[0] != x {
        forall i, j | 0 <= i < j < |r| ensures r[i] != r[j] {
          if i == 0 {
            assert r[j] == rest[j - 1];
          } else {
            assert r[i] == rest[i - 1] && r[j] == rest[j - 1];
          }
        }
      }
    }
  }

  /** In a list without duplicates, removing the uid at the back takes off just the back. */
  lemma {:induction false} RemoveBackOfDistinct(s: seq<int>)
    requires Distinct(s) && s != []
    ensures Remove(s, s[|s| - 1]) == s[..|s| - 1]
  {
    var x := s[|s| - 1];
    var t := s[1..];
    if t == [] {
      assert Remove(t, x) == [];
    } else {
      assert s[0] != x;
      assert Distinct(t) && t[|t| - 1] == x;
      RemoveBackOfDistinct(t);
      assert Remove(s, x) == [s[0]] + Remove(t, x);
      assert [s[0]] + t[..|t| - 1] == s[..|s| - 1];
    }
  }

  predicate StrictlyIncreasing(s: seq<int>)
  {
    forall i, j :: 0 <= i < j < |s| ==> s[i] < s[j]
  }

  /** Insert into an ascending list without duplicates. */
  function Insert(x: int, s: seq<int>): (r: seq<int>)
    requires StrictlyIncreasing(s)
    ensures StrictlyIncreasing(r)
    ensures forall y :: y in r <==> y == x || y in s
  {
    if s == [] then [x]
    else if x < s[0] then [x] + s
    else if x == s[0] then s
    else
      var rest := Insert(x, s[1..]);
      assert forall j :: 0 <= j < |rest| ==> s[0] < rest[j] by {
        forall j | 0 <= j < |rest| ensures s[0] < rest[j] {
          assert rest[j] in rest;
        }
      }
      [s[0]] + rest
  }

  /** What `std::sort` followed by `std::unique` leaves of a list of uids: each once, ascending. */
  function Canonical(s: seq<int>): (r: seq<int>)
    ensures StrictlyIncreasing(r)
    ensures forall y :: y in r <==> y in s
  {
    if s == [] then [] else Insert(s[0], Canonical(s[1..]))
  }

  /** The entries a loop visits when it skips the null uid, in order. */
  function NonZero(s: seq<int>): (r: seq<int>)
    ensures forall y :: y in r <==> y in s && y != 0
    ensures StrictlyIncreasing(s) ==> StrictlyIncreasing(r)
  {
    if s == [] then []
    else
      var init := NonZero(s[..|s| - 1]);
      var last := s[|s| - 1];
      assert StrictlyIncreasing(s) ==> forall j :: 0 <= j < |init| ==> init[j] < last by {
        if StrictlyIncreasing(s) {
          forall j | 0 <= j < |init| ensures init[j] < last {
            assert init[j] in init;
          }
        }
      }
      init + (if last == 0 then [] else [last])
  }

  // ---------------------------------------------------------------------------------------------
  // The store's state and its invariant
  // ---------------------------------------------------------------------------------------------

  /**
   * A snapshot of the store: the uid counter, every item ever allocated (by uid, so an item a
   * dependent still refers to outlives its registration), the per-kind uid and pointer tables,
   * the semaphore counts of the root datasets' async locks, and the destructors' GDAL calls.
   */
  datatype Store = Store(
    nextUid: int,
    items: map<int, Item>,
    uidMap: map<Kind, set<int>>,
    ptrMap: map<Kind, map<Ptr, int>>,
    locks: map<int, nat>,
    events: seq<Event>)

  /** Every kind has its uid table and its pointer table. */
  ghost predicate KindsPresent(s: Store)
  {
    forall k: Kind :: k in s.uidMap && k in s.ptrMap
  }

  /** Items sit under their own uid, which the counter has already issued. */
  ghost predicate ItemsKeyed(s: Store)
  {
    forall u :: u in s.items ==> 1 <= u < s.nextUid && s.items[u].uid == u && s.items[u].WellFormed()
  }

  /** A uid table holds items of its own kind. */
  ghost predicate UidsTyped(s: Store)
  {
    forall k, u :: k in s.uidMap && u in s.uidMap[k] ==> u in s.items && s.items[u].KindOf() == k
  }

  /** A pointer table leads to a registered item of its kind that wraps that pointer. */
  ghost predicate PtrsLead(s: Store)
  {
    forall k, p :: k in s.ptrMap && p in s.ptrMap[k] ==>
      k in s.uidMap && s.ptrMap[k][p] in s.uidMap[k] && s.ptrMap[k][p] in s.items && s.items[s.ptrMap[k][p]].ptr == p
  }

  /** A parent is always a dataset item. */
  ghost predicate ParentsAreDatasets(s: Store)
  {
    forall u {:trigger s.items[u].parent} :: u in s.items && s.items[u].parent != 0 ==>
      s.items[u].parent in s.items && s.items[s.items[u].parent].DatasetItem?
  }

  /** The dependents a dataset lists are registered and name it as their parent. */
  ghost predicate ChildrenRegistered(s: Store)
  {
    forall d, c {:trigger c in s.items[d].children} :: d in s.items && s.items[d].DatasetItem? && c in s.items[d].children ==>
      c in s.items && s.items[c].parent == d && s.items[c].KindOf() in s.uidMap && c in s.uidMap[s.items[c].KindOf()]
  }

  /** A dataset lists each dependent once: `add` appends a freshly issued uid. */
  ghost predicate ChildrenDistinct(s: Store)
  {
    forall d :: d in s.items && s.items[d].DatasetItem? ==> Distinct(s.items[d].children)
  }

  /** Exactly the root datasets own an async lock, whose count is 0 (held) or 1 (free). */
  ghost predicate LocksOfRoots(s: Store)
  {
    && (forall d :: d in s.locks ==> d in s.items && s.items[d].DatasetItem? && s.items[d].parent == 0 && s.locks[d] <= 1)
    && (forall d {:trigger s.items[d].parent} :: d in s.items && s.items[d].DatasetItem? && s.items[d].parent == 0 ==> d in s.locks)
  }

  /** The store's invariant. */
  ghost predicate Wf(s: Store)
  {
    && s.nextUid >= 1
    && KindsPresent(s) && ItemsKeyed(s) && UidsTyped(s) && PtrsLead(s)
    && ParentsAreDatasets(s) && ChildrenRegistered(s) && ChildrenDistinct(s) && LocksOfRoots(s)
  }

  /**
   * The state after the generic `add` of `item` (whose uid is the counter's value), with a
   * free lock for it when it is a root dataset.
   */
  function Linked(s: Store, item: Item): Store
    requires item.parent != 0 ==> item.parent in s.items && s.items[item.parent].DatasetItem?
    requires item.KindOf() in s.uidMap && item.KindOf() in s.ptrMap
  {
    var k := item.KindOf();
    Store(
      s.nextUid + 1,
      Adopt(s.items, item.parent, item.uid)[item.uid := item],
      s.uidMap[k := s.uidMap[k] + {item.uid}],
      s.ptrMap[k := s.ptrMap[k][item.ptr := item.uid]],
      if item.DatasetItem? && item.parent == 0 then s.locks[item.uid := 1] else s.locks,
      s.events)
  }

  /** What the generic `add` demands: the item takes the counter's uid, its parent is a registered dataset. */
  ghost predicate Linkable(s: Store, item: Item)
  {
    && Wf(s) && item.uid == s.nextUid && item.WellFormed()
    && (item.DatasetItem? ==> item.children == [])
    && (item.parent != 0 ==> item.parent in s.uidMap[Dataset])
  }

  /** Item `v` keeps its kind, pointer and parent from `items0` to `items1`. */
  ghost predicate Keeps(items0: map<int, Item>, items1: map<int, Item>, v: int)
    requires v in items0
  {
    v in items1 && items1[v].KindOf() == items0[v].KindOf() && items1[v].ptr == items0[v].ptr
    && items1[v].parent == items0[v].parent
  }

  lemma LinkedKeeps(s: Store, item: Item)
    requires Linkable(s, item)
    ensures item.parent != 0 ==> item.parent in s.items && s.items[item.parent].DatasetItem?
    ensures item.uid !in s.items
    ensures forall v :: v in s.items ==> Keeps(s.items, Linked(s, item).items, v)
  {
  }

  lemma LinkedUids(s: Store, item: Item)
    requires Linkable(s, item)
    ensures item.parent != 0 ==> item.parent in s.items && s.items[item.parent].DatasetItem?
    ensures UidsTyped(Linked(s, item))
  {
    LinkedKeeps(s, item);
    var s1 := Linked(s, item);
    forall k, v | k in s1.uidMap && v in s1.uidMap[k]
      ensures v in s1.items && s1.items[v].KindOf() == k
    {
      if v != item.uid {
        assert v in s.uidMap[k];
        assert Keeps(s.items, s1.items, v);
      }
    }
  }

  lemma LinkedPtrs(s: Store, item: Item)
    requires Linkable(s, item)
    ensures item.parent != 0 ==> item.parent in s.items && s.items[item.parent].DatasetItem?
    ensures PtrsLead(Linked(s, item))
  {
    LinkedKeeps(s, item);
    var s1 := Linked(s, item);
    forall k, p | k in s1.ptrMap && p in s1.ptrMap[k]
      ensures k in s1.uidMap && s1.ptrMap[k][p] in s1.uidMap[k] && s1.ptrMap[k][p] in s1.items
        && s1.items[s1.ptrMap[k][p]].ptr == p
    {
      if !(k == item.KindOf() && p == item.ptr) {
        var v := s.ptrMap[k][p];
        assert s1.ptrMap[k][p] == v;
        assert Keeps(s.items, s1.items, v);
      }
    }
  }

  lemma LinkedLinks(s: Store, item: Item)
    requires Linkable(s, item)
    ensures item.parent != 0 ==> item.parent in s.items && s.items[item.parent].DatasetItem?
    ensures ParentsAreDatasets(Linked(s, item)) && LocksOfRoots(Linked(s, item))
  {
    LinkedParents(s, item);
    LinkedLocks(s, item);
  }

  lemma LinkedParents(s: Store, item: Item)
    requires Linkable(s, item)
    ensures item.parent != 0 ==> item.parent in s.items && s.items[item.parent].DatasetItem?
    ensures ParentsAreDatasets(Linked(s, item))
  {
    LinkedKeeps(s, item);
    var s1 := Linked(s, item);
    forall v | v in s1.items && s1.items[v].parent != 0
      ensures s1.items[v].parent in s1.items && s1.items[s1.items[v].parent].DatasetItem?
    {
      if v != item.uid {
        assert Keeps(s.items, s1.items, v);
        assert s.items[v].parent in s.items;
      }
    }
  }

  lemma LinkedLocks(s: Store, item: Item)
    requires Linkable(s, item)
    ensures item.parent != 0 ==> item.parent in s.items && s.items[item.parent].DatasetItem?
    ensures LocksOfRoots(Linked(s, item))
  {
    LinkedKeeps(s, item);
    var s1 := Linked(s, item);
    forall d | d in s1.locks
      ensures d in s1.items && s1.items[d].DatasetItem? && s1.items[d].parent == 0 && s1.locks[d] <= 1
    {
      if d != item.uid {
        assert d in s.locks && Keeps(s.items, s1.items, d);
      }
    }
    forall d | d in s1.items && s1.items[d].DatasetItem? && s1.items[d].parent == 0
      ensures d in s1.locks
    {
      if d != item.uid {
        assert Keeps(s.items, s1.items, d);
        assert s.items[d].parent == 0;
      }
    }
  }

  lemma LinkedChildren(s: Store, item: Item)
    requires Linkable(s, item)
    ensures item.parent != 0 ==> item.parent in s.items && s.items[item.parent].DatasetItem?
    ensures ChildrenRegistered(Linked(s, item))
  {
    LinkedKeeps(s, item);
    var s1 := Linked(s, item);
    forall d, c | d in s1.items && s1.items[d].DatasetItem? && c in s1.items[d].children
      ensures c in s1.items && s1.items[c].parent == d && c in s1.uidMap[s1.items[c].KindOf()]
    {
      if !(d == item.parent && c == item.uid) {
        LinkedOldChild(s, item, d, c);
      }
    }
  }

  /** A dependent listed before the `add` is still listed, registered, with the same parent. */
  lemma LinkedOldChild(s: Store, item: Item, d: int, c: int)
    requires Linkable(s, item)
    requires item.parent != 0 ==> item.parent in s.items && s.items[item.parent].DatasetItem?
    requires var s1 := Linked(s, item); d in s1.items && s1.items[d].DatasetItem? && c in s1.items[d].children
    requires !(d == item.parent && c == item.uid)
    ensures d in s.items && s.items[d].DatasetItem? && c in s.items[d].children
  {
    var s1 := Linked(s, item);
    assert d in s.items;
    if d == item.parent {
      assert s1.items[d].children == s.items[d].children + [item.uid];
    }
  }

  /** The fresh uid is not yet in its parent's list, so appending it keeps the list free of duplicates. */
  lemma LinkedDistinct(s: Store, item: Item)
    requires Linkable(s, item)
    ensures item.parent != 0 ==> item.parent in s.items && s.items[item.parent].DatasetItem?
    ensures ChildrenDistinct(Linked(s, item))
  {
    LinkedKeeps(s, item);
    var s1 := Linked(s, item);
    forall d | d in s1.items && s1.items[d].DatasetItem?
      ensures Distinct(s1.items[d].children)
    {
      if d != item.uid && d == item.parent {
        var cs := s.items[d].children;
        assert s1.items[d].children == cs + [item.uid];
        assert item.uid !in cs;
      }
    }
  }

  lemma LinkedWf(s: Store, item: Item)
    requires Linkable(s, item)
    ensures item.parent != 0 ==> item.parent in s.items && s.items[item.parent].DatasetItem?
    ensures Wf(Linked(s, item))
  {
    LinkedKeeps(s, item);
    LinkedUids(s, item);
    LinkedPtrs(s, item);
    LinkedLinks(s, item);
    LinkedChildren(s, item);
    LinkedDistinct(s, item);
  }

  /** The pointers that the items `us` of kind `k` wrap. */
  function PtrsOf(items: map<int, Item>, us: set<int>, k: Kind): set<Ptr>
  {
    set u | u in us && u in items && items[u].KindOf() == k :: items[u].ptr
  }

  /** Every uid table without the uids `us`. */
  function DropUids(m: map<Kind, set<int>>, us: set<int>): map<Kind, set<int>>
  {
    map k | k in m :: m[k] - us
  }

  /** Every pointer table without the pointers the items `us` wrap (whoever they now lead to). */
  function DropPtrs(m: map<Kind, map<Ptr, int>>, items: map<int, Item>, us: set<int>): map<Kind, map<Ptr, int>>
  {
    map k | k in m :: m[k] - PtrsOf(items, us, k)
  }

  /** The parent's dependents list with `u` appended. */
  function Adopt(items: map<int, Item>, parent: int, u: int): map<int, Item>
    requires parent != 0 ==> parent in items && items[parent].DatasetItem?
  {
    if parent == 0 then items
    else items[parent := items[parent].WithChildren(items[parent].children + [u])]
  }

  /** The parent's dependents list without `u`. */
  function Detach(items: map<int, Item>, parent: int, u: int): map<int, Item>
    requires parent != 0 ==> parent in items && items[parent].DatasetItem?
  {
    if parent == 0 then items
    else items[parent := items[parent].WithChildren(Remove(items[parent].children, u))]
  }

  /**
   * The state once the generic dispose of `u` got past its lock: the item's pointer key and
   * uid leave its kind's tables and the item leaves its parent's dependents.
   */
  function Unlinked(s: Store, u: int): Store
    requires Wf(s) && u in s.items
  {
    var it := s.items[u];
    var k := it.KindOf();
    s.(items := Detach(s.items, it.parent, u),
       uidMap := s.uidMap[k := s.uidMap[k] - {u}],
       ptrMap := s.ptrMap[k := s.ptrMap[k] - {it.ptr}])
  }

  lemma UnlinkedKeeps(s: Store, u: int)
    requires Wf(s) && u in s.items && s.items[u].KindOf() != Dataset
    ensures Unlinked(s, u).items.Keys == s.items.Keys
    ensures forall v :: v in s.items ==> Keeps(s.items, Unlinked(s, u).items, v)
  {
  }

  lemma UnlinkedTables(s: Store, u: int)
    requires Wf(s) && u in s.items && s.items[u].KindOf() != Dataset
    ensures UidsTyped(Unlinked(s, u)) && PtrsLead(Unlinked(s, u))
  {
    UnlinkedKeeps(s, u);
    var s1 := Unlinked(s, u);
    forall k, v | k in s1.uidMap && v in s1.uidMap[k]
      ensures v in s1.items && s1.items[v].KindOf() == k
    {
      assert v in s.uidMap[k] && Keeps(s.items, s1.items, v);
    }
    forall k, p | k in s1.ptrMap && p in s1.ptrMap[k]
      ensures k in s1.uidMap && s1.ptrMap[k][p] in s1.uidMap[k] && s1.ptrMap[k][p] in s1.items
        && s1.items[s1.ptrMap[k][p]].ptr == p
    {
      var v := s.ptrMap[k][p];
      assert s1.ptrMap[k][p] == v && Keeps(s.items, s1.items, v);
    }
  }

  lemma UnlinkedLinks(s: Store, u: int)
    requires Wf(s) && u in s.items && s.items[u].KindOf() != Dataset
    ensures ParentsAreDatasets(Unlinked(s, u)) && LocksOfRoots(Unlinked(s, u))
  {
    UnlinkedKeeps(s, u);
  }

  lemma UnlinkedChildren(s: Store, u: int)
    requires Wf(s) && u in s.items && s.items[u].KindOf() != Dataset
    ensures ChildrenRegistered(Unlinked(s, u))
  {
    UnlinkedKeeps(s, u);
    var s1 := Unlinked(s, u);
    forall d, c | d in s1.items && s1.items[d].DatasetItem? && c in s1.items[d].children
      ensures c in s1.items && s1.items[c].parent == d && c in s1.uidMap[s1.items[c].KindOf()]
    {
      assert c in s.items[d].children && c != u;
      assert Keeps(s.items, s1.items, c);
    }
  }

  lemma UnlinkedDistinct(s: Store, u: int)
    requires Wf(s) && u in s.items && s.items[u].KindOf() != Dataset
    ensures ChildrenDistinct(Unlinked(s, u))
  {
    var s1 := Unlinked(s, u);
    var p := s.items[u].parent;
    forall d | d in s1.items && s1.items[d].DatasetItem?
      ensures Distinct(s1.items[d].children)
    {
      if d == p {
        RemoveKeepsDistinct(s.items[p].children, u);
      }
    }
  }

  lemma UnlinkedWf(s: Store, u: int)
    requires Wf(s) && u in s.items && s.items[u].KindOf() != Dataset
    ensures Wf(Unlinked(s, u))
  {
    UnlinkedKeeps(s, u);
    UnlinkedTables(s, u);
    UnlinkedLinks(s, u);
    UnlinkedChildren(s, u);
    UnlinkedDistinct(s, u);
  }

  /** Disposing an item a second time changes nothing: every removal is an erase by key. */
  lemma UnlinkedIdempotent(s: Store, u: int)
    requires Wf(s) && u in s.items && s.items[u].KindOf() != Dataset
    ensures Wf(Unlinked(s, u)) && u in Unlinked(s, u).items
    ensures Unlinked(Unlinked(s, u), u) == Unlinked(s, u)
  {
    UnlinkedWf(s, u);
    var s1 := Unlinked(s, u);
    var it := s.items[u];
    var k := it.KindOf();
    assert s1.items[u] == it;
    DetachTwice(s.items, it.parent, u);
    assert s1.uidMap[k] - {u} == s1.uidMap[k];
    assert s1.ptrMap[k] - {it.ptr} == s1.ptrMap[k];
  }

  /** Taking `u` off its parent's list a second time leaves the list as it is. */
  lemma DetachTwice(items: map<int, Item>, parent: int, u: int)
    requires parent != 0 ==> parent in items && items[parent].DatasetItem?
    ensures Detach(Detach(items, parent, u), parent, u) == Detach(items, parent, u)
  {
    if parent != 0 {
      var once := Detach(items, parent, u);
      assert u !in once[parent].children;
      assert once[parent].WithChildren(Remove(once[parent].children, u)) == once[parent];
    }
  }

  /**
   * The generic dispose erases the pointer key of `u` whoever it leads to: when the wrapped
   * pointer was reused by a newer registered item `v`, `v` stays registered but can no longer
   * be found by its pointer.
   */
  lemma StaleDisposeDropsNewer(s: Store, u: int)
    requires Wf(s) && u in s.items && s.items[u].KindOf() != Dataset
    requires var k := s.items[u].KindOf(); s.items[u].ptr in s.ptrMap[k] && s.ptrMap[k][s.items[u].ptr] != u
    ensures var k := s.items[u].KindOf(); var p := s.items[u].ptr; var v := s.ptrMap[k][p];
      && v in Unlinked(s, u).uidMap[k] && v in Unlinked(s, u).items && Unlinked(s, u).items[v].ptr == p
      && p !in Unlinked(s, u).ptrMap[k]
  {
    UnlinkedKeeps(s, u);
    var k := s.items[u].KindOf();
    var v := s.ptrMap[k][s.items[u].ptr];
    assert Keeps(s.items, Unlinked(s, u).items, v);
  }

  /**
   * The generic dispose of item `u`: it tries the parent's lock once. A busy lock makes it wait
   * (`Blocked`, nothing changed); a free lock is taken and given back; a parent that is no longer
   * registered is ignored. Then the item is unlinked.
   */
  ghost predicate ItemDisposal(s0: Store, s1: Store, u: int, outcome: DisposeOutcome)
    requires Wf(s0) && u in s0.items
  {
    var p := s0.items[u].parent;
    && outcome != Stalled
    && (outcome == Blocked <==> p != 0 && p in s0.uidMap[Dataset] && p in s0.locks && s0.locks[p] == 0)
    && s1 == if outcome == Blocked then s0 else Unlinked(s0, u)
  }

  /** The state once a root dataset's dispose got past its lock: its own two table entries go. */
  function Unregistered(s: Store, u: int): Store
    requires Wf(s) && u in s.items
  {
    s.(uidMap := s.uidMap[Dataset := s.uidMap[Dataset] - {u}],
       ptrMap := s.ptrMap[Dataset := s.ptrMap[Dataset] - {s.items[u].ptr}])
  }

  lemma UnregisteredTables(s: Store, u: int)
    requires Wf(s) && u in s.locks
    ensures UidsTyped(Unregistered(s, u)) && PtrsLead(Unregistered(s, u))
  {
    var s1 := Unregistered(s, u);
    forall k, p | k in s1.ptrMap && p in s1.ptrMap[k]
      ensures k in s1.uidMap && s1.ptrMap[k][p] in s1.uidMap[k]
    {
      assert s1.ptrMap[k][p] == s.ptrMap[k][p];
    }
  }

  lemma UnregisteredChildren(s: Store, u: int)
    requires Wf(s) && u in s.locks
    ensures ChildrenRegistered(Unregistered(s, u))
  {
    var s1 := Unregistered(s, u);
    forall d, c | d in s1.items && s1.items[d].DatasetItem? && c in s1.items[d].children
      ensures c in s1.items && s1.items[c].parent == d && c in s1.uidMap[s1.items[c].KindOf()]
    {
      assert s.items[c].parent == d && d != 0;
    }
  }

  lemma UnregisteredWf(s: Store, u: int)
    requires Wf(s) && u in s.locks
    ensures Wf(Unregistered(s, u))
  {
    UnregisteredTables(s, u);
    UnregisteredChildren(s, u);
  }

  /** A dataset destructor nulls the pointer of `u`, which no table leads to any more. */
  function Closing(s: Store, u: int): Store
    requires u in s.items && s.items[u].DatasetItem?
  {
    var it := s.items[u];
    s.(items := s.items[u := DatasetItem(it.uid, it.parent, 0, it.obj, it.children)])
  }

  lemma ClosingKeeps(s: Store, u: int)
    requires Wf(s) && u in s.items && s.items[u].DatasetItem? && u !in s.uidMap[Dataset]
    ensures Closing(s, u).items.Keys == s.items.Keys
    ensures forall v :: v in s.items ==>
      v in Closing(s, u).items && Closing(s, u).items[v].KindOf() == s.items[v].KindOf()
      && Closing(s, u).items[v].parent == s.items[v].parent && (v != u ==> Closing(s, u).items[v] == s.items[v])
    ensures Closing(s, u).items[u].children == s.items[u].children
  {
  }

  lemma ClosingTables(s: Store, u: int)
    requires Wf(s) && u in s.items && s.items[u].DatasetItem? && u !in s.uidMap[Dataset]
    ensures UidsTyped(Closing(s, u)) && PtrsLead(Closing(s, u))
  {
    ClosingKeeps(s, u);
    var s1 := Closing(s, u);
    forall k, p | k in s1.ptrMap && p in s1.ptrMap[k]
      ensures s1.ptrMap[k][p] in s1.items && s1.items[s1.ptrMap[k][p]].ptr == p
    {
      assert s1.ptrMap[k][p] != u;
    }
  }

  lemma ClosingLinks(s: Store, u: int)
    requires Wf(s) && u in s.items && s.items[u].DatasetItem? && u !in s.uidMap[Dataset]
    ensures ParentsAreDatasets(Closing(s, u)) && LocksOfRoots(Closing(s, u)) && ChildrenRegistered(Closing(s, u))
  {
    ClosingKeeps(s, u);
  }

  /** Setting the counter of a held or free lock keeps the invariant. */
  lemma WfLockSet(s: Store, d: int, v: nat)
    requires Wf(s) && d in s.locks && v <= 1
    ensures Wf(s.(locks := s.locks[d := v]))
  {
    var s1 := s.(locks := s.locks[d := v]);
    assert s1.locks.Keys == s.locks.Keys;
    assert LocksOfRoots(s1);
  }

  /** The invariant does not look at the event log. */
  lemma WfEvents(s: Store, ev: seq<Event>)
    requires Wf(s)
    ensures Wf(s.(events := ev))
  {
  }

  lemma ClosingWf(s: Store, u: int)
    requires Wf(s) && u in s.items && s.items[u].DatasetItem? && u !in s.uidMap[Dataset]
    ensures Wf(Closing(s, u))
  {
    ClosingKeeps(s, u);
    ClosingTables(s, u);
    ClosingLinks(s, u);
  }

  /**
   * The dispose of root dataset `u`: it waits for its own lock (`Blocked` while another holder
   * has it), unregisters the dataset, gives the lock back, and then disposes the dependent at the
   * back of its list through `dispose(uid)` until none is left. When every dependent is of a
   * looked-up kind, the dataset and every dependent it listed leave every table and its list ends
   * empty. A driver or spatial-reference dependent is one `dispose(uid)` ignores: once it is at the
   * back the loop makes no more progress (`Stalled`). The list is then cut back to its last such
   * dependent, and exactly the dependents behind that one are gone.
   */
  ghost predicate DatasetDisposal(s0: Store, s1: Store, u: int, outcome: DisposeOutcome)
    requires Wf(s0) && u in s0.locks
  {
    var it := s0.items[u];
    var gone := {u} + Elems(it.children);
    && (outcome == Blocked <==> s0.locks[u] == 0)
    && (outcome == Stalled <==>
          s0.locks[u] == 1 && exists c :: c in it.children && !Tracked(s0.items[c].KindOf()))
    && (outcome == Blocked ==> s1 == s0)
    && (outcome == Stalled ==>
          && Cascading(s0, u, s1)
          && var n := |s1.items[u].children|;
          && 0 < n <= |it.children| && s1.items[u].children == it.children[..n]
          && it.children[n - 1] in s0.items && !Tracked(s0.items[it.children[n - 1]].KindOf())
          && forall j :: n <= j < |it.children| ==>
               it.children[j] in s0.items && Tracked(s0.items[it.children[j]].KindOf()))
    && (outcome == Done ==>
          && s1.items == s0.items[u := it.WithChildren([])]
          && s1.uidMap == DropUids(s0.uidMap, gone)
          && s1.ptrMap == DropPtrs(s0.ptrMap, s0.items, gone)
          && s1.nextUid == s0.nextUid && s1.locks == s0.locks && s1.events == s0.events)
  }

  /** Unregistering one more item `c` of kind `kc` from tables that already lack `us`. */
  lemma DropOneMore(s: Store, us: set<int>, c: int)
    requires Wf(s) && c in s.items
    ensures var kc := s.items[c].KindOf();
      && DropUids(s.uidMap, us)[kc := DropUids(s.uidMap, us)[kc] - {c}] == DropUids(s.uidMap, us + {c})
      && DropPtrs(s.ptrMap, s.items, us)[kc := DropPtrs(s.ptrMap, s.items, us)[kc] - {s.items[c].ptr}]
         == DropPtrs(s.ptrMap, s.items, us + {c})
  {
    DropUidOneMore(s, us, c);
    DropPtrOneMore(s, us, c);
  }

  lemma DropUidOneMore(s: Store, us: set<int>, c: int)
    requires Wf(s) && c in s.items
    ensures var kc := s.items[c].KindOf();
      DropUids(s.uidMap, us)[kc := DropUids(s.uidMap, us)[kc] - {c}] == DropUids(s.uidMap, us + {c})
  {
    var kc := s.items[c].KindOf();
    var m1 := DropUids(s.uidMap, us)[kc := DropUids(s.uidMap, us)[kc] - {c}];
    var m2 := DropUids(s.uidMap, us + {c});
    forall k | k in m1 ensures m1[k] == m2[k] {
      if k != kc {
        assert c !in s.uidMap[k];
      }
    }
    assert m1.Keys == m2.Keys;
  }

  lemma DropPtrOneMore(s: Store, us: set<int>, c: int)
    requires Wf(s) && c in s.items
    ensures var kc := s.items[c].KindOf();
      DropPtrs(s.ptrMap, s.items, us)[kc := DropPtrs(s.ptrMap, s.items, us)[kc] - {s.items[c].ptr}]
         == DropPtrs(s.ptrMap, s.items, us + {c})
  {
    var kc := s.items[c].KindOf();
    var p1 := DropPtrs(s.ptrMap, s.items, us)[kc := DropPtrs(s.ptrMap, s.items, us)[kc] - {s.items[c].ptr}];
    var p2 := DropPtrs(s.ptrMap, s.items, us + {c});
    forall k | k in p1 ensures p1[k] == p2[k] {
      if k == kc {
        assert PtrsOf(s.items, us + {c}, k) == PtrsOf(s.items, us, k) + {s.items[c].ptr};
      } else {
        assert PtrsOf(s.items, us + {c}, k) == PtrsOf(s.items, us, k);
      }
    }
    assert p1.Keys == p2.Keys;
  }

  /** Unregistering a dataset `u` from its own two tables is dropping `{u}` everywhere. */
  lemma DropDataset(s: Store, u: int)
    requires Wf(s) && u in s.items && s.items[u].DatasetItem?
    ensures s.uidMap[Dataset := s.uidMap[Dataset] - {u}] == DropUids(s.uidMap, {u})
    ensures s.ptrMap[Dataset := s.ptrMap[Dataset] - {s.items[u].ptr}] == DropPtrs(s.ptrMap, s.items, {u})
  {
    DropDatasetUid(s, u);
    DropDatasetPtr(s, u);
  }

  lemma DropDatasetUid(s: Store, u: int)
    requires Wf(s) && u in s.items && s.items[u].DatasetItem?
    ensures s.uidMap[Dataset := s.uidMap[Dataset] - {u}] == DropUids(s.uidMap, {u})
  {
    var m := s.uidMap[Dataset := s.uidMap[Dataset] - {u}];
    forall k | k in m ensures m[k] == DropUids(s.uidMap, {u})[k] {
      if k != Dataset {
        assert u !in s.uidMap[k];
      }
    }
    assert m.Keys == DropUids(s.uidMap, {u}).Keys;
  }

  lemma DropDatasetPtr(s: Store, u: int)
    requires Wf(s) && u in s.items && s.items[u].DatasetItem?
    ensures s.ptrMap[Dataset := s.ptrMap[Dataset] - {s.items[u].ptr}] == DropPtrs(s.ptrMap, s.items, {u})
  {
    var p := s.ptrMap[Dataset := s.ptrMap[Dataset] - {s.items[u].ptr}];
    forall k | k in p ensures p[k] == DropPtrs(s.ptrMap, s.items, {u})[k] {
      if k == Dataset {
        assert PtrsOf(s.items, {u}, k) == {s.items[u].ptr};
      } else {
        assert PtrsOf(s.items, {u}, k) == {};
      }
    }
    assert p.Keys == DropPtrs(s.ptrMap, s.items, {u}).Keys;
  }

  /** The dependents that dataset `u` lists are not datasets themselves. */
  ghost predicate DatasetFreeChildren(s: Store, u: int)
    requires Wf(s) && u in s.items && s.items[u].DatasetItem?
  {
    forall c :: c in s.items[u].children ==> s.items[c].KindOf() != Dataset
  }

  /**
   * Midway through the cascade of root dataset `u`, which started from `s0`: the dataset is
   * unregistered, its list is a prefix of what it held, and exactly the dependents no longer
   * listed are gone from the tables.
   */
  ghost predicate Cascading(s0: Store, u: int, s: Store)
    requires Wf(s0) && u in s0.locks
  {
    && Wf(s) && u in s.items && s.items[u].DatasetItem? && u in s.locks && u !in s.uidMap[Dataset]
    && s.locks == s0.locks && s.nextUid == s0.nextUid && s.events == s0.events
    && s.items == s0.items[u := s0.items[u].WithChildren(s.items[u].children)]
    && |s.items[u].children| <= |s0.items[u].children|
    && s.items[u].children == s0.items[u].children[..|s.items[u].children|]
    && Elems(s.items[u].children) <= Elems(s0.items[u].children)
    && var gone := {u} + (Elems(s0.items[u].children) - Elems(s.items[u].children));
    && s.uidMap == DropUids(s0.uidMap, gone)
    && s.ptrMap == DropPtrs(s0.ptrMap, s0.items, gone)
  }

  /** The dependents the cascade has taken off the back of the list so far were all of looked-up kinds. */
  ghost predicate RemovedTracked(s0: Store, u: int, s: Store)
    requires Wf(s0) && u in s0.items && s0.items[u].DatasetItem? && u in s.items && s.items[u].DatasetItem?
  {
    var cs0 := s0.items[u].children;
    forall j :: |s.items[u].children| <= j < |cs0| ==> cs0[j] in s0.items && Tracked(s0.items[cs0[j]].KindOf())
  }

  lemma CascadeStart(s0: Store, u: int)
    requires Wf(s0) && u in s0.locks
    ensures Cascading(s0, u, Unregistered(s0, u)) && RemovedTracked(s0, u, Unregistered(s0, u))
  {
    UnregisteredWf(s0, u);
    DropDataset(s0, u);
    var s := Unregistered(s0, u);
    assert s.items == s0.items[u := s0.items[u].WithChildren(s.items[u].children)];
    assert s0.items[u].children[..|s0.items[u].children|] == s0.items[u].children;
    assert {u} + (Elems(s0.items[u].children) - Elems(s.items[u].children)) == {u};
  }

  /** The dependent at the back of the list is a registered non-dataset item of `u`, as it was in `s0`. */
  lemma CascadeChild(s0: Store, u: int, s: Store)
    requires Wf(s0) && u in s0.locks && DatasetFreeChildren(s0, u)
    requires Cascading(s0, u, s) && s.items[u].children != []
    ensures var c := s.items[u].children[|s.items[u].children| - 1];
      && c in s.items && c != u && s.items[c] == s0.items[c] && s.items[c].KindOf() != Dataset
      && s.items[c].parent == u && c in s.items[u].children && c in Elems(s0.items[u].children)
      && c == s0.items[u].children[|s.items[u].children| - 1]
      && (Tracked(s.items[c].KindOf()) ==> c in s.uidMap[s.items[c].KindOf()])
  {
    var children := s.items[u].children;
    var c := children[|children| - 1];
    assert c in children;
    assert c in Elems(s0.items[u].children);
  }

  /** One turn of the cascade: the last listed dependent is disposed without waiting. */
  lemma CascadeStep(s0: Store, u: int, s: Store)
    requires Wf(s0) && u in s0.locks && DatasetFreeChildren(s0, u)
    requires Cascading(s0, u, s) && s.items[u].children != []
    ensures var c := s.items[u].children[|s.items[u].children| - 1];
      && c in s.items && s.items[c].KindOf() != Dataset && s.items[c].parent == u
      && Cascading(s0, u, Unlinked(s, c))
      && Unlinked(s, c).items[u].children == s.items[u].children[..|s.items[u].children| - 1]
      && Elems(Unlinked(s, c).items[u].children) == Elems(s.items[u].children) - {c}
  {
    CascadeChild(s0, u, s);
    var children := s.items[u].children;
    var c := children[|children| - 1];
    UnlinkedWf(s, c);
    var s1 := Unlinked(s, c);
    RemoveBackOfDistinct(children);
    assert s1.items[u].children == children[..|children| - 1];
    assert s0.items[u].children[..|children|][..|children| - 1] == s0.items[u].children[..|children| - 1];
    assert Elems(s1.items[u].children) == Elems(children) - {c};
    CascadeTables(s0, u, Elems(children), c);
    assert s1.items == s0.items[u := s0.items[u].WithChildren(s1.items[u].children)];
  }

  /** Disposing a tracked back dependent keeps every removed dependent tracked. */
  lemma CascadeStepRemoved(s0: Store, u: int, s: Store, c: int, s1: Store)
    requires Wf(s0) && u in s0.locks && DatasetFreeChildren(s0, u)
    requires Cascading(s0, u, s) && RemovedTracked(s0, u, s) && s.items[u].children != []
    requires c == s.items[u].children[|s.items[u].children| - 1] && c in s.items && Tracked(s.items[c].KindOf())
    requires s1 == Unlinked(s, c)
    ensures Cascading(s0, u, s1) && RemovedTracked(s0, u, s1)
    ensures |s1.items[u].children| < |s.items[u].children|
  {
    CascadeStep(s0, u, s);
    CascadeChild(s0, u, s);
    var cs0 := s0.items[u].children;
    forall j | |s1.items[u].children| <= j < |cs0|
      ensures cs0[j] in s0.items && Tracked(s0.items[cs0[j]].KindOf())
    {
      if j == |s1.items[u].children| {
        assert cs0[j] == c;
      }
    }
  }

  /** Dropping one more listed dependent `c` from the tables of the cascade. */
  lemma CascadeTables(s0: Store, u: int, left: set<int>, c: int)
    requires Wf(s0) && u in s0.items && s0.items[u].DatasetItem? && c in s0.items && c != u && c in left
    requires c in Elems(s0.items[u].children)
    ensures var gone := {u} + (Elems(s0.items[u].children) - left);
      var kc := s0.items[c].KindOf();
      && DropUids(s0.uidMap, gone)[kc := DropUids(s0.uidMap, gone)[kc] - {c}]
         == DropUids(s0.uidMap, {u} + (Elems(s0.items[u].children) - (left - {c})))
      && DropPtrs(s0.ptrMap, s0.items, gone)[kc := DropPtrs(s0.ptrMap, s0.items, gone)[kc] - {s0.items[c].ptr}]
         == DropPtrs(s0.ptrMap, s0.items, {u} + (Elems(s0.items[u].children) - (left - {c})))
  {
    var gone := {u} + (Elems(s0.items[u].children) - left);
    DropOneMore(s0, gone, c);
    assert gone + {c} == {u} + (Elems(s0.items[u].children) - (left - {c}));
  }

  /**
   * A free root dataset that lists a spatial reference or a driver never finishes its dispose:
   * whatever state the dispose leaves, the dataset still lists a dependent, so the loop over
   * its dependents goes round again.
   */
  lemma UntrackedDependentStalls(s0: Store, s1: Store, u: int, c: int, outcome: DisposeOutcome)
    requires Wf(s0) && u in s0.locks && s0.locks[u] == 1
    requires c in s0.items[u].children && !Tracked(s0.items[c].KindOf())
    requires DatasetDisposal(s0, s1, u, outcome)
    ensures outcome == Stalled
    ensures u in s1.items && s1.items[u].DatasetItem? && s1.items[u].children != []
  {
    assert s0.items[u].children != [];
  }

  /** With a dependent `dispose(uid)` ignores at the back of its list, the cascade is stuck there. */
  lemma CascadeStall(s0: Store, u: int, s: Store)
    requires Wf(s0) && u in s0.locks && s0.locks[u] == 1
    requires Cascading(s0, u, s) && RemovedTracked(s0, u, s) && s.items[u].children != []
    requires var back := s.items[u].children[|s.items[u].children| - 1];
      back in s.items && !Tracked(s.items[back].KindOf())
    ensures DatasetDisposal(s0, s, u, Stalled)
  {
    var n := |s.items[u].children|;
    var back := s.items[u].children[n - 1];
    assert back == s0.items[u].children[n - 1];
    assert back in s.items[u].children;
    assert back in s0.items[u].children && s0.items[back] == s.items[back];
  }

  /** With nothing left in its list, the cascade has reached the state `DatasetDisposal` describes. */
  lemma CascadeEnd(s0: Store, u: int, s: Store)
    requires Wf(s0) && u in s0.locks && s0.locks[u] == 1
    requires Cascading(s0, u, s) && RemovedTracked(s0, u, s) && s.items[u].children == []
    ensures DatasetDisposal(s0, s, u, Done)
  {
    assert Elems(s.items[u].children) == {};
    assert {u} + (Elems(s0.items[u].children) - Elems(s.items[u].children)) == {u} + Elems(s0.items[u].children);
    var cs0 := s0.items[u].children;
    forall c | c in cs0 ensures Tracked(s0.items[c].KindOf()) {
      var j :| 0 <= j < |cs0| && cs0[j] == c;
    }
  }

  /**
   * A stalled dispose leaves one state only: the list is cut back to its last dependent that
   * `dispose(uid)` ignores, and every table follows from what the list lost.
   */
  lemma StalledStateUnique(s0: Store, s1: Store, s2: Store, u: int)
    requires Wf(s0) && u in s0.locks
    requires DatasetDisposal(s0, s1, u, Stalled) && DatasetDisposal(s0, s2, u, Stalled)
    ensures s1 == s2
  {
  }

  // ---------------------------------------------------------------------------------------------
  // The store
  // ---------------------------------------------------------------------------------------------

  class ObjectStore {
    var nextUid: int
    var items: map<int, Item>
    var uidMap: map<Kind, set<int>>
    var ptrMap: map<Kind, map<Ptr, int>>
    var locks: map<int, nat>
    var events: seq<Event>

    function State(): Store
      reads this
    {
      Store(nextUid, items, uidMap, ptrMap, locks, events)
    }

    ghost predicate Valid()
      reads this
    {
      Wf(State())
    }

    /** A registered dataset `d` that the caller means to lock must own a lock: it must be a root. */
    ghost predicate RootIfRegistered(d: int)
      reads this
      requires Valid()
    {
      d in uidMap[Dataset] ==> d in locks
    }

    /** The counter starts at 1 and every table starts empty. */
    constructor ()
      ensures Valid()
      ensures nextUid == 1 && items == map[] && locks == map[] && events == []
      ensures forall k: Kind :: k in uidMap && uidMap[k] == {} && k in ptrMap && ptrMap[k] == map[]
    {
      nextUid := 1;
      items := map[];
      uidMap := map[Driver := {}, SpatialRef := {}, Band := {}, Layer := {}, Dataset := {},
                    Group := {}, MDArray := {}, Dimension := {}, Attribute := {}];
      ptrMap := map[Driver := map[], SpatialRef := map[], Band := map[], Layer := map[], Dataset := map[],
                    Group := map[], MDArray := map[], Dimension := map[], Attribute := map[]];
      locks := map[];
      events := [];
      new;
      forall k: Kind ensures k in uidMap && uidMap[k] == {} && k in ptrMap && ptrMap[k] == map[] {
        match k
        case Driver => case SpatialRef => case Band => case Layer => case Dataset =>
        case Group => case MDArray => case Dimension => case Attribute =>
      }
    }

    /**
     * The generic `add`: issue the next uid, append it to the parent's dependents, and index the
     * item by uid and by pointer (overwriting whatever the pointer key led to before).
     */
    method Link(item: Item) returns (u: int)
      requires Valid()
      requires item.uid == nextUid && item.WellFormed()
      requires item.DatasetItem? ==> item.children == []
      requires item.parent != 0 ==> item.parent in uidMap[Dataset]
      modifies this`nextUid, this`items, this`uidMap, this`ptrMap
      ensures u == old(nextUid) && u >= 1 && nextUid == u + 1 && u !in old(items)
      ensures (item.DatasetItem? && item.parent == 0 ==> Wf(State().(locks := locks[u := 1])))
      ensures !(item.DatasetItem? && item.parent == 0) ==> Valid()
      ensures items == Adopt(old(items), item.parent, u)[u := item]
      ensures uidMap == old(uidMap)[item.KindOf() := old(uidMap)[item.KindOf()] + {u}]
      ensures ptrMap == old(ptrMap)[item.KindOf() := old(ptrMap)[item.KindOf()][item.ptr := u]]
    {
      ghost var s0 := State();
      assert Linkable(s0, item);
      LinkedWf(s0, item);
      u := nextUid;
      nextUid := nextUid + 1;
      items := Adopt(items, item.parent, u)[u := item];
      var k := item.KindOf();
      uidMap := uidMap[k := uidMap[k] + {u}];
      ptrMap := ptrMap[k := ptrMap[k][item.ptr := u]];
      assert State().(locks := Linked(s0, item).locks) == Linked(s0, item);
    }

    /** `add` for drivers, bands, spatial references, groups, arrays, dimensions and attributes. */
    method Add(kind: Kind, ptr: Ptr, obj: JsObject, parentUid: int) returns (u: int)
      requires Valid()
      requires kind != Layer && kind != Dataset
      requires parentUid != 0 ==> parentUid in uidMap[Dataset]
      modifies this`nextUid, this`items, this`uidMap, this`ptrMap
      ensures Valid()
      ensures u == old(nextUid) && u >= 1 && nextUid == u + 1 && u !in old(items)
      ensures items == Adopt(old(items), parentUid, u)[u := Plain(u, kind, parentUid, ptr, obj)]
      ensures uidMap == old(uidMap)[kind := old(uidMap)[kind] + {u}]
      ensures ptrMap == old(ptrMap)[kind := old(ptrMap)[kind][ptr := u]]
    {
      u := Link(Plain(nextUid, kind, parentUid, ptr, obj));
    }

    /** `add` for layers: the generic add, then the result-set flag. */
    method AddLayer(ptr: Ptr, obj: JsObject, parentUid: int, isResultSet: bool) returns (u: int)
      requires Valid()
      requires parentUid != 0 ==> parentUid in uidMap[Dataset]
      modifies this`nextUid, this`items, this`uidMap, this`ptrMap
      ensures Valid()
      ensures u == old(nextUid) && u >= 1 && nextUid == u + 1 && u !in old(items)
      ensures items == Adopt(old(items), parentUid, u)[u := LayerItem(u, parentUid, ptr, obj, isResultSet)]
      ensures uidMap == old(uidMap)[Layer := old(uidMap)[Layer] + {u}]
      ensures ptrMap == old(ptrMap)[Layer := old(ptrMap)[Layer][ptr := u]]
    {
      u := Link(LayerItem(nextUid, parentUid, ptr, obj, isResultSet));
    }

    /** `add` for datasets: the generic add, then a fresh free lock, for a root dataset only. */
    method AddDataset(ptr: Ptr, obj: JsObject, parentUid: int) returns (u: int)
      requires Valid()
      requires parentUid != 0 ==> parentUid in uidMap[Dataset]
      modifies this`nextUid, this`items, this`uidMap, this`ptrMap, this`locks
      ensures Valid()
      ensures u == old(nextUid) && u >= 1 && nextUid == u + 1 && u !in old(items)
      ensures items == Adopt(old(items), parentUid, u)[u := DatasetItem(u, parentUid, ptr, obj, [])]
      ensures uidMap == old(uidMap)[Dataset := old(uidMap)[Dataset] + {u}]
      ensures ptrMap == old(ptrMap)[Dataset := old(ptrMap)[Dataset][ptr := u]]
      ensures locks == if parentUid == 0 then old(locks)[u := 1] else old(locks)
    {
      u := Link(DatasetItem(nextUid, parentUid, ptr, obj, []));
      if parentUid == 0 {
        locks := locks[u := 1];
        assert State() == State().(locks := locks);
      }
    }

    /** `isAlive`: the null uid, or a uid in one of the seven looked-up tables. */
    function IsAlive(u: int): (alive: bool)
      reads this
      requires Valid()
      ensures alive <==> u == 0 || exists k :: Tracked(k) && u in uidMap[k]
      ensures u != 0 && u in items && !Tracked(items[u].KindOf()) ==> !alive
    {
      u == 0 || u in uidMap[Band] || u in uidMap[Layer] || u in uidMap[Dataset] || u in uidMap[Group]
        || u in uidMap[MDArray] || u in uidMap[Dimension] || u in uidMap[Attribute]
    }

    /** `uv_sem_post` by the holder of a root dataset's lock. */
    method Post(d: int)
      requires Valid() && d in locks && locks[d] == 0
      modifies this`locks
      ensures Valid()
      ensures locks == old(locks)[d := 1]
    {
      locks := locks[d := 1];
    }

    /**
     * One round of `tryLockDataset`: an unregistered uid throws; a registered dataset's lock is
     * taken when free and left alone when busy.
     */
    method TryLockDataset(d: int) returns (outcome: LockOutcome)
      requires Valid() && RootIfRegistered(d)
      modifies this`locks
      ensures Valid()
      ensures outcome.Destroyed? <==> d !in uidMap[Dataset]
      ensures outcome.Destroyed? ==> outcome.message == DestroyedMessage
      ensures outcome == Acquired <==> d in uidMap[Dataset] && old(locks)[d] == 1
      ensures locks == if outcome == Acquired then old(locks)[d := 0] else old(locks)
    {
      if d in uidMap[Dataset] {
        if locks[d] == 1 {
          locks := locks[d := 0];
          outcome := Acquired;
        } else {
          outcome := Busy;
        }
      } else {
        outcome := Destroyed(DestroyedMessage);
      }
    }

    /** `uv_sem_post` on each lock in `held`, all taken from the free state `before`. */
    method PostAll(held: seq<int>, ghost before: map<int, nat>)
      requires Valid() && StrictlyIncreasing(held)
      requires locks.Keys == before.Keys
      requires forall e :: e in held ==> e in before && before[e] == 1
      requires forall e :: e in locks ==> locks[e] == if e in held then 0 else before[e]
      modifies this`locks
      ensures Valid() && locks == before
    {
      var j := 0;
      while j < |held|
        invariant 0 <= j <= |held|
        invariant Valid()
        invariant locks.Keys == before.Keys
        invariant forall e :: e in locks ==> locks[e] == if e in held[j..] then 0 else before[e]
      {
        assert held[j] in held;
        Post(held[j]);
        assert held[j..] == [held[j]] + held[j + 1..];
        assert held[j] !in held[j + 1..];
        j := j + 1;
      }
      assert held[j..] == [];
      assert forall e :: e in locks ==> locks[e] == before[e];
    }

    /**
     * The trying half of `tryLockDatasets`: the locks of `handles` are tried in order, and the
     * first busy one makes every lock taken so far be given back.
     */
    method TryLockAll(handles: seq<int>) returns (acquired: bool)
      requires Valid() && StrictlyIncreasing(handles)
      requires forall d :: d in handles ==> d in locks
      modifies this`locks
      ensures Valid()
      ensures acquired <==> forall d :: d in handles ==> old(locks)[d] == 1
      ensures acquired ==> locks.Keys == old(locks).Keys
      ensures acquired ==> forall d :: d in locks ==> locks[d] == if d in handles then 0 else old(locks)[d]
      ensures !acquired ==> locks == old(locks)
    {
      var taken := 0;
      while taken < |handles|
        invariant 0 <= taken <= |handles|
        invariant Valid()
        invariant locks.Keys == old(locks).Keys
        invariant forall d :: d in locks ==> locks[d] == if d in handles[..taken] then 0 else old(locks)[d]
        invariant forall j :: 0 <= j < taken ==> handles[j] in old(locks) && old(locks)[handles[j]] == 1
      {
        var d := handles[taken];
        assert d !in handles[..taken];
        if locks[d] == 1 {
          WfLockSet(State(), d, 0);
          locks := locks[d := 0];
          assert handles[..taken + 1] == handles[..taken] + [d];
          taken := taken + 1;
        } else {
          // give back the locks this round took
          PostAll(handles[..taken], old(locks));
          return false;
        }
      }
      assert handles[..taken] == handles;
      acquired := true;
    }

    /**
     * The first loop of one round: walks `sorted`, skipping 0, and gives up at the first uid
     * that names no registered dataset; otherwise collects the handles of the named datasets.
     */
    method CollectHandles(sorted: seq<int>) returns (found: bool, handles: seq<int>)
      requires Valid()
      requires forall d :: d in sorted ==> RootIfRegistered(d)
      ensures found <==> forall d :: d in sorted && d != 0 ==> d in uidMap[Dataset]
      ensures found ==> handles == NonZero(sorted)
      ensures found ==> forall d :: d in handles ==> d in locks
    {
      handles := [];
      var i := 0;
      while i < |sorted|
        invariant 0 <= i <= |sorted|
        invariant handles == NonZero(sorted[..i])
        invariant forall d :: d in handles ==> d in locks
        invariant forall j :: 0 <= j < i && sorted[j] != 0 ==> sorted[j] in uidMap[Dataset]
      {
        var d := sorted[i];
        assert sorted[..i + 1] == sorted[..i] + [d];
        if d != 0 {
          if d !in uidMap[Dataset] {
            return false, handles;
          }
          assert RootIfRegistered(d);
          handles := handles + [d];
        }
        i := i + 1;
      }
      assert sorted[..i] == sorted;
      found := true;
    }

    /**
     * One round of `tryLockDatasets`: over the uids sorted and without duplicates, skipping 0,
     * any unregistered uid throws before a lock is touched; otherwise the locks are tried in
     * ascending order, and the first busy one makes the round give back every lock it took.
     */
    method TryLockDatasets(uids: seq<int>) returns (outcome: LocksOutcome)
      requires Valid()
      requires forall d :: d in uids ==> RootIfRegistered(d)
      modifies this`locks
      ensures Valid()
      ensures outcome.SomeDestroyed? <==> exists d :: d in uids && d != 0 && d !in uidMap[Dataset]
      ensures outcome.SomeDestroyed? ==> outcome.message == DestroyedMessage
      ensures outcome.AllAcquired? <==>
        forall d :: d in uids && d != 0 ==> d in uidMap[Dataset] && d in old(locks) && old(locks)[d] == 1
      ensures outcome.AllAcquired? ==> outcome.handles == NonZero(Canonical(uids))
      ensures outcome.AllAcquired? ==>
        locks.Keys == old(locks).Keys &&
        forall d :: d in locks ==> locks[d] == if d in outcome.handles then 0 else old(locks)[d]
      ensures !outcome.AllAcquired? ==> locks == old(locks)
    {
      var sorted := Canonical(uids);
      var found, handles := CollectHandles(sorted);
      if !found {
        return SomeDestroyed(DestroyedMessage);
      }
      var acquired := TryLockAll(handles);
      if !acquired {
        return SomeBusy;
      }
      outcome := AllAcquired(handles);
    }

    /** The parent of item `u` owns a lock if it is still registered. */
    ghost predicate LockableParent(u: int)
      reads this
      requires Valid() && u in items
    {
      RootIfRegistered(items[u].parent)
    }

    /** The dependents of dataset `u` are not themselves datasets. */
    ghost predicate NoDatasetChildren(u: int)
      reads this
      requires Valid() && u in items && items[u].DatasetItem?
    {
      DatasetFreeChildren(State(), u)
    }

    /** Generic `dispose(item)`, for every kind but datasets. */
    method DisposeItem(u: int) returns (outcome: DisposeOutcome)
      requires Valid() && u in items && items[u].KindOf() != Dataset && LockableParent(u)
      modifies this`items, this`uidMap, this`ptrMap, this`locks
      ensures Valid()
      ensures ItemDisposal(old(State()), State(), u, outcome)
    {
      ghost var s0 := State();
      var it := items[u];
      var k := it.KindOf();
      var acquired := false;
      if it.parent != 0 {
        var attempt := TryLockDataset(it.parent);
        if attempt == Busy {
          return Blocked;
        }
        // a parent that is already unregistered throws, and the throw is swallowed
        acquired := attempt == Acquired;
      }
      assert State() == s0.(locks := locks);
      Unlink(u);
      assert State() == Unlinked(s0, u).(locks := locks);
      if acquired {
        Post(it.parent);
        assert locks == s0.locks;
      }
      outcome := Done;
    }

    /** The table updates of the generic dispose: the item leaves both tables and its parent's list. */
    method Unlink(u: int)
      requires Valid() && u in items && items[u].KindOf() != Dataset
      modifies this`items, this`uidMap, this`ptrMap
      ensures Valid()
      ensures State() == Unlinked(old(State()), u)
    {
      var it := items[u];
      var k := it.KindOf();
      UnlinkedWf(State(), u);
      ptrMap := ptrMap[k := ptrMap[k] - {it.ptr}];
      uidMap := uidMap[k := uidMap[k] - {u}];
      items := Detach(items, it.parent, u);
    }

    /** `dispose(item)` for a root dataset: unregister it under its lock, then its dependents. */
    method DisposeDataset(u: int) returns (outcome: DisposeOutcome)
      requires Valid() && u in locks && NoDatasetChildren(u)
      modifies this`items, this`uidMap, this`ptrMap, this`locks
      decreases 5
      ensures Valid()
      ensures DatasetDisposal(old(State()), State(), u, outcome)
    {
      if locks[u] == 0 {
        return Blocked;
      }
      ghost var s0 := State();
      assert DatasetFreeChildren(s0, u);
      var ptr := items[u].ptr;
      locks := locks[u := 0];
      uidMap := uidMap[Dataset := uidMap[Dataset] - {u}];
      ptrMap := ptrMap[Dataset := ptrMap[Dataset] - {ptr}];
      locks := locks[u := 1];
      assert State() == Unregistered(s0, u);
      CascadeStart(s0, u);
      outcome := Cascade(s0, u);
    }

    /**
     * The loop `while (!children.empty()) dispose(children.back())` of a dataset dispose that
     * started from `s0`: it ends `Done` with the list empty, or `Stalled` on a dependent that
     * `dispose(uid)` ignores.
     */
    method Cascade(ghost s0: Store, u: int) returns (outcome: DisposeOutcome)
      requires Wf(s0) && u in s0.locks && s0.locks[u] == 1 && DatasetFreeChildren(s0, u)
      requires Cascading(s0, u, State()) && RemovedTracked(s0, u, State())
      modifies this`items, this`uidMap, this`ptrMap, this`locks
      decreases 4
      ensures Valid()
      ensures DatasetDisposal(s0, State(), u, outcome)
    {
      while items[u].children != []
        invariant Cascading(s0, u, State()) && RemovedTracked(s0, u, State())
        decreases |items[u].children|
      {
        var progress := CascadeOne(s0, u);
        if !progress {
          // the same dependent stays at the back, so the source repeats this call forever
          CascadeStall(s0, u, State());
          return Stalled;
        }
      }
      CascadeEnd(s0, u, State());
      outcome := Done;
    }

    /**
     * One turn of the cascade: `dispose(uid)` of the dependent at the back of the list. A
     * dependent of a looked-up kind is disposed without waiting for the unregistered dataset's
     * lock; any other is ignored and the store stays as it was.
     */
    method CascadeOne(ghost s0: Store, u: int) returns (progress: bool)
      requires Wf(s0) && u in s0.locks && DatasetFreeChildren(s0, u)
      requires Cascading(s0, u, State()) && RemovedTracked(s0, u, State()) && items[u].children != []
      modifies this`items, this`uidMap, this`ptrMap, this`locks
      decreases 3
      ensures Cascading(s0, u, State()) && RemovedTracked(s0, u, State())
      ensures var c := old(items[u].children[|items[u].children| - 1]);
        c in old(items) && (progress <==> Tracked(old(items)[c].KindOf()))
      ensures progress ==> |items[u].children| < old(|items[u].children|)
      ensures !progress ==> State() == old(State())
    {
      CascadeChild(s0, u, State());
      var c := items[u].children[|items[u].children| - 1];
      if Tracked(items[c].KindOf()) {
        CascadeTracked(s0, u);
        progress := true;
      } else {
        DisposeIgnored(c);
        progress := false;
      }
    }

    /** The turn of the cascade whose last listed dependent is of a looked-up kind. */
    method CascadeTracked(ghost s0: Store, u: int)
      requires Wf(s0) && u in s0.locks && DatasetFreeChildren(s0, u)
      requires Cascading(s0, u, State()) && RemovedTracked(s0, u, State()) && items[u].children != []
      requires var c := items[u].children[|items[u].children| - 1]; c in items && Tracked(items[c].KindOf())
      modifies this`items, this`uidMap, this`ptrMap, this`locks
      decreases 2
      ensures Cascading(s0, u, State()) && RemovedTracked(s0, u, State())
      ensures |items[u].children| < old(|items[u].children|)
    {
      ghost var s := State();
      CascadeChild(s0, u, s);
      var c := items[u].children[|items[u].children| - 1];
      assert s.items == items;
      assert c == s.items[u].children[|s.items[u].children| - 1] && c in s.items && Tracked(s.items[c].KindOf());
      DisposeTracked(c);
      CascadeStepRemoved(s0, u, s, c, State());
    }

    /**
     * `dispose(uid)` of a registered item of a looked-up kind other than dataset, whose parent (if
     * any) is no longer registered: the generic dispose, which then never waits.
     */
    method DisposeTracked(c: int)
      requires Valid() && c in items && Tracked(items[c].KindOf()) && items[c].KindOf() != Dataset
      requires c in uidMap[items[c].KindOf()]
      requires items[c].parent !in uidMap[Dataset]
      modifies this`items, this`uidMap, this`ptrMap, this`locks
      decreases 1
      ensures Valid()
      ensures State() == Unlinked(old(State()), c)
    {
      var o := DisposeUid(c);
    }

    /** `dispose(uid)` of a registered driver or spatial reference: nothing happens. */
    method DisposeIgnored(c: int)
      requires Valid() && c in items && !Tracked(items[c].KindOf())
      modifies this`items, this`uidMap, this`ptrMap, this`locks
      decreases 1
      ensures State() == old(State())
    {
      assert !IsAlive(c);
      var o := DisposeUid(c);
    }

    /** `dispose(uid)`: the first table among the seven looked-up ones that holds the uid decides. */
    method DisposeUid(u: int) returns (outcome: DisposeOutcome)
      requires Valid()
      requires u in uidMap[Dataset] ==> u in locks && NoDatasetChildren(u)
      requires u in items && Tracked(items[u].KindOf()) && u in uidMap[items[u].KindOf()] ==> LockableParent(u)
      modifies this`items, this`uidMap, this`ptrMap, this`locks
      decreases if u in uidMap[Dataset] then 6 else 0
      ensures Valid()
      ensures u in old(uidMap)[Dataset] ==> DatasetDisposal(old(State()), State(), u, outcome)
      ensures (u in old(items) && Tracked(old(items)[u].KindOf()) && old(items)[u].KindOf() != Dataset
        && u in old(uidMap)[old(items)[u].KindOf()]) ==> ItemDisposal(old(State()), State(), u, outcome)
      ensures u == 0 || !old(IsAlive(u)) ==> outcome == Done && State() == old(State())
    {
      if u in uidMap[Dataset] {
        outcome := DisposeDataset(u);
      } else if u in uidMap[Layer] || u in uidMap[Band] || u in uidMap[Group] || u in uidMap[MDArray]
        || u in uidMap[Dimension] || u in uidMap[Attribute] {
        outcome := DisposeItem(u);
      } else {
        outcome := Done;
      }
    }

    /** The garbage collector's `weakCallback`: dispose the very item the wrapper was made for. */
    method WeakCallback(u: int) returns (outcome: DisposeOutcome)
      requires Valid() && u in items
      requires items[u].DatasetItem? ==> u in locks && NoDatasetChildren(u)
      requires !items[u].DatasetItem? ==> LockableParent(u)
      modifies this`items, this`uidMap, this`ptrMap, this`locks
      ensures Valid()
      ensures old(items)[u].DatasetItem? ==> DatasetDisposal(old(State()), State(), u, outcome)
      ensures !old(items)[u].DatasetItem? ==> ItemDisposal(old(State()), State(), u, outcome)
    {
      if items[u].DatasetItem? {
        outcome := DisposeDataset(u);
      } else {
        outcome := DisposeItem(u);
      }
    }

    /**
     * The item destructors, once nothing refers to item `u` any more: a dataset closes its
     * pointer if it is not null and then nulls it, so it closes at most once; a result-set layer
     * hands itself back to its parent dataset; every other item does nothing.
     */
    method Destroy(u: int)
      requires Valid() && u in items && u !in uidMap[items[u].KindOf()]
      requires items[u].LayerItem? ==> items[u].parent != 0
      modifies this`items, this`events
      ensures Valid()
      ensures var it := old(items)[u];
        && (it.DatasetItem? && it.ptr != 0 ==>
              State() == Closing(old(State()), u).(events := old(events) + [Closed(it.ptr)]))
        && (it.LayerItem? && it.isResultSet ==>
              items == old(items) && events == old(events) + [ResultSetReleased(old(items)[it.parent].ptr, it.ptr)])
        && (!(it.DatasetItem? && it.ptr != 0) && !(it.LayerItem? && it.isResultSet) ==>
              items == old(items) && events == old(events))
    {
      var it := items[u];
      match it
      case DatasetItem(uid, parent, ptr, obj, children) =>
        if ptr != 0 {
          ghost var s0 := State();
          ClosingWf(s0, u);
          events := events + [Closed(ptr)];
          items := items[u := DatasetItem(uid, parent, 0, obj, children)];
          assert State() == Closing(s0, u).(events := events);
          WfEvents(Closing(s0, u), events);
        }
      case LayerItem(_, parent, ptr, _, isResultSet) =>
        if isResultSet {
          // the parent pointer is read whether or not the parent is still registered
          WfEvents(State(), events + [ResultSetReleased(items[parent].ptr, ptr)]);
          events := events + [ResultSetReleased(items[parent].ptr, ptr)];
        }
      case Plain(_, _, _, _, _) =>
    }
  }
}
