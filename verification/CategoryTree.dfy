/** The category list of the back office: categories laid out as a tree, whatever their parents are, and the label
    that names a category with its ancestors. */
module CategoryTree {
  import opened Common
  import Csv

  type Id = string

  /** `nameRank` is the place of the name in the collation order that localeCompare follows. */
  datatype Category = Category(id: Id, parentId: Option<Id>, sortOrder: int, name: string, nameRank: int)

  datatype Row = Row(category: Category, depth: nat)

  function ParentKey(c: Category): Id {
    if c.parentId.Some? then c.parentId.value else ""
  }

  // ---- grouping and sorting ----

  function WithParent(categories: seq<Category>, parent: Id): seq<Category> {
    if categories == [] then []
    else
      var n := |categories| - 1;
      WithParent(categories[..n], parent) + if ParentKey(categories[n]) == parent then [categories[n]] else []
  }

  /** The comparator lets a stay before b. */
  predicate NotAfter(a: Category, b: Category) {
    a.sortOrder < b.sortOrder || (a.sortOrder == b.sortOrder && a.nameRank <= b.nameRank)
  }

  function Insert(c: Category, sorted: seq<Category>): seq<Category> {
    if sorted == [] || NotAfter(c, sorted[0]) then [c] + sorted else [sorted[0]] + Insert(c, sorted[1..])
  }

  /** Array.prototype.sort: a stable sort. */
  function Sort(categories: seq<Category>): seq<Category> {
    if categories == [] then [] else Insert(categories[0], Sort(categories[1..]))
  }

  function Children(categories: seq<Category>, parent: Id): (list: seq<Category>)
    ensures forall c :: c in list <==> c in categories && ParentKey(c) == parent
  {
    SortedMembers(categories, parent);
    Sort(WithParent(categories, parent))
  }

  ghost predicate Sorted(list: seq<Category>) {
    forall i, j :: 0 <= i < j < |list| ==> NotAfter(list[i], list[j])
  }

  lemma {:induction false} InsertAdds(c: Category, list: seq<Category>)
    ensures multiset(Insert(c, list)) == multiset([c]) + multiset(list)
    decreases |list|
  {
    if list != [] && !NotAfter(c, list[0]) {
      InsertAdds(c, list[1..]);
      assert list == [list[0]] + list[1..];
    }
  }

  lemma {:induction false} SortKeeps(list: seq<Category>)
    ensures multiset(Sort(list)) == multiset(list)
    decreases |list|
  {
    if list != [] {
      SortKeeps(list[1..]);
      InsertAdds(list[0], Sort(list[1..]));
      assert list == [list[0]] + list[1..];
    }
  }

  lemma {:induction false} InsertSorts(c: Category, list: seq<Category>)
    requires Sorted(list)
    ensures Sorted(Insert(c, list))
    decreases |list|
  {
    if list != [] && !NotAfter(c, list[0]) {
      var rest := Insert(c, list[1..]);
      InsertSorts(c, list[1..]);
      InsertAdds(c, list[1..]);
      forall i | 0 <= i < |rest|
        ensures NotAfter(list[0], rest[i])
      {
        assert rest[i] in multiset(rest);
      }
    }
  }

  lemma {:induction false} SortSorts(list: seq<Category>)
    ensures Sorted(Sort(list))
    decreases |list|
  {
    if list != [] {
      SortSorts(list[1..]);
      InsertSorts(list[0], Sort(list[1..]));
    }
  }

  lemma {:induction false} WithParentMembers(categories: seq<Category>, parent: Id)
    ensures forall c :: c in WithParent(categories, parent) <==> c in categories && ParentKey(c) == parent
    decreases |categories|
  {
    if categories != [] {
      var n := |categories| - 1;
      WithParentMembers(categories[..n], parent);
      assert categories == categories[..n] + [categories[n]];
    }
  }

  lemma SortedMembers(categories: seq<Category>, parent: Id)
    ensures forall c :: c in Sort(WithParent(categories, parent)) <==> c in categories && ParentKey(c) == parent
  {
    hide Sort, WithParent;
    var list := WithParent(categories, parent);
    SortKeeps(list);
    WithParentMembers(categories, parent);
    assert forall c :: c in Sort(list) <==> c in multiset(Sort(list));
    assert forall c :: c in list <==> c in multiset(list);
  }

  /** The siblings of every family stand in the order of sortOrder, then name. */
  lemma ChildrenSorted(categories: seq<Category>, parent: Id)
    ensures Sorted(Children(categories, parent))
    ensures multiset(Children(categories, parent)) == multiset(WithParent(categories, parent))
  {
    SortSorts(WithParent(categories, parent));
    SortKeeps(WithParent(categories, parent));
  }

  // ---- the visit ----

  /** Ids are unique and not empty, as primary keys are. */
  ghost predicate ProperIds(categories: seq<Category>) {
    && (forall i, j :: 0 <= i < j < |categories| ==> categories[i].id != categories[j].id)
    && (forall i :: 0 <= i < |categories| ==> categories[i].id != "")
  }

  function AllIds(categories: seq<Category>): set<Id> {
    set c | c in categories :: c.id
  }

  function RowIds(rows: seq<Row>): set<Id> {
    set r | r in rows :: r.category.id
  }

  /** What visiting the siblings `list` at a depth appends, when some ids have been seen. */
  function Visit(categories: seq<Category>, list: seq<Category>, depth: nat, seen: set<Id>): seq<Row>
    requires forall c :: c in list ==> c in categories
    decreases |AllIds(categories) - seen|, |list|
  {
    if list == [] then []
    else
      var c := list[0];
      if c.id in seen then Visit(categories, list[1..], depth, seen)
      else
        SeenShrinks(categories, c, seen);
        var below := Visit(categories, Children(categories, c.id), depth + 1, seen + {c.id});
        SeenShrinksMore(categories, c, seen, RowIds(below));
        [Row(c, depth)] + below + Visit(categories, list[1..], depth, seen + {c.id} + RowIds(below))
  }

  lemma SeenShrinks(categories: seq<Category>, c: Category, seen: set<Id>)
    requires c in categories && c.id !in seen
    ensures |AllIds(categories) - (seen + {c.id})| < |AllIds(categories) - seen|
  {
    SeenShrinksMore(categories, c, seen, {});
    assert seen + {c.id} + {} == seen + {c.id};
  }

  lemma SeenShrinksMore(categories: seq<Category>, c: Category, seen: set<Id>, more: set<Id>)
    requires c in categories && c.id !in seen
    ensures |AllIds(categories) - (seen + {c.id} + more)| < |AllIds(categories) - seen|
  {
    var before, after := AllIds(categories) - seen, AllIds(categories) - (seen + {c.id} + more);
    assert c.id in before && c.id !in after;
    assert after <= before - {c.id};
    SubsetSize(after, before - {c.id});
  }

  /** byParent.get(parent) ?? [] */
  function ListOf(byParent: map<Id, seq<Category>>, parent: Id): seq<Category> {
    if parent in byParent then byParent[parent] else []
  }

  /** The walk: what categoryTreeRows keeps while it visits. */
  class TreeWalk {
    const categories: seq<Category>
    var byParent: map<Id, seq<Category>>
    var ordered: seq<Row>
    var seen: set<Id>

    ghost predicate Grouped()
      reads this
    {
      forall parent :: ListOf(byParent, parent) == Children(categories, parent)
    }

    constructor (categories: seq<Category>)
      ensures this.categories == categories && Grouped() && ordered == [] && seen == {}
    {
      this.categories := categories;
      byParent, ordered, seen := map[], [], {};
      new;
      byParent := GroupByParent(categories);
    }

    /** Visits the families below a parent; every row it adds was not seen before. */
    method VisitParent(parent: Id, depth: nat)
      requires Grouped()
      modifies this`ordered, this`seen
      ensures (ordered, seen) == Walk(old(ordered), old(seen), categories, Children(categories, parent), depth)
      decreases |AllIds(categories) - seen|
    {
      hide Visit, Children, RowIds, Walk, AllIds, ListOf;
      var list := ListOf(byParent, parent);
      var i := 0;
      while i < |list|
        invariant 0 <= i <= |list|
        invariant old(seen) <= seen && Grouped() && list == Children(categories, parent)
        invariant Walk(ordered, seen, categories, list[i..], depth)
          == Walk(old(ordered), old(seen), categories, list, depth)
        decreases |list| - i
      {
        var category := list[i];
        assert list[i..][1..] == list[i + 1..];
        if category.id in seen {
          WalkSkips(ordered, seen, categories, list[i..], depth);
        } else {
          WalkTakes(ordered, seen, categories, list[i..], depth);
          SeenShrinks(categories, category, seen);
          SubsetSize(AllIds(categories) - seen, AllIds(categories) - old(seen));
          seen := seen + {category.id};
          ordered := ordered + [Row(category, depth)];
          WalkGrows(ordered, seen, categories, Children(categories, category.id), depth + 1);
          VisitParent(category.id, depth + 1);
        }
        i := i + 1;
      }
      WalkEnds(ordered, seen, categories, depth);
      assert list[i..] == [] && list[0..] == list;
    }
  }

  method GroupByParent(categories: seq<Category>) returns (byParent: map<Id, seq<Category>>)
    ensures forall parent :: ListOf(byParent, parent) == Children(categories, parent)
  {
    hide Sort, WithParent;
    byParent := map[];
    WithParentSnoc(categories, 0);
    for i := 0 to |categories|
      invariant forall parent :: ListOf(byParent, parent) == WithParent(categories[..i], parent)
    {
      var key := ParentKey(categories[i]);
      var rows := ListOf(byParent, key);
      WithParentSnoc(categories, i);
      assert WithParent(categories[..i + 1], key) == rows + [categories[i]];
      ghost var before := byParent;
      byParent := byParent[key := rows + [categories[i]]];
      forall parent
        ensures ListOf(byParent, parent) == WithParent(categories[..i + 1], parent)
      {
        assert parent != key ==> ListOf(byParent, parent) == ListOf(before, parent);
      }
    }
    assert categories[..|categories|] == categories;
    var grouped := byParent;
    byParent := map parent | parent in grouped :: Sort(grouped[parent]);
    NothingSorted();
  }

  lemma WithParentSnoc(categories: seq<Category>, i: nat)
    requires i <= |categories|
    ensures i == 0 ==> forall parent :: WithParent(categories[..i], parent) == []
    ensures i < |categories| ==> forall parent ::
      var before := WithParent(categories[..i], parent);
      WithParent(categories[..i + 1], parent) == if ParentKey(categories[i]) == parent then before + [categories[i]] else before
  {
    if i < |categories| {
      assert categories[..i + 1][..i] == categories[..i];
    }
  }

  lemma NothingSorted()
    ensures Sort([]) == []
  {
  }

  lemma WalkSkips(ordered: seq<Row>, seen: set<Id>, categories: seq<Category>, list: seq<Category>, depth: nat)
    requires list != [] && (forall c :: c in list ==> c in categories) && list[0].id in seen
    ensures Walk(ordered, seen, categories, list, depth) == Walk(ordered, seen, categories, list[1..], depth)
  {
  }

  lemma WalkTakes(ordered: seq<Row>, seen: set<Id>, categories: seq<Category>, list: seq<Category>, depth: nat)
    requires list != [] && (forall c :: c in list ==> c in categories) && list[0].id !in seen
    ensures var below := Walk(ordered + [Row(list[0], depth)], seen + {list[0].id}, categories,
          Children(categories, list[0].id), depth + 1);
      Walk(ordered, seen, categories, list, depth) == Walk(below.0, below.1, categories, list[1..], depth)
  {
    hide Visit, Children, RowIds;
    VisitCons(categories, list, depth, seen);
    var below := Visit(categories, Children(categories, list[0].id), depth + 1, seen + {list[0].id});
    var rest := Visit(categories, list[1..], depth, seen + {list[0].id} + RowIds(below));
    assert ordered + ([Row(list[0], depth)] + below + rest) == ordered + [Row(list[0], depth)] + below + rest;
    assert seen + ({list[0].id} + RowIds(below) + RowIds(rest)) == seen + {list[0].id} + RowIds(below) + RowIds(rest);
  }

  lemma WalkEnds(ordered: seq<Row>, seen: set<Id>, categories: seq<Category>, depth: nat)
    ensures Walk(ordered, seen, categories, [], depth) == (ordered, seen)
  {
    var rows := Visit(categories, [], depth, seen);
    assert rows == [] && ordered + rows == ordered;
    assert RowIds(rows) == {} && seen + RowIds(rows) == seen;
  }

  lemma WalkGrows(ordered: seq<Row>, seen: set<Id>, categories: seq<Category>, list: seq<Category>, depth: nat)
    requires forall c :: c in list ==> c in categories
    ensures seen <= Walk(ordered, seen, categories, list, depth).1
  {
  }

  /** The rows and the seen ids after visiting a list. */
  ghost function Walk(ordered: seq<Row>, seen: set<Id>, categories: seq<Category>, list: seq<Category>, depth: nat): (seq<Row>, set<Id>)
    requires forall c :: c in list ==> c in categories
  {
    var rows := Visit(categories, list, depth, seen);
    (ordered + rows, seen + RowIds(rows))
  }

  lemma VisitCons(categories: seq<Category>, list: seq<Category>, depth: nat, seen: set<Id>)
    requires list != [] && (forall c :: c in list ==> c in categories) && list[0].id !in seen
    ensures var below := Visit(categories, Children(categories, list[0].id), depth + 1, seen + {list[0].id});
      var rest := Visit(categories, list[1..], depth, seen + {list[0].id} + RowIds(below));
      && Visit(categories, list, depth, seen) == [Row(list[0], depth)] + below + rest
      && RowIds(Visit(categories, list, depth, seen)) == {list[0].id} + RowIds(below) + RowIds(rest)
  {
    var below := Visit(categories, Children(categories, list[0].id), depth + 1, seen + {list[0].id});
    var rest := Visit(categories, list[1..], depth, seen + {list[0].id} + RowIds(below));
    RowIdsAppend([Row(list[0], depth)], below);
    RowIdsAppend([Row(list[0], depth)] + below, rest);
    assert RowIds([Row(list[0], depth)]) == {list[0].id} by {
      assert Row(list[0], depth) in [Row(list[0], depth)];
    }
  }

  lemma RowIdsAppend(a: seq<Row>, b: seq<Row>)
    ensures RowIds(a + b) == RowIds(a) + RowIds(b)
  {
    forall id
      ensures id in RowIds(a + b) <==> id in RowIds(a) || id in RowIds(b)
    {
      if id in RowIds(a) {
        var r :| r in a && r.category.id == id;
        assert r in a + b;
      }
      if id in RowIds(b) {
        var r :| r in b && r.category.id == id;
        assert r in a + b;
      }
    }
  }

  // ---- what a visit reaches ----

  /** The siblings still to be visited under a parent: none was seen, and nothing was seen before its own parent. */
  ghost predicate Pending(categories: seq<Category>, list: seq<Category>, parent: Id, seen: set<Id>) {
    && ProperIds(categories)
    && (forall c :: c in list ==> c in categories && ParentKey(c) == parent && c.id !in seen)
    && (forall i, j :: 0 <= i < j < |list| ==> list[i].id != list[j].id)
    && (parent == "" || parent in seen)
    && (forall c :: c in categories && c.id in seen ==> ParentKey(c) == "" || ParentKey(c) in seen)
  }

  /** What a visit adds: unseen categories, the siblings and everything below them, nothing else. */
  ghost predicate Adds(categories: seq<Category>, list: seq<Category>, seen: set<Id>, ids: set<Id>) {
    && ids !! seen && ids <= AllIds(categories)
    && (forall c :: c in list ==> c.id in ids)
    && (forall c :: c in categories && c.id in ids ==> c in list || ParentKey(c) in ids)
    && (forall c :: c in categories && ParentKey(c) in ids ==> c.id in ids)
  }

  lemma {:induction false} SameCategory(categories: seq<Category>, a: Category, b: Category)
    requires ProperIds(categories) && a in categories && b in categories && a.id == b.id
    ensures a == b
  {
  }

  lemma ChildrenDistinct(categories: seq<Category>, parent: Id)
    requires ProperIds(categories)
    ensures var list := Children(categories, parent);
      forall i, j :: 0 <= i < j < |list| ==> list[i].id != list[j].id
  {
    hide Children;
    var list := Children(categories, parent);
    ChildrenOnce(categories, parent);
    forall i, j | 0 <= i < j < |list|
      ensures list[i].id != list[j].id
    {
      if list[i].id == list[j].id {
        SameCategory(categories, list[i], list[j]);
        TwiceCounted(list, i, j);
        assert false;
      }
    }
  }

  lemma TwiceCounted(list: seq<Category>, i: nat, j: nat)
    requires i < j < |list| && list[i] == list[j]
    ensures multiset(list)[list[i]] >= 2
  {
    assert list == list[..j] + [list[j]] + list[j + 1..];
    assert list[..j][i] == list[i];
    assert list[i] in multiset(list[..j]);
  }

  lemma {:induction false} WithParentOnce(categories: seq<Category>, parent: Id, c: Category)
    ensures multiset(WithParent(categories, parent))[c] <= multiset(categories)[c]
    decreases |categories|
  {
    if categories != [] {
      var n := |categories| - 1;
      WithParentOnce(categories[..n], parent, c);
      assert categories == categories[..n] + [categories[n]];
    }
  }

  lemma {:induction false} ProperOnce(categories: seq<Category>, c: Category)
    requires forall i, j :: 0 <= i < j < |categories| ==> categories[i].id != categories[j].id
    ensures multiset(categories)[c] == if c in categories then 1 else 0
    decreases |categories|
  {
    if categories != [] {
      var n := |categories| - 1;
      ProperOnce(categories[..n], c);
      assert categories == categories[..n] + [categories[n]];
    }
  }

  lemma ChildrenOnce(categories: seq<Category>, parent: Id)
    requires ProperIds(categories)
    ensures forall c :: multiset(Children(categories, parent))[c] <= 1
  {
    hide Sort, WithParent;
    SortKeeps(WithParent(categories, parent));
    forall c
      ensures multiset(Children(categories, parent))[c] <= 1
    {
      WithParentOnce(categories, parent, c);
      ProperOnce(categories, c);
    }
  }

  lemma PendingBelow(categories: seq<Category>, list: seq<Category>, parent: Id, seen: set<Id>)
    requires Pending(categories, list, parent, seen) && list != []
    ensures Pending(categories, Children(categories, list[0].id), list[0].id, seen + {list[0].id})
  {
    hide Children;
    var c := list[0];
    ChildrenDistinct(categories, c.id);
    assert c in list && c.id != "";
    forall k | k in Children(categories, c.id)
      ensures k.id !in seen + {c.id}
    {
      if k.id == c.id {
        SameCategory(categories, k, c);
      }
    }
  }

  lemma EmptyIsNoId(categories: seq<Category>, ids: set<Id>)
    requires ProperIds(categories) && ids <= AllIds(categories)
    ensures "" !in ids && forall c :: c in categories ==> c.id != ""
  {
    assert forall c :: c in categories ==> c.id != "";
  }

  lemma PendingRest(categories: seq<Category>, list: seq<Category>, parent: Id, seen: set<Id>, below: set<Id>)
    requires Pending(categories, list, parent, seen) && list != []
    requires Adds(categories, Children(categories, list[0].id), seen + {list[0].id}, below)
    ensures Pending(categories, list[1..], parent, seen + {list[0].id} + below)
  {
    hide Children, ProperIds, AllIds;
    var c, rest := list[0], list[1..];
    EmptyIsNoId(categories, below);
    assert c in list;
    assert parent !in below && parent != c.id;
    forall s | s in rest
      ensures s in categories && ParentKey(s) == parent && s.id !in seen + {c.id} + below
    {
      assert s in list && s.id != c.id;
      assert s.id in below ==> s in Children(categories, c.id) || ParentKey(s) in below;
    }
    assert forall i, j :: 0 <= i < j < |rest| ==> rest[i].id != rest[j].id;
    forall k | k in categories && k.id in seen + {c.id} + below
      ensures ParentKey(k) == "" || ParentKey(k) in seen + {c.id} + below
    {
      if k.id == c.id {
        SameCategory(categories, k, c);
      }
    }
  }

  lemma {:induction false} VisitAdds(categories: seq<Category>, list: seq<Category>, depth: nat, parent: Id, seen: set<Id>)
    requires Pending(categories, list, parent, seen)
    ensures Adds(categories, list, seen, RowIds(Visit(categories, list, depth, seen)))
    decreases |AllIds(categories) - seen|, |list|
  {
    hide Children, Visit, RowIds, AllIds, Pending, Adds;
    if list == [] {
      NothingAdded(categories, depth, seen);
    } else {
      var c := list[0];
      FirstPending(categories, list, parent, seen);
      VisitCons(categories, list, depth, seen);
      SeenShrinks(categories, c, seen);
      PendingBelow(categories, list, parent, seen);
      VisitAdds(categories, Children(categories, c.id), depth + 1, c.id, seen + {c.id});
      var below := RowIds(Visit(categories, Children(categories, c.id), depth + 1, seen + {c.id}));
      SeenShrinksMore(categories, c, seen, below);
      PendingRest(categories, list, parent, seen, below);
      VisitAdds(categories, list[1..], depth, parent, seen + {c.id} + below);
      var rest := RowIds(Visit(categories, list[1..], depth, seen + {c.id} + below));
      AddsTogether(categories, list, seen, below, rest);
    }
  }

  lemma FirstPending(categories: seq<Category>, list: seq<Category>, parent: Id, seen: set<Id>)
    requires Pending(categories, list, parent, seen) && list != []
    ensures list[0].id !in seen && list[0] in categories && list[0].id != "" && ParentKey(list[0]) == parent
    ensures ProperIds(categories)
    ensures forall c :: c in list ==> c in categories
  {
    assert list[0] in list;
  }

  lemma NothingAdded(categories: seq<Category>, depth: nat, seen: set<Id>)
    ensures Adds(categories, [], seen, RowIds(Visit(categories, [], depth, seen)))
  {
    assert Visit(categories, [], depth, seen) == [];
    assert RowIds([]) == {};
  }

  lemma AddsTogether(categories: seq<Category>, list: seq<Category>, seen: set<Id>, below: set<Id>, rest: set<Id>)
    requires list != [] && list[0] in categories && list[0].id !in seen && ProperIds(categories)
    requires Adds(categories, Children(categories, list[0].id), seen + {list[0].id}, below)
    requires Adds(categories, list[1..], seen + {list[0].id} + below, rest)
    ensures Adds(categories, list, seen, {list[0].id} + below + rest)
  {
    hide Children;
    var c := list[0];
    var ids := {c.id} + below + rest;
    assert forall s :: s in list <==> s == c || s in list[1..];
    forall k | k in categories && k.id in ids
      ensures k in list || ParentKey(k) in ids
    {
      if k.id == c.id {
        SameCategory(categories, k, c);
      }
    }
  }

  // ---- how the rows stand ----

  /** Row j is the parent of row i, and the rows between them lie below it. */
  ghost predicate ParentRow(rows: seq<Row>, i: int, j: int) {
    && 0 <= j < i < |rows|
    && rows[j].depth + 1 == rows[i].depth && rows[j].category.id == ParentKey(rows[i].category)
    && (forall k :: j < k < i ==> rows[k].depth >= rows[i].depth)
  }

  ghost predicate HasParentRow(rows: seq<Row>, i: int) {
    exists j :: ParentRow(rows, i, j)
  }

  /** The layout of a tree in preorder, the siblings `list` at its top. */
  ghost predicate Preorder(categories: seq<Category>, rows: seq<Row>, list: seq<Category>, depth: nat) {
    && (forall r :: r in rows ==> r.category in categories && r.depth >= depth)
    && (forall r :: r in rows && r.depth == depth ==> r.category in list)
    && (forall i :: 0 <= i < |rows| && rows[i].depth > depth ==> HasParentRow(rows, i))
  }

  ghost predicate NoRepeats(rows: seq<Row>) {
    forall i, j :: 0 <= i < j < |rows| ==> rows[i].category.id != rows[j].category.id
  }

  lemma ParentRowShifts(before: seq<Row>, rows: seq<Row>, after: seq<Row>, i: int)
    requires HasParentRow(rows, i)
    ensures HasParentRow(before + rows + after, |before| + i)
  {
    var j :| ParentRow(rows, i, j);
    var all := before + rows + after;
    assert forall k :: 0 <= k < |rows| ==> all[|before| + k] == rows[k];
    assert forall k :: |before| <= k < |before| + |rows| ==> all[k] == rows[k - |before|];
    assert ParentRow(all, |before| + i, |before| + j);
  }

  lemma TopParentRow(c: Category, depth: nat, below: seq<Row>, rest: seq<Row>, i: nat)
    requires i < |below| && below[i].depth == depth + 1 && ParentKey(below[i].category) == c.id
    requires forall r :: r in below ==> r.depth > depth
    ensures HasParentRow([Row(c, depth)] + below + rest, i + 1)
  {
    var all := [Row(c, depth)] + below + rest;
    assert forall k :: 0 < k <= |below| ==> all[k] == below[k - 1] && below[k - 1] in below;
    assert ParentRow(all, i + 1, 0);
  }

  lemma PreorderRow(categories: seq<Category>, list: seq<Category>, depth: nat, c: Category, below: seq<Row>, rest: seq<Row>, i: nat)
    requires Preorder(categories, below, Children(categories, c.id), depth + 1)
    requires Preorder(categories, rest, list, depth)
    requires i < 1 + |below| + |rest| && ([Row(c, depth)] + below + rest)[i].depth > depth
    ensures HasParentRow([Row(c, depth)] + below + rest, i)
  {
    hide Children, HasParentRow;
    var first := [Row(c, depth)];
    var all := first + below + rest;
    if i <= |below| {
      assert all[i] == below[i - 1] && below[i - 1] in below;
      if all[i].depth == depth + 1 {
        TopParentRow(c, depth, below, rest, i - 1);
      } else {
        ParentRowShifts(first, below, rest, i - 1);
      }
    } else {
      assert all[i] == rest[i - 1 - |below|];
      ParentRowShifts(first + below, rest, [], i - 1 - |below|);
      assert first + below + rest + [] == all;
    }
  }

  lemma InJoin(a: Row, below: seq<Row>, rest: seq<Row>)
    ensures forall r :: r in [a] + below + rest <==> r == a || r in below || r in rest
  {
  }

  lemma PreorderJoin(categories: seq<Category>, list: seq<Category>, depth: nat, c: Category, below: seq<Row>, rest: seq<Row>)
    requires list != [] && c == list[0] && c in categories
    requires Preorder(categories, below, Children(categories, c.id), depth + 1)
    requires Preorder(categories, rest, list[1..], depth)
    ensures Preorder(categories, [Row(c, depth)] + below + rest, list, depth)
  {
    hide Children, HasParentRow;
    var all := [Row(c, depth)] + below + rest;
    assert |all| == 1 + |below| + |rest|;
    InJoin(Row(c, depth), below, rest);
    forall i | 0 <= i < |all| && all[i].depth > depth
      ensures HasParentRow(all, i)
    {
      hide Preorder;
      PreorderRow(categories, list[1..], depth, c, below, rest, i);
    }
  }

  lemma NoRepeatsAppend(a: seq<Row>, b: seq<Row>)
    requires NoRepeats(a) && NoRepeats(b) && RowIds(a) !! RowIds(b)
    ensures NoRepeats(a + b)
  {
    forall i, j | 0 <= i < j < |a + b|
      ensures (a + b)[i].category.id != (a + b)[j].category.id
    {
      if i < |a| <= j {
        assert a[i] in a && b[j - |a|] in b;
        assert a[i].category.id in RowIds(a) && b[j - |a|].category.id in RowIds(b);
      }
    }
  }

  lemma OneRow(row: Row)
    ensures NoRepeats([row]) && RowIds([row]) == {row.category.id}
  {
    assert row in [row];
  }

  lemma {:induction false} VisitPreorder(categories: seq<Category>, list: seq<Category>, depth: nat, parent: Id, seen: set<Id>)
    requires Pending(categories, list, parent, seen)
    ensures Preorder(categories, Visit(categories, list, depth, seen), list, depth)
    ensures NoRepeats(Visit(categories, list, depth, seen))
    decreases |AllIds(categories) - seen|, |list|
  {
    hide Children, Visit, RowIds, AllIds, Pending, Adds, Preorder, NoRepeats;
    if list == [] {
      NoRowsPreorder(categories, depth, seen);
    } else {
      var c := list[0];
      FirstPending(categories, list, parent, seen);
      VisitCons(categories, list, depth, seen);
      SeenShrinks(categories, c, seen);
      PendingBelow(categories, list, parent, seen);
      VisitAdds(categories, Children(categories, c.id), depth + 1, c.id, seen + {c.id});
      VisitPreorder(categories, Children(categories, c.id), depth + 1, c.id, seen + {c.id});
      var below := Visit(categories, Children(categories, c.id), depth + 1, seen + {c.id});
      SeenShrinksMore(categories, c, seen, RowIds(below));
      PendingRest(categories, list, parent, seen, RowIds(below));
      VisitAdds(categories, list[1..], depth, parent, seen + {c.id} + RowIds(below));
      VisitPreorder(categories, list[1..], depth, parent, seen + {c.id} + RowIds(below));
      var rest := Visit(categories, list[1..], depth, seen + {c.id} + RowIds(below));
      AddsApart(categories, Children(categories, c.id), seen + {c.id}, RowIds(below));
      AddsApart(categories, list[1..], seen + {c.id} + RowIds(below), RowIds(rest));
      PreorderJoin(categories, list, depth, c, below, rest);
      OneRow(Row(c, depth));
      NoRepeatsAppend([Row(c, depth)], below);
      RowIdsAppend([Row(c, depth)], below);
      NoRepeatsAppend([Row(c, depth)] + below, rest);
    }
  }

  lemma AddsApart(categories: seq<Category>, list: seq<Category>, seen: set<Id>, ids: set<Id>)
    requires Adds(categories, list, seen, ids)
    ensures ids !! seen
  {
  }

  lemma NoRowsPreorder(categories: seq<Category>, depth: nat, seen: set<Id>)
    ensures Preorder(categories, Visit(categories, [], depth, seen), [], depth)
    ensures NoRepeats(Visit(categories, [], depth, seen))
  {
  }

  // ---- siblings ----

  ghost predicate SiblingsInOrder(rows: seq<Row>) {
    forall i, j :: 0 <= i < j < |rows| ==> Kin(rows[i], rows[j])
  }

  lemma RowParents(categories: seq<Category>, rows: seq<Row>, list: seq<Category>, depth: nat, parent: Id, seen: set<Id>)
    requires Pending(categories, list, parent, seen)
    requires Adds(categories, list, seen, RowIds(rows)) && Preorder(categories, rows, list, depth)
    ensures ParentsAmong(rows, list, parent, RowIds(rows)) && parent !in RowIds(rows)
  {
    forall r | r in rows
      ensures (r.category in list && ParentKey(r.category) == parent) || ParentKey(r.category) in RowIds(rows)
    {
      assert r.category.id in RowIds(rows);
    }
    assert forall k :: k in categories ==> k.id != "";
  }

  /** Of two categories with one parent the first has the smaller sort order or, on a tie, no greater name. */
  ghost predicate Kin(a: Row, b: Row) {
    ParentKey(a.category) == ParentKey(b.category) ==>
      && a.category.sortOrder <= b.category.sortOrder
      && (a.category.sortOrder == b.category.sortOrder ==> a.category.nameRank <= b.category.nameRank)
  }

  lemma SiblingsAppend(a: seq<Row>, b: seq<Row>)
    requires SiblingsInOrder(a) && SiblingsInOrder(b)
    requires forall x, y :: x in a && y in b ==> Kin(x, y)
    ensures SiblingsInOrder(a + b)
  {
    forall i, j | 0 <= i < j < |a + b|
      ensures Kin((a + b)[i], (a + b)[j])
    {
      if i < |a| <= j {
        assert a[i] in a && b[j - |a|] in b;
      }
    }
  }

  /** The parents of the rows a visit adds. */
  ghost predicate ParentsAmong(rows: seq<Row>, list: seq<Category>, parent: Id, ids: set<Id>) {
    forall r :: r in rows ==> (r.category in list && ParentKey(r.category) == parent) || ParentKey(r.category) in ids
  }

  lemma SiblingsJoin(list: seq<Category>, depth: nat, parent: Id, c: Category, children: seq<Category>, below: seq<Row>, rest: seq<Row>)
    requires list != [] && c == list[0] && Sorted(list) && ParentKey(c) == parent && parent != c.id
    requires SiblingsInOrder(below) && SiblingsInOrder(rest)
    requires ParentsAmong(below, children, c.id, RowIds(below)) && ParentsAmong(rest, list[1..], parent, RowIds(rest))
    requires parent !in RowIds(below) && parent !in RowIds(rest) && RowIds(rest) !! {c.id} + RowIds(below)
    ensures SiblingsInOrder([Row(c, depth)] + below + rest)
  {
    hide RowIds;
    var first := [Row(c, depth)];
    forall x, y | x in first && y in below
      ensures Kin(x, y)
    {
      assert ParentKey(y.category) in {c.id} + RowIds(below);
    }
    SiblingsAppend(first, below);
    forall x, y | x in first + below && y in rest
      ensures Kin(x, y)
    {
      assert ParentKey(y.category) !in {c.id} + RowIds(below);
      if x in below {
        assert ParentKey(x.category) in {c.id} + RowIds(below);
      } else {
        assert x == Row(c, depth);
        assert y.category in list[1..] ==> NotAfter(c, y.category);
      }
    }
    SiblingsAppend(first + below, rest);
  }

  lemma {:induction false} VisitSiblings(categories: seq<Category>, list: seq<Category>, depth: nat, parent: Id, seen: set<Id>)
    requires Pending(categories, list, parent, seen) && Sorted(list)
    ensures SiblingsInOrder(Visit(categories, list, depth, seen))
    decreases |AllIds(categories) - seen|, |list|
  {
    hide Children, Visit, RowIds, AllIds, Pending, Adds, Preorder, Sorted, SiblingsInOrder, ParentsAmong;
    if list == [] {
      NoSiblings(categories, depth, seen);
    } else {
      var c := list[0];
      FirstPending(categories, list, parent, seen);
      ParentIsOther(categories, list, parent, seen);
      VisitCons(categories, list, depth, seen);
      SeenShrinks(categories, c, seen);
      PendingBelow(categories, list, parent, seen);
      var children := Children(categories, c.id);
      ChildrenSorted(categories, c.id);
      VisitAdds(categories, children, depth + 1, c.id, seen + {c.id});
      VisitPreorder(categories, children, depth + 1, c.id, seen + {c.id});
      VisitSiblings(categories, children, depth + 1, c.id, seen + {c.id});
      var below := Visit(categories, children, depth + 1, seen + {c.id});
      RowParents(categories, below, children, depth + 1, c.id, seen + {c.id});
      SeenShrinksMore(categories, c, seen, RowIds(below));
      PendingRest(categories, list, parent, seen, RowIds(below));
      var later := seen + {c.id} + RowIds(below);
      VisitAdds(categories, list[1..], depth, parent, later);
      VisitPreorder(categories, list[1..], depth, parent, later);
      TailSorted(list);
      VisitSiblings(categories, list[1..], depth, parent, later);
      var rest := Visit(categories, list[1..], depth, later);
      RowParents(categories, rest, list[1..], depth, parent, later);
      AddsApart(categories, children, seen + {c.id}, RowIds(below));
      AddsApart(categories, list[1..], later, RowIds(rest));
      ParentNotBelow(categories, list, parent, seen, children, RowIds(below));
      SiblingsJoin(list, depth, parent, c, children, below, rest);
    }
  }

  lemma ParentIsOther(categories: seq<Category>, list: seq<Category>, parent: Id, seen: set<Id>)
    requires Pending(categories, list, parent, seen) && list != []
    ensures parent != list[0].id
  {
    assert list[0] in list;
    assert forall k :: k in categories ==> k.id != "";
  }

  lemma ParentNotBelow(categories: seq<Category>, list: seq<Category>, parent: Id, seen: set<Id>, children: seq<Category>, below: set<Id>)
    requires Pending(categories, list, parent, seen) && list != []
    requires Adds(categories, children, seen + {list[0].id}, below)
    ensures parent !in below
  {
    assert forall k :: k in categories ==> k.id != "";
  }

  lemma TailSorted(list: seq<Category>)
    requires list != [] && Sorted(list)
    ensures Sorted(list[1..])
  {
  }

  lemma NoSiblings(categories: seq<Category>, depth: nat, seen: set<Id>)
    ensures SiblingsInOrder(Visit(categories, [], depth, seen))
  {
  }

  // ---- the whole list ----

  function Unseen(categories: seq<Category>, seen: set<Id>): seq<Row> {
    if categories == [] then []
    else
      var n := |categories| - 1;
      Unseen(categories[..n], seen) + if categories[n].id in seen then [] else [Row(categories[n], 0)]
  }

  /** The rows reached from the roots. */
  function TreeRows(categories: seq<Category>): seq<Row> {
    Visit(categories, Children(categories, ""), 0, {})
  }

  function AllRows(categories: seq<Category>): seq<Row> {
    TreeRows(categories) + Unseen(categories, RowIds(TreeRows(categories)))
  }

  method CategoryTreeRows(categories: seq<Category>) returns (rows: seq<Row>)
    ensures rows == AllRows(categories)
  {
    hide Visit, Children, RowIds;
    var walk := new TreeWalk(categories);
    walk.VisitParent("", 0);
    var ordered := walk.ordered;
    ghost var tree := TreeRows(categories);
    assert [] + tree == tree && {} + RowIds(tree) == RowIds(tree);
    for i := 0 to |categories|
      invariant ordered == tree + Unseen(categories[..i], RowIds(tree))
    {
      assert categories[..i + 1][..i] == categories[..i];
      if categories[i].id !in walk.seen {
        ordered := ordered + [Row(categories[i], 0)];
      }
    }
    assert categories[..|categories|] == categories;
    rows := ordered;
  }

  lemma RootsPending(categories: seq<Category>)
    requires ProperIds(categories)
    ensures Pending(categories, Children(categories, ""), "", {})
  {
    hide Children;
    ChildrenDistinct(categories, "");
  }

  function Listed(rows: seq<Row>): seq<Category> {
    if rows == [] then [] else Listed(rows[..|rows| - 1]) + [rows[|rows| - 1].category]
  }

  lemma {:induction false} ListedOnce(rows: seq<Row>, c: Category)
    requires NoRepeats(rows)
    ensures multiset(Listed(rows))[c] == if HasRow(rows, c) then 1 else 0
    decreases |rows|
  {
    if rows != [] {
      var n := |rows| - 1;
      var init := rows[..n];
      ListedOnce(init, c);
      assert rows == init + [rows[n]];
      if HasRow(init, c) {
        var r :| r in init && r.category == c;
        assert r in rows;
      }
      if rows[n].category == c {
        assert rows[n] in rows;
      }
    }
  }

  ghost predicate HasRow(rows: seq<Row>, c: Category) {
    exists r :: r in rows && r.category == c
  }

  lemma UnseenSnoc(categories: seq<Category>, seen: set<Id>, c: Category)
    ensures Unseen(categories + [c], seen) == Unseen(categories, seen) + if c.id in seen then [] else [Row(c, 0)]
  {
    assert (categories + [c])[..|categories|] == categories;
  }

  lemma {:induction false} UnseenListed(categories: seq<Category>, seen: set<Id>, c: Category)
    ensures multiset(Listed(Unseen(categories, seen)))[c] == if c.id in seen then 0 else multiset(categories)[c]
    decreases |categories|
  {
    hide Listed;
    if categories == [] {
      NothingListed(seen);
    } else {
      hide Unseen;
      var n := |categories| - 1;
      var init, last := categories[..n], categories[n];
      var rows := Unseen(init, seen);
      UnseenListed(init, seen, c);
      assert categories == init + [last];
      UnseenSnoc(init, seen, last);
      if last.id in seen {
        assert rows + [] == rows;
      } else {
        ListedSnoc(rows, Row(last, 0));
        CountSnoc(Listed(rows), last, c);
      }
      CountSnoc(init, last, c);
    }
  }

  lemma NothingListed(seen: set<Id>)
    ensures Listed(Unseen([], seen)) == []
  {
  }

  lemma CountSnoc(categories: seq<Category>, last: Category, c: Category)
    ensures multiset(categories + [last])[c] == multiset(categories)[c] + if last == c then 1 else 0
  {
  }

  lemma ListedSnoc(rows: seq<Row>, row: Row)
    ensures Listed(rows + [row]) == Listed(rows) + [row.category]
  {
    assert (rows + [row])[..|rows|] == rows;
  }

  lemma {:induction false} ListedAppend(a: seq<Row>, b: seq<Row>)
    ensures Listed(a + b) == Listed(a) + Listed(b)
    decreases |b|
  {
    if b == [] {
      assert a + b == a;
    } else {
      var n := |b| - 1;
      ListedAppend(a, b[..n]);
      assert (a + b)[..|a| + n] == a + b[..n];
    }
  }

  /** Every category is listed exactly once, whatever the parents are: none is lost to a cycle or a missing parent. */
  lemma RowsArePermutation(categories: seq<Category>)
    requires ProperIds(categories)
    ensures multiset(Listed(AllRows(categories))) == multiset(categories)
  {
    hide Visit, Children, Listed, Unseen, Pending;
    var tree := TreeRows(categories);
    var others := Unseen(categories, RowIds(tree));
    RootsPending(categories);
    VisitPreorder(categories, Children(categories, ""), 0, "", {});
    ListedAppend(tree, others);
    forall c
      ensures multiset(Listed(AllRows(categories)))[c] == multiset(categories)[c]
    {
      ListedOnce(tree, c);
      UnseenListed(categories, RowIds(tree), c);
      ProperOnce(categories, c);
      RowOf(categories, tree, c);
    }
  }

  lemma RowOf(categories: seq<Category>, rows: seq<Row>, c: Category)
    requires ProperIds(categories) && forall r :: r in rows ==> r.category in categories
    ensures HasRow(rows, c) <==> c in categories && c.id in RowIds(rows)
  {
    if c in categories && c.id in RowIds(rows) {
      var r :| r in rows && r.category.id == c.id;
      SameCategory(categories, r.category, c);
    }
  }

  /** The rows from the roots stand in preorder: each row follows its parent, one level deeper, with only rows of the
      same family in between; siblings stand by sortOrder, then name. */
  lemma TreeInPreorder(categories: seq<Category>)
    requires ProperIds(categories)
    ensures var rows := TreeRows(categories);
      && Preorder(categories, rows, Children(categories, ""), 0) && NoRepeats(rows)
      && SiblingsInOrder(rows)
  {
    hide Visit, Children, Preorder, NoRepeats, SiblingsInOrder, Pending;
    RootsPending(categories);
    ChildrenSorted(categories, "");
    VisitPreorder(categories, Children(categories, ""), 0, "", {});
    VisitSiblings(categories, Children(categories, ""), 0, "", {});
  }

  // ---- depth is the distance from a root ----

  /** A chain of `depth` parents leads to a root. */
  ghost predicate AtDepth(categories: seq<Category>, c: Category, depth: nat)
    decreases depth
  {
    c in categories &&
    if depth == 0 then ParentKey(c) == ""
    else exists p :: p in categories && p.id == ParentKey(c) && AtDepth(categories, p, depth - 1)
  }

  lemma {:induction false} OneDepth(categories: seq<Category>, c: Category, d: nat, e: nat)
    requires ProperIds(categories) && AtDepth(categories, c, d) && AtDepth(categories, c, e)
    ensures d == e
    decreases d
  {
    assert forall k :: k in categories ==> k.id != "";
    if d > 0 && e > 0 {
      var p :| p in categories && p.id == ParentKey(c) && AtDepth(categories, p, d - 1);
      var q :| q in categories && q.id == ParentKey(c) && AtDepth(categories, q, e - 1);
      SameCategory(categories, p, q);
      OneDepth(categories, p, d - 1, e - 1);
    }
  }

  lemma OneDeeper(categories: seq<Category>, c: Category, p: Category, depth: nat)
    requires c in categories && p.id == ParentKey(c) && AtDepth(categories, p, depth)
    ensures AtDepth(categories, c, depth + 1)
  {
  }

  /** A top row is a root, any other has a parent row before it. */
  lemma RowPlace(categories: seq<Category>, rows: seq<Row>, i: nat) returns (j: int)
    requires Preorder(categories, rows, Children(categories, ""), 0) && i < |rows|
    ensures rows[i].category in categories
    ensures if rows[i].depth == 0 then ParentKey(rows[i].category) == "" else ParentRow(rows, i, j)
  {
    assert rows[i] in rows;
    if rows[i].depth > 0 {
      assert HasParentRow(rows, i);
      j :| ParentRow(rows, i, j);
    } else {
      j := 0;
    }
  }

  lemma {:induction false} RowAtDepth(categories: seq<Category>, i: nat)
    requires ProperIds(categories) && i < |TreeRows(categories)|
    ensures AtDepth(categories, TreeRows(categories)[i].category, TreeRows(categories)[i].depth)
    decreases i
  {
    hide Visit, Children, NoRepeats, SiblingsInOrder, ProperIds, TreeRows, Preorder, HasParentRow;
    var rows := TreeRows(categories);
    TreeInPreorder(categories);
    var j := RowPlace(categories, rows, i);
    if rows[i].depth > 0 {
      RowAtDepth(categories, j);
      OneDeeper(categories, rows[i].category, rows[j].category, rows[j].depth);
    }
  }

  lemma {:induction false} DepthIsReached(categories: seq<Category>, c: Category, depth: nat)
    requires ProperIds(categories) && AtDepth(categories, c, depth)
    ensures c.id in RowIds(TreeRows(categories))
    decreases depth
  {
    hide Visit, Children, RowIds, Pending;
    RootsPending(categories);
    VisitAdds(categories, Children(categories, ""), 0, "", {});
    if depth > 0 {
      var p :| p in categories && p.id == ParentKey(c) && AtDepth(categories, p, depth - 1);
      DepthIsReached(categories, p, depth - 1);
    }
  }

  /** A category stands at a depth of the tree if and only if that many parents lead from it to a root. */
  lemma DepthIff(categories: seq<Category>, c: Category, depth: nat)
    requires ProperIds(categories)
    ensures Row(c, depth) in TreeRows(categories) <==> AtDepth(categories, c, depth)
  {
    hide Visit, Children;
    var rows := TreeRows(categories);
    if Row(c, depth) in rows {
      var i :| 0 <= i < |rows| && rows[i] == Row(c, depth);
      RowAtDepth(categories, i);
    }
    if AtDepth(categories, c, depth) {
      DepthIsReached(categories, c, depth);
      var r :| r in rows && r.category.id == c.id;
      var i :| 0 <= i < |rows| && rows[i] == r;
      RowAtDepth(categories, i);
      SameCategory(categories, r.category, c);
      OneDepth(categories, c, depth, r.depth);
    }
  }

  // ---- the label ----

  /** categories.find by id. */
  function Find(categories: seq<Category>, id: Id): (found: Option<Category>)
    ensures found.Some? ==> found.value in categories && found.value.id == id
    ensures found.None? ==> forall c :: c in categories ==> c.id != id
  {
    if categories == [] then None else if categories[0].id == id then Some(categories[0]) else Find(categories[1..], id)
  }

  /** The next ancestor: none at a root, behind a missing parent, or when a cycle closes. */
  function NextUp(categories: seq<Category>, c: Category, seen: set<Id>): (up: Option<Category>)
    ensures up.Some? ==> up.value in categories && up.value.id == ParentKey(c) != "" && up.value.id !in seen
  {
    if ParentKey(c) == "" then None
    else
      var parent := Find(categories, ParentKey(c));
      if parent.None? || parent.value.id in seen then None else parent
  }

  /** A category with its ancestors, the topmost first. */
  function Path(categories: seq<Category>, c: Category, seen: set<Id>): (path: seq<Category>)
    ensures path != []
    decreases |AllIds(categories) - seen|
  {
    var up := NextUp(categories, c, seen);
    if up.None? then [c]
    else
      SeenShrinks(categories, up.value, seen);
      Path(categories, up.value, seen + {up.value.id}) + [c]
  }

  function Names(path: seq<Category>): seq<string> {
    if path == [] then [] else [path[0].name] + Names(path[1..])
  }

  function Label(categories: seq<Category>, category: Category): string {
    Csv.Join(Names(Path(categories, category, {category.id})), " › ")
  }

  lemma {:induction false} NamesAppend(a: seq<Category>, b: seq<Category>)
    ensures Names(a + b) == Names(a) + Names(b)
    decreases |a|
  {
    if a == [] {
      assert a + b == b;
    } else {
      NamesAppend(a[1..], b);
      assert (a + b)[1..] == a[1..] + b;
    }
  }

  /** The climb ends for every parent relation: each round adds an id to `seen`. */
  method CategoryLabel(categories: seq<Category>, category: Category) returns (text: string)
    ensures text == Label(categories, category)
  {
    hide Path, Names, AllIds, Csv.Join, Find;
    var names := [category.name];
    var seen := {category.id};
    var last := category;
    ghost var below: seq<Category> := [];
    var going := true;
    PathUnfolds(categories, last, seen);
    OneName(category);
    assert [category] + below == [category] && Path(categories, last, seen) + below == Path(categories, last, seen);
    while going
      invariant names == Names([last] + below)
      invariant Path(categories, category, {category.id})
        == (if going then Path(categories, last, seen) else [last]) + below
      decreases going, |AllIds(categories) - seen|
    {
      PathUnfolds(categories, last, seen);
      var parentId := ParentKey(last);
      if parentId == "" {
        going := false;
      } else {
        var parent := Find(categories, parentId);
        if parent.None? || parent.value.id in seen {
          going := false;
        } else {
          SeenShrinks(categories, parent.value, seen);
          OneName(parent.value);
          NamesAppend([parent.value], [last] + below);
          names := [parent.value.name] + names;
          seen := seen + {parent.value.id};
          RegroupPath(Path(categories, parent.value, seen), last, below);
          assert [parent.value] + ([last] + below) == [parent.value] + [last] + below;
          below := [last] + below;
          last := parent.value;
        }
      }
    }
    text := Csv.Join(names, " › ");
  }

  lemma RegroupPath(above: seq<Category>, last: Category, below: seq<Category>)
    ensures above + [last] + below == above + ([last] + below)
  {
  }

  lemma OneName(c: Category)
    ensures Names([c]) == [c.name]
  {
    assert [c][1..] == [];
  }

  lemma PathUnfolds(categories: seq<Category>, c: Category, seen: set<Id>)
    ensures var up := NextUp(categories, c, seen);
      Path(categories, c, seen) ==
        if up.None? then [c] else Path(categories, up.value, seen + {up.value.id}) + [c]
  {
  }

  /** A label names each ancestor once: every category on the path is the parent of the next, no id repeats, and the
      top is a root, has no parent in the list, or closes a cycle. */
  lemma {:induction false} PathClimbs(categories: seq<Category>, c: Category, seen: set<Id>)
    requires c.id in seen
    ensures var path := Path(categories, c, seen);
      && path[|path| - 1] == c
      && (forall i :: 0 <= i < |path| - 1 ==> path[i].id == ParentKey(path[i + 1]) && path[i].id !in seen && path[i] in categories)
      && (forall i, j :: 0 <= i < j < |path| ==> path[i].id != path[j].id)
      && (ParentKey(path[0]) == "" || Find(categories, ParentKey(path[0])).None?
          || ParentKey(path[0]) in seen || exists i :: 0 <= i < |path| && path[i].id == ParentKey(path[0]))
    decreases |AllIds(categories) - seen|
  {
    hide AllIds;
    var up := NextUp(categories, c, seen);
    PathUnfolds(categories, c, seen);
    if up.Some? {
      SeenShrinks(categories, up.value, seen);
      var above := Path(categories, up.value, seen + {up.value.id});
      PathClimbs(categories, up.value, seen + {up.value.id});
      assert above[|above| - 1] == up.value;
      assert forall i :: 0 <= i < |above| ==> (above + [c])[i] == above[i];
    }
  }

  /** None of the ids seen belongs to a category nearer to a root. */
  ghost predicate SeenDeeper(categories: seq<Category>, seen: set<Id>, depth: nat) {
    forall k, e: nat :: k in categories && k.id in seen && AtDepth(categories, k, e) ==> e >= depth
  }

  /** The label of a category in the tree has one name for each level down to its depth. */
  lemma {:induction false} PathLength(categories: seq<Category>, c: Category, depth: nat, seen: set<Id>)
    requires ProperIds(categories) && AtDepth(categories, c, depth) && SeenDeeper(categories, seen, depth)
    ensures |Path(categories, c, seen)| == depth + 1 && ParentKey(Path(categories, c, seen)[0]) == ""
    decreases depth
  {
    hide Path, AllIds;
    PathUnfolds(categories, c, seen);
    if depth > 0 {
      var p :| p in categories && p.id == ParentKey(c) && AtDepth(categories, p, depth - 1);
      assert p.id != "";
      var found := Find(categories, ParentKey(c));
      SameCategory(categories, found.value, p);
      assert p.id !in seen;
      DeeperAbove(categories, p, depth - 1, seen);
      PathLength(categories, p, depth - 1, seen + {p.id});
    }
  }

  lemma DeeperAbove(categories: seq<Category>, p: Category, depth: nat, seen: set<Id>)
    requires ProperIds(categories) && AtDepth(categories, p, depth) && SeenDeeper(categories, seen, depth + 1)
    ensures SeenDeeper(categories, seen + {p.id}, depth)
  {
    assert p in categories;
    hide AtDepth;
    forall k, e: nat | k in categories && k.id in seen + {p.id} && AtDepth(categories, k, e)
      ensures e >= depth
    {
      if k.id == p.id {
        SameCategory(categories, k, p);
        OneDepth(categories, p, depth, e);
      }
    }
  }

  lemma StartDeeper(categories: seq<Category>, c: Category, depth: nat)
    requires ProperIds(categories) && AtDepth(categories, c, depth)
    ensures SeenDeeper(categories, {c.id}, depth)
  {
    assert c in categories;
    hide AtDepth;
    forall k, e: nat | k in categories && k.id in {c.id} && AtDepth(categories, k, e)
      ensures e >= depth
    {
      SameCategory(categories, k, c);
      OneDepth(categories, c, depth, e);
    }
  }

  /** Which ids were seen on the way up does not matter, as long as none is nearer to a root. */
  lemma {:induction false} SeenDoesNotMatter(categories: seq<Category>, c: Category, depth: nat, seen: set<Id>, other: set<Id>)
    requires ProperIds(categories) && AtDepth(categories, c, depth)
    requires SeenDeeper(categories, seen, depth) && SeenDeeper(categories, other, depth)
    ensures Path(categories, c, seen) == Path(categories, c, other)
    decreases depth
  {
    hide Path, AllIds;
    PathUnfolds(categories, c, seen);
    PathUnfolds(categories, c, other);
    if depth > 0 {
      var p :| p in categories && p.id == ParentKey(c) && AtDepth(categories, p, depth - 1);
      assert p.id != "";
      SameCategory(categories, Find(categories, ParentKey(c)).value, p);
      assert p.id !in seen && p.id !in other;
      DeeperAbove(categories, p, depth - 1, seen);
      DeeperAbove(categories, p, depth - 1, other);
      SeenDoesNotMatter(categories, p, depth - 1, seen + {p.id}, other + {p.id});
    }
  }

  lemma {:induction false} JoinSnoc(parts: seq<string>, last: string, separator: string)
    requires parts != []
    ensures Csv.Join(parts + [last], separator) == Csv.Join(parts, separator) + separator + last
    decreases |parts|
  {
    var all := parts + [last];
    if |parts| == 1 {
      assert all[1..] == [last];
    } else {
      assert all[1..] == parts[1..] + [last];
      JoinSnoc(parts[1..], last, separator);
    }
  }

  /** A root is labelled by its name, any other category of the tree by its parent's label and its own name. */
  lemma LabelBelowParent(categories: seq<Category>, c: Category, p: Category, depth: nat)
    requires ProperIds(categories) && c in categories
    ensures ParentKey(c) == "" ==> Label(categories, c) == c.name
    ensures p in categories && p.id == ParentKey(c) && AtDepth(categories, p, depth) ==>
      Label(categories, c) == Label(categories, p) + " › " + c.name
  {
    hide Path, AllIds, Names, Csv.Join, AtDepth, SeenDeeper;
    PathUnfolds(categories, c, {c.id});
    OneName(c);
    OneJoined(c.name);
    if p in categories && p.id == ParentKey(c) && AtDepth(categories, p, depth) {
      OneDeeper(categories, c, p, depth);
      StartDeeper(categories, c, depth + 1);
      ParentIsNext(categories, c, p, depth);
      DeeperAbove(categories, p, depth, {c.id});
      StartDeeper(categories, p, depth);
      SeenDoesNotMatter(categories, p, depth, {c.id} + {p.id}, {p.id});
      var above := Path(categories, p, {p.id});
      NamesAppend(above, [c]);
      NamesNotEmpty(above);
      JoinSnoc(Names(above), c.name, " › ");
    }
  }

  lemma ParentIsNext(categories: seq<Category>, c: Category, p: Category, depth: nat)
    requires ProperIds(categories) && p in categories && p.id == ParentKey(c)
    requires AtDepth(categories, p, depth) && SeenDeeper(categories, {c.id}, depth + 1)
    ensures NextUp(categories, c, {c.id}) == Some(p)
  {
    hide AtDepth;
    assert p.id != "";
    SameCategory(categories, Find(categories, ParentKey(c)).value, p);
    assert p.id !in {c.id};
  }

  lemma OneJoined(text: string)
    ensures Csv.Join([text], " › ") == text
  {
  }

  lemma NamesNotEmpty(path: seq<Category>)
    requires path != []
    ensures Names(path) != []
  {
  }

  lemma {:induction false} PathIsDepth(categories: seq<Category>, c: Category, seen: set<Id>)
    requires c in categories && ParentKey(Path(categories, c, seen)[0]) == ""
    ensures AtDepth(categories, c, |Path(categories, c, seen)| - 1)
    decreases |AllIds(categories) - seen|
  {
    hide AllIds, Path;
    PathUnfolds(categories, c, seen);
    var up := NextUp(categories, c, seen);
    if up.Some? {
      SeenShrinks(categories, up.value, seen);
      PathIsDepth(categories, up.value, seen + {up.value.id});
    }
  }

  /** The label and the list agree: a category stands at a depth of the tree if and only if its label has that many
      ancestors, the first of them a root. */
  lemma LabelMatchesDepth(categories: seq<Category>, c: Category, depth: nat)
    requires ProperIds(categories) && c in categories
    ensures Row(c, depth) in TreeRows(categories) <==>
      |Path(categories, c, {c.id})| == depth + 1 && ParentKey(Path(categories, c, {c.id})[0]) == ""
  {
    hide Path, TreeRows, AtDepth, SeenDeeper;
    DepthIff(categories, c, depth);
    if AtDepth(categories, c, depth) {
      StartDeeper(categories, c, depth);
      PathLength(categories, c, depth, {c.id});
    }
    if ParentKey(Path(categories, c, {c.id})[0]) == "" {
      PathIsDepth(categories, c, {c.id});
    }
  }
}
