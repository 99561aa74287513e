/** The category tree: categories form a forest through their `parentId` links. This module
    holds the pure part of the category handlers: creation, renaming, and the transitive
    child search that a cascading delete removes. */
module CategoryTree {
  import opened Types
  import opened Seqs
  import Text

  /** The default name of a new category. JavaScript truthiness makes an empty parent id count
      as no parent here, although that empty id is still stored as the parent. */
  function DefaultName(parentId: Option<string>): (name: string)
    ensures name == "New Sub-folder" <==> parentId.Some? && parentId.value != ""
    ensures name == "New Sub-folder" || name == "New Collection"
  {
    if parentId.Some? && parentId.value != "" then "New Sub-folder" else "New Collection"
  }

  /** The record `handleAddCategory` creates for a fresh identifier. */
  function NewCategory(freshId: string, parentId: Option<string>): Category {
    Category(freshId, DefaultName(parentId), None, parentId)
  }

  /** `freshId` is used neither as an id nor as a parent reference by `cats` or by the new parent. */
  predicate IsFreshId(cats: seq<Category>, freshId: string, parentId: Option<string>) {
    parentId != Some(freshId) &&
    forall c :: c in cats ==> c.id != freshId && c.parentId != Some(freshId)
  }

  /** Every parent link points to a strictly higher rank, so following parent links from any
      category always ends. Such a collection is `RankedFrom` every category, so every delete
      completes on a large enough stack. */
  ghost predicate Ranked(cats: seq<Category>, rank: string -> nat) {
    forall c :: c in cats && c.parentId.Some? ==> rank(c.id) < rank(c.parentId.value)
  }

  /** Appending a category under a fresh identifier keeps the parent links well founded. */
  lemma AddKeepsRanked(cats: seq<Category>, rank: string -> nat, freshId: string, parentId: Option<string>)
    requires Ranked(cats, rank) && IsFreshId(cats, freshId, parentId)
    ensures Ranked(cats + [NewCategory(freshId, parentId)], (x: string) => if x == freshId then 0 else rank(x) + 1)
  {
    var rank' := (x: string) => if x == freshId then 0 else rank(x) + 1;
    var cats' := cats + [NewCategory(freshId, parentId)];
    forall c | c in cats' && c.parentId.Some? ensures rank'(c.id) < rank'(c.parentId.value) {
      if c in cats {
        assert rank(c.id) < rank(c.parentId.value);
      }
    }
  }

  /** `c` is a direct child of `parentId`. */
  predicate IsChildOf(parentId: string, c: Category) {
    c.parentId == Some(parentId)
  }

  function ChildOf(parentId: string): Category -> bool {
    c => IsChildOf(parentId, c)
  }

  /** The direct children of `parentId`, in collection order. */
  function Children(cats: seq<Category>, parentId: string): (r: seq<Category>)
    ensures forall c :: c in r <==> c in cats && c.parentId == Some(parentId)
  {
    Filter(cats, ChildOf(parentId))
  }

  /** The ids of all transitive children of `parentId`: each direct child's id followed by its
      own transitive children, child after child. The search guards against nothing, so it is
      modelled with the number `depth` of nested calls the JavaScript engine's stack still
      admits: `None` is the `RangeError` thrown once the recursion goes deeper than that. */
  function ChildIds(cats: seq<Category>, parentId: string, depth: nat): (r: Option<seq<string>>)
    ensures depth == 0 ==> r.None?
    decreases depth, 1, 0
  {
    if depth == 0 then None else Gather(cats, parentId, Children(cats, parentId), depth - 1)
  }

  /** The accumulation over the direct children `children` of `parentId`, one stack frame
      below the call that found them; it fails as soon as one child's search fails. */
  function Gather(cats: seq<Category>, parentId: string, children: seq<Category>, depth: nat): (r: Option<seq<string>>)
    ensures children == [] ==> r == Some([])
    decreases depth, 2, |children|
  {
    if children == [] then Some([])
    else
      match ChildIds(cats, children[0].id, depth)
      case None => None
      case Some(below) =>
        match Gather(cats, parentId, children[1..], depth)
        case None => None
        case Some(after) => Some([children[0].id] + below + after)
  }

  /** `path` is a chain of categories of `cats`, each the child of the one before it and the
      first a child of `ancestor`. */
  ghost predicate Chain(cats: seq<Category>, ancestor: string, path: seq<Category>)
    decreases |path|
  {
    |path| > 0 && path[0] in cats && path[0].parentId == Some(ancestor) &&
    (|path| > 1 ==> Chain(cats, path[0].id, path[1..]))
  }

  /** `x` is reached from `ancestor` by following child links one or more times. */
  ghost predicate Descends(cats: seq<Category>, ancestor: string, x: string) {
    exists path: seq<Category> :: Chain(cats, ancestor, path) && path[|path| - 1].id == x
  }

  /** `x` is `root` itself or one of its transitive children. */
  ghost predicate Reaches(cats: seq<Category>, root: string, x: string) {
    x == root || Descends(cats, root, x)
  }

  /** Following child links from `root` runs into a cycle. */
  ghost predicate ReachesCycle(cats: seq<Category>, root: string) {
    exists x :: Reaches(cats, root, x) && Descends(cats, x, x)
  }

  /** Every parent link below `root` points to a strictly higher rank, so following child
      links from `root` always ends; links elsewhere in the collection are unconstrained. */
  ghost predicate RankedFrom(cats: seq<Category>, root: string, rank: string -> nat) {
    forall c :: c in cats && c.parentId.Some? && Reaches(cats, root, c.parentId.value) ==>
      rank(c.id) < rank(c.parentId.value)
  }

  /** A child of a category reached from `root` is reached from `root` too. */
  lemma ReachesChild(cats: seq<Category>, root: string, c: Category)
    requires c in cats && c.parentId.Some? && Reaches(cats, root, c.parentId.value)
    ensures Descends(cats, root, c.id)
  {
    if c.parentId.value == root {
      assert Chain(cats, root, [c]);
    } else {
      var path: seq<Category> :| Chain(cats, root, path) && path[|path| - 1].id == c.parentId.value;
      ChainSnoc(cats, root, path, c);
      assert (path + [c])[|path + [c]| - 1] == c;
    }
  }

  lemma {:induction false} ChainSnoc(cats: seq<Category>, ancestor: string, path: seq<Category>, c: Category)
    requires Chain(cats, ancestor, path) && c in cats && c.parentId == Some(path[|path| - 1].id)
    ensures Chain(cats, ancestor, path + [c])
    decreases |path|
  {
    assert (path + [c])[0] == path[0];
    if |path| == 1 {
      assert (path + [c])[1..] == [c];
    } else {
      ChainSnoc(cats, path[0].id, path[1..], c);
      assert (path + [c])[1..] == path[1..] + [c];
    }
  }

  /** What `root` reaches through a direct child `c`, it reaches itself. */
  lemma ReachesThroughChild(cats: seq<Category>, root: string, c: Category, x: string)
    requires c in cats && c.parentId == Some(root) && Reaches(cats, c.id, x)
    ensures Descends(cats, root, x)
  {
    if x == c.id {
      assert Chain(cats, root, [c]);
    } else {
      var path: seq<Category> :| Chain(cats, c.id, path) && path[|path| - 1].id == x;
      var longer := [c] + path;
      assert longer[1..] == path;
      assert Chain(cats, root, longer);
    }
  }

  /** The first step of a descent is a direct child from which the rest is reached. */
  lemma FirstStep(cats: seq<Category>, root: string, x: string) returns (c: Category)
    requires Descends(cats, root, x)
    ensures c in cats && c.parentId == Some(root) && Reaches(cats, c.id, x)
  {
    var path: seq<Category> :| Chain(cats, root, path) && path[|path| - 1].id == x;
    c := path[0];
    if |path| > 1 {
      assert path[1..][|path[1..]| - 1].id == x;
    }
  }

  lemma {:induction false} GatherSound(cats: seq<Category>, parentId: string, children: seq<Category>, depth: nat, x: string)
    requires forall c :: c in children ==> c in cats && c.parentId == Some(parentId)
    requires Gather(cats, parentId, children, depth).Some? && x in Gather(cats, parentId, children, depth).value
    ensures Descends(cats, parentId, x)
    decreases depth, 2, |children|
  {
    var c := children[0];
    assert c in children;
    var below := ChildIds(cats, c.id, depth).value;
    var after := Gather(cats, parentId, children[1..], depth).value;
    assert Gather(cats, parentId, children, depth).value == [c.id] + below + after;
    if x == c.id {
      assert Chain(cats, parentId, [c]);
    } else if x in below {
      ChildIdsSound(cats, c.id, depth, x);
      ReachesThroughChild(cats, parentId, c, x);
    } else {
      GatherSound(cats, parentId, children[1..], depth, x);
    }
  }

  /** Every id a completed child search returns is a transitive child. */
  lemma {:induction false} ChildIdsSound(cats: seq<Category>, parentId: string, depth: nat, x: string)
    requires ChildIds(cats, parentId, depth).Some? && x in ChildIds(cats, parentId, depth).value
    ensures Descends(cats, parentId, x)
    decreases depth, 1, 0
  {
    GatherSound(cats, parentId, Children(cats, parentId), depth - 1, x);
  }

  lemma {:induction false} GatherIncludes(cats: seq<Category>, parentId: string, children: seq<Category>, depth: nat, c: Category)
    requires c in children && Gather(cats, parentId, children, depth).Some?
    ensures ChildIds(cats, c.id, depth).Some?
    ensures c.id in Gather(cats, parentId, children, depth).value
    ensures forall x :: x in ChildIds(cats, c.id, depth).value ==> x in Gather(cats, parentId, children, depth).value
    decreases |children|
  {
    if children[0] != c {
      GatherIncludes(cats, parentId, children[1..], depth, c);
    }
  }

  /** Every transitive child is returned by a completed child search. */
  lemma {:induction false} ChildIdsComplete(cats: seq<Category>, parentId: string, depth: nat, path: seq<Category>)
    requires ChildIds(cats, parentId, depth).Some? && Chain(cats, parentId, path)
    ensures path[|path| - 1].id in ChildIds(cats, parentId, depth).value
    decreases |path|
  {
    var c := path[0];
    var children := Children(cats, parentId);
    assert c in children;
    GatherIncludes(cats, parentId, children, depth - 1, c);
    if |path| > 1 {
      ChildIdsComplete(cats, c.id, depth - 1, path[1..]);
      assert path[1..][|path[1..]| - 1] == path[|path| - 1];
    }
  }

  /** A completed child search returns exactly the transitive children of `parentId`. */
  lemma ChildIdsAreDescendants(cats: seq<Category>, parentId: string, depth: nat)
    requires ChildIds(cats, parentId, depth).Some?
    ensures forall x :: x in ChildIds(cats, parentId, depth).value <==> Descends(cats, parentId, x)
  {
    forall x ensures x in ChildIds(cats, parentId, depth).value <==> Descends(cats, parentId, x) {
      if x in ChildIds(cats, parentId, depth).value {
        ChildIdsSound(cats, parentId, depth, x);
      }
      if Descends(cats, parentId, x) {
        var path: seq<Category> :| Chain(cats, parentId, path) && path[|path| - 1].id == x;
        ChildIdsComplete(cats, parentId, depth, path);
      }
    }
  }

  lemma {:induction false} GatherCompletes(cats: seq<Category>, root: string, parentId: string, children: seq<Category>, depth: nat, rank: string -> nat)
    requires RankedFrom(cats, root, rank) && Reaches(cats, root, parentId)
    requires forall c :: c in children ==> c in cats && c.parentId == Some(parentId)
    requires depth >= rank(parentId)
    ensures Gather(cats, parentId, children, depth).Some?
    decreases depth, 2, |children|
  {
    if children != [] {
      var c := children[0];
      assert c in children;
      assert rank(c.id) < rank(parentId);
      ReachesChild(cats, root, c);
      ChildIdsCompletes(cats, root, c.id, depth, rank);
      GatherCompletes(cats, root, parentId, children[1..], depth, rank);
    }
  }

  /** Below a well-founded part of the tree the search completes once the stack admits more
      nested calls than the rank of the starting category. */
  lemma {:induction false} ChildIdsCompletes(cats: seq<Category>, root: string, parentId: string, depth: nat, rank: string -> nat)
    requires RankedFrom(cats, root, rank) && Reaches(cats, root, parentId)
    requires depth > rank(parentId)
    ensures ChildIds(cats, parentId, depth).Some?
    decreases depth, 1, 0
  {
    GatherCompletes(cats, root, parentId, Children(cats, parentId), depth - 1, rank);
  }

  lemma {:induction false} GatherOverflows(cats: seq<Category>, parentId: string, children: seq<Category>, depth: nat, c: Category)
    requires c in children && ChildIds(cats, c.id, depth).None?
    ensures Gather(cats, parentId, children, depth).None?
    decreases |children|
  {
    if children[0] != c {
      GatherOverflows(cats, parentId, children[1..], depth, c);
    }
  }

  /** A cycle the search runs into exhausts any stack: the search never completes. */
  lemma {:induction false} CycleOverflows(cats: seq<Category>, root: string, depth: nat)
    requires ReachesCycle(cats, root)
    ensures ChildIds(cats, root, depth).None?
    decreases depth
  {
    if depth > 0 {
      var x :| Reaches(cats, root, x) && Descends(cats, x, x);
      var c := FirstStep(cats, root, x);
      assert Reaches(cats, c.id, x) && Descends(cats, x, x);
      CycleOverflows(cats, c.id, depth - 1);
      assert c in Children(cats, root);
      GatherOverflows(cats, root, Children(cats, root), depth - 1, c);
    }
  }

  /** The ids a delete of `id` removes: `id` itself followed by its transitive children, or
      `None` when the child search overflows the stack. */
  function IdsToDelete(cats: seq<Category>, id: string, depth: nat): (r: Option<seq<string>>)
    ensures r.Some? <==> ChildIds(cats, id, depth).Some?
    ensures r.Some? ==> |r.value| > 0 && r.value[0] == id
  {
    match ChildIds(cats, id, depth)
    case None => None
    case Some(below) => Some([id] + below)
  }

  /** The deleted set is `id` together with everything below it. */
  lemma IdsToDeleteIsSubtree(cats: seq<Category>, id: string, depth: nat)
    requires IdsToDelete(cats, id, depth).Some?
    ensures forall x :: x in IdsToDelete(cats, id, depth).value <==> x == id || Descends(cats, id, x)
  {
    ChildIdsAreDescendants(cats, id, depth);
  }

  predicate IsUnlisted(ids: seq<string>, c: Category) {
    c.id !in ids
  }

  function Unlisted(ids: seq<string>): Category -> bool {
    c => IsUnlisted(ids, c)
  }

  /** The categories whose id is not in `ids`, in their original order. */
  function RemoveIds(cats: seq<Category>, ids: seq<string>): (r: seq<Category>)
    ensures forall c :: c in r <==> c in cats && c.id !in ids
    ensures forall c :: c in cats && c.id !in ids ==> multiset(r)[c] == multiset(cats)[c]
  {
    Filter(cats, Unlisted(ids))
  }

  /** A delete keeps exactly the categories outside the deleted subtree, each as often as
      before, in their original order (the removal distributes over any split of the list). */
  lemma DeleteKeepsOthers(cats: seq<Category>, id: string, depth: nat)
    requires IdsToDelete(cats, id, depth).Some?
    ensures forall c :: c in RemoveIds(cats, IdsToDelete(cats, id, depth).value) <==>
      c in cats && c.id != id && !Descends(cats, id, c.id)
    ensures forall c :: c in cats && c.id != id && !Descends(cats, id, c.id) ==>
      multiset(RemoveIds(cats, IdsToDelete(cats, id, depth).value))[c] == multiset(cats)[c]
    ensures forall a, b :: cats == a + b ==>
      RemoveIds(cats, IdsToDelete(cats, id, depth).value) ==
      RemoveIds(a, IdsToDelete(cats, id, depth).value) + RemoveIds(b, IdsToDelete(cats, id, depth).value)
  {
    var ids := IdsToDelete(cats, id, depth).value;
    IdsToDeleteIsSubtree(cats, id, depth);
    forall a, b | cats == a + b ensures RemoveIds(cats, ids) == RemoveIds(a, ids) + RemoveIds(b, ids) {
      FilterAppend(a, b, Unlisted(ids));
    }
  }

  /** A category that no other category names as parent has no transitive children, so
      deleting it removes it alone (one nested call suffices). */
  lemma LeafDeleteRemovesOnlyItself(cats: seq<Category>, id: string, depth: nat)
    requires forall c :: c in cats ==> c.parentId != Some(id)
    requires depth > 0
    ensures IdsToDelete(cats, id, depth) == Some([id])
  {
    FilterKeepsNone(cats, ChildOf(id));
    assert ChildIds(cats, id, depth) == Some([]);
    assert [id] + [] == [id];
  }

  /** Removing categories keeps the parent links well founded. */
  lemma RemoveKeepsRanked(cats: seq<Category>, ids: seq<string>, rank: string -> nat)
    requires Ranked(cats, rank)
    ensures Ranked(RemoveIds(cats, ids), rank)
  {
  }

  /** `cats` with every record whose id is `id` renamed to `name`; nothing else changes. */
  function Rename(cats: seq<Category>, id: string, name: string): (r: seq<Category>)
    ensures |r| == |cats|
    ensures forall i :: 0 <= i < |cats| ==>
      r[i] == if cats[i].id == id then cats[i].(name := name) else cats[i]
  {
    if cats == [] then []
    else [if cats[0].id == id then cats[0].(name := name) else cats[0]] + Rename(cats[1..], id, name)
  }

  /** What a rename leaves behind: nothing changes for a name that trims to the empty string;
      otherwise the untrimmed name is stored. */
  function RenameIfNotBlank(cats: seq<Category>, id: string, name: string): (r: seq<Category>)
    ensures Text.IsBlank(name) ==> r == cats
    ensures !Text.IsBlank(name) ==> r == Rename(cats, id, name)
  {
    Text.TrimEmptyIffBlank(name);
    if Text.Trim(name) == "" then cats else Rename(cats, id, name)
  }

  /** Renaming changes no id and no parent link, so the tree and its ranks are unchanged. */
  lemma RenameKeepsShape(cats: seq<Category>, id: string, name: string, rank: string -> nat)
    requires Ranked(cats, rank)
    ensures Ranked(Rename(cats, id, name), rank)
    ensures forall i :: 0 <= i < |cats| ==>
      Rename(cats, id, name)[i].id == cats[i].id && Rename(cats, id, name)[i].parentId == cats[i].parentId
  {
    var r := Rename(cats, id, name);
    forall c | c in r && c.parentId.Some? ensures rank(c.id) < rank(c.parentId.value) {
      var i :| 0 <= i < |r| && r[i] == c;
      assert cats[i] in cats;
    }
  }

  /** Following the code, not the "last root" rule: with two categories, deleting the root
      `w1` removes its child `w2` too and leaves no category at all. */
  lemma DeleteCanEmptyCollection()
    ensures var cats := [Category("w1", "Work", None, None), Category("w2", "Sub", None, Some("w1"))];
      |cats| > 1 && IdsToDelete(cats, "w1", 2) == Some(["w1", "w2"]) &&
      RemoveIds(cats, ["w1", "w2"]) == []
  {
    var w1 := Category("w1", "Work", None, None);
    var w2 := Category("w2", "Sub", None, Some("w1"));
    var cats := [w1, w2];
    assert cats == [w1] + [w2];
    assert Children(cats, "w1") == [w2] by {
      FilterAppend([w1], [w2], ChildOf("w1"));
    }
    assert Children(cats, "w2") == [] by {
      FilterAppend([w1], [w2], ChildOf("w2"));
    }
    assert ChildIds(cats, "w2", 1) == Some([]);
    assert [w2][1..] == [];
    assert ["w2"] + [] + [] == ["w2"];
    assert Gather(cats, "w1", [w2], 1) == Some(["w2"]);
    assert ["w1"] + ["w2"] == ["w1", "w2"];
    FilterAppend([w1], [w2], Unlisted(["w1", "w2"]));
  }

  /** A cycle the child search never reaches does not matter: with `b` and `c` naming each
      other as parent, deleting the root `a` removes `a` alone and keeps the cycle. */
  lemma UnreachedCycleIsHarmless()
    ensures var a := Category("a", "A", None, None);
      var b := Category("b", "B", None, Some("c"));
      var c := Category("c", "C", None, Some("b"));
      IdsToDelete([a, b, c], "a", 1) == Some(["a"]) &&
      RemoveIds([a, b, c], ["a"]) == [b, c]
  {
    var a := Category("a", "A", None, None);
    var b := Category("b", "B", None, Some("c"));
    var c := Category("c", "C", None, Some("b"));
    var cats := [a, b, c];
    FilterKeepsNone(cats, ChildOf("a"));
    assert ChildIds(cats, "a", 1) == Some([]);
    assert ["a"] + [] == ["a"];
    assert RemoveIds(cats, ["a"]) == [b, c] by {
      assert cats == [a] + [b, c];
      FilterAppend([a], [b, c], Unlisted(["a"]));
      FilterKeepsNone([a], Unlisted(["a"]));
      FilterKeepsAll([b, c], Unlisted(["a"]));
    }
  }

  /** A cycle the child search does reach overflows the stack whatever its size: with `a` and
      `b` naming each other as parent, deleting `a` never completes. */
  lemma ReachedCycleOverflows(depth: nat)
    ensures var a := Category("a", "A", None, Some("b"));
      var b := Category("b", "B", None, Some("a"));
      IdsToDelete([a, b], "a", depth).None?
  {
    var a := Category("a", "A", None, Some("b"));
    var b := Category("b", "B", None, Some("a"));
    var cats := [a, b];
    assert Chain(cats, "a", [b, a]) by {
      assert [b, a][1..] == [a];
      assert Chain(cats, "b", [a]);
    }
    assert Descends(cats, "a", "a");
    assert Reaches(cats, "a", "a");
    CycleOverflows(cats, "a", depth);
  }
}
