/** The prompt handlers as pure functions over the prompt list: create, soft-delete and
    permanent delete, restore, emptying the trash, re-filing by drag and drop, and the
    prompt side of a cascading category delete. */
module PromptLifecycle {
  import opened Types
  import opened Seqs
  import CategoryTree

  predicate HasId(id: string, p: PromptEntry) { p.id == id }
  predicate LacksId(id: string, p: PromptEntry) { p.id != id }
  predicate InCategories(ids: seq<string>, p: PromptEntry) { p.categoryId in ids }
  predicate OutsideTrash(p: PromptEntry) { p.categoryId != TrashCategoryId }

  function WithId(id: string): PromptEntry -> bool { p => HasId(id, p) }
  function WithoutId(id: string): PromptEntry -> bool { p => LacksId(id, p) }
  function FiledUnder(ids: seq<string>): PromptEntry -> bool { p => InCategories(ids, p) }
  function NotTrashed(): PromptEntry -> bool { p => OutsideTrash(p) }

  /** Every prompt `pick` accepts is re-filed under `target`; every field other than
      `categoryId`, every other prompt, and the order are unchanged. */
  function Reassign(prompts: seq<PromptEntry>, pick: PromptEntry -> bool, target: string): (r: seq<PromptEntry>)
    ensures |r| == |prompts|
    ensures forall i :: 0 <= i < |prompts| ==>
      r[i] == if pick(prompts[i]) then prompts[i].(categoryId := target) else prompts[i]
  {
    if prompts == [] then []
    else
      var first := if pick(prompts[0]) then prompts[0].(categoryId := target) else prompts[0];
      [first] + Reassign(prompts[1..], pick, target)
  }

  /** A second re-filing of the same prompts overrides the first completely. */
  lemma ReassignOverrides(prompts: seq<PromptEntry>, id: string, first: string, second: string)
    ensures Reassign(Reassign(prompts, WithId(id), first), WithId(id), second) == Reassign(prompts, WithId(id), second)
  {
    var a := Reassign(Reassign(prompts, WithId(id), first), WithId(id), second);
    var b := Reassign(prompts, WithId(id), second);
    assert forall i :: 0 <= i < |prompts| ==> a[i] == b[i];
  }

  /** `p` occurs in `prompts` at a position before which no prompt has identifier `id`. */
  ghost predicate IsFirstWithId(prompts: seq<PromptEntry>, id: string, p: PromptEntry) {
    exists i :: 0 <= i < |prompts| && prompts[i] == p && (forall j :: 0 <= j < i ==> prompts[j].id != id)
  }

  /** The first prompt with identifier `id`, if any. */
  function Find(prompts: seq<PromptEntry>, id: string): (r: Option<PromptEntry>)
    ensures r.None? <==> forall p :: p in prompts ==> p.id != id
    ensures r.Some? ==> r.value.id == id && IsFirstWithId(prompts, id, r.value)
  {
    if prompts == [] then None
    else if prompts[0].id == id then Some(prompts[0])
    else
      var r := Find(prompts[1..], id);
      assert r.Some? ==> IsFirstWithId(prompts, id, r.value) by {
        if r.Some? {
          var k :| 0 <= k < |prompts[1..]| && prompts[1..][k] == r.value &&
            forall j :: 0 <= j < k ==> prompts[1..][j].id != id;
          assert prompts[k + 1] == r.value;
          assert forall j :: 0 <= j < k + 1 ==> prompts[j].id != id by {
            forall j | 0 <= j < k + 1 ensures prompts[j].id != id {
              if j > 0 { assert prompts[j] == prompts[1..][j - 1]; }
            }
          }
        }
      }
      r
  }

  /** Soft delete: the prompts with identifier `id` move to the trash. */
  function SoftDelete(prompts: seq<PromptEntry>, id: string): seq<PromptEntry> {
    Reassign(prompts, WithId(id), TrashCategoryId)
  }

  /** Permanent delete: the prompts with identifier `id` are removed, the rest keep their order. */
  function Erase(prompts: seq<PromptEntry>, id: string): (r: seq<PromptEntry>)
    ensures forall p :: p in r <==> p in prompts && p.id != id
    ensures forall p :: p in prompts && p.id != id ==> multiset(r)[p] == multiset(prompts)[p]
  {
    Filter(prompts, WithoutId(id))
  }

  /** The delete button of a prompt card. What happens depends on the first prompt with that
      identifier: none leaves the list alone; one outside the trash is soft-deleted; one in the
      trash is erased once the user confirms. */
  function DeletePrompt(prompts: seq<PromptEntry>, id: string, confirmed: bool): (r: seq<PromptEntry>)
    ensures (forall p :: p in prompts ==> p.id != id) ==> r == prompts
    ensures Find(prompts, id).Some? && Find(prompts, id).value.categoryId != TrashCategoryId ==>
      r == SoftDelete(prompts, id) && |r| == |prompts|
    ensures Find(prompts, id).Some? && Find(prompts, id).value.categoryId == TrashCategoryId ==>
      r == if confirmed then Erase(prompts, id) else prompts
  {
    match Find(prompts, id)
    case None => prompts
    case Some(p) =>
      if p.categoryId == TrashCategoryId then
        if confirmed then Erase(prompts, id) else prompts
      else SoftDelete(prompts, id)
  }

  /** Soft delete keeps the record: the list has the same length and identifiers, and every
      prompt with identifier `id` is now in the trash. */
  lemma SoftDeleteKeepsRecords(prompts: seq<PromptEntry>, id: string)
    ensures |SoftDelete(prompts, id)| == |prompts|
    ensures forall i :: 0 <= i < |prompts| ==> SoftDelete(prompts, id)[i].id == prompts[i].id
    ensures forall i :: 0 <= i < |prompts| && prompts[i].id == id ==> SoftDelete(prompts, id)[i].categoryId == TrashCategoryId
  {
  }

  /** Erasing the prompts with an identifier ignores where they had been filed. */
  lemma {:induction false} EraseIgnoresCategory(prompts: seq<PromptEntry>, id: string, target: string)
    ensures Erase(Reassign(prompts, WithId(id), target), id) == Erase(prompts, id)
  {
    if prompts != [] {
      var moved := Reassign(prompts, WithId(id), target);
      assert moved[1..] == Reassign(prompts[1..], WithId(id), target);
      EraseIgnoresCategory(prompts[1..], id, target);
    }
  }

  /** After a soft delete, the first prompt with that identifier is in the trash. */
  lemma SoftDeleteFindsTrashed(prompts: seq<PromptEntry>, id: string)
    requires exists p :: p in prompts && p.id == id
    ensures Find(SoftDelete(prompts, id), id).Some?
    ensures Find(SoftDelete(prompts, id), id).value.categoryId == TrashCategoryId
  {
    var once := SoftDelete(prompts, id);
    var p :| p in prompts && p.id == id;
    var i := IndexOf(prompts, p);
    assert once[i].id == id && once[i] in once;
    var q := Find(once, id).value;
    var k :| 0 <= k < |once| && once[k] == q && (forall j :: 0 <= j < k ==> once[j].id != id);
    assert prompts[k].id == once[k].id == id;
    assert once[k] == prompts[k].(categoryId := TrashCategoryId);
  }

  /** Pressing delete twice on a prompt, confirming the second time, always leaves exactly the
      prompts with other identifiers, in their original order. */
  lemma DeleteTwiceErases(prompts: seq<PromptEntry>, id: string, firstConfirmed: bool)
    ensures DeletePrompt(DeletePrompt(prompts, id, firstConfirmed), id, true) == Erase(prompts, id)
  {
    var once := DeletePrompt(prompts, id, firstConfirmed);
    var found := Find(prompts, id);
    if found.None? {
      FilterKeepsAll(prompts, WithoutId(id));
    } else if found.value.categoryId == TrashCategoryId {
      if firstConfirmed {
        assert Find(once, id).None?;
        FilterKeepsAll(once, WithoutId(id));
      }
    } else {
      assert once == SoftDelete(prompts, id);
      SoftDeleteFindsTrashed(prompts, id);
      EraseIgnoresCategory(prompts, id, TrashCategoryId);
    }
  }

  /** Where a restored prompt goes: the first category in collection order, or the empty id
      when there is no category. */
  function RestoreTarget(cats: seq<Category>): (target: string)
    ensures cats != [] ==> target == cats[0].id
    ensures cats == [] ==> target == ""
  {
    if |cats| > 0 then cats[0].id else ""
  }

  /** Restore: the prompts with identifier `id` are re-filed under the restore target. */
  function Restore(prompts: seq<PromptEntry>, cats: seq<Category>, id: string): seq<PromptEntry> {
    Reassign(prompts, WithId(id), RestoreTarget(cats))
  }

  /** Restore does not remember the category a prompt had before it was trashed: trashing and
      restoring ends in the same list as restoring alone. */
  lemma RestoreForgetsOrigin(prompts: seq<PromptEntry>, cats: seq<Category>, id: string)
    ensures Restore(SoftDelete(prompts, id), cats, id) == Restore(prompts, cats, id)
    ensures forall i :: 0 <= i < |prompts| && prompts[i].id == id ==>
      Restore(SoftDelete(prompts, id), cats, id)[i].categoryId == RestoreTarget(cats)
  {
    ReassignOverrides(prompts, id, TrashCategoryId, RestoreTarget(cats));
  }

  /** A prompt filed in the first category comes back where it was: trash then restore is the
      identity when the prompt already lived in the first category. */
  lemma TrashRestoreRoundTrip(prompts: seq<PromptEntry>, cats: seq<Category>, id: string)
    requires cats != []
    requires forall p :: p in prompts && p.id == id ==> p.categoryId == cats[0].id
    ensures Restore(SoftDelete(prompts, id), cats, id) == prompts
  {
    RestoreForgetsOrigin(prompts, cats, id);
    var r := Restore(prompts, cats, id);
    forall i | 0 <= i < |prompts| ensures r[i] == prompts[i] {
      assert prompts[i] in prompts;
    }
  }

  /** Emptying the trash: once confirmed, exactly the trashed prompts are removed. */
  function EmptyTrash(prompts: seq<PromptEntry>, confirmed: bool): (r: seq<PromptEntry>)
    ensures !confirmed ==> r == prompts
    ensures confirmed ==> forall p :: p in r <==> p in prompts && p.categoryId != TrashCategoryId
    ensures confirmed ==> forall p :: p in prompts && p.categoryId != TrashCategoryId ==>
      multiset(r)[p] == multiset(prompts)[p]
  {
    if confirmed then Filter(prompts, NotTrashed()) else prompts
  }

  /** The survivors of emptying the trash keep their relative order, and a second emptying
      finds nothing left to remove. */
  lemma EmptyTrashOrderAndIdempotence(a: seq<PromptEntry>, b: seq<PromptEntry>)
    ensures EmptyTrash(a + b, true) == EmptyTrash(a, true) + EmptyTrash(b, true)
    ensures EmptyTrash(EmptyTrash(a, true), true) == EmptyTrash(a, true)
  {
    FilterAppend(a, b, NotTrashed());
    FilterKeepsAll(EmptyTrash(a, true), NotTrashed());
  }

  /** A drop of the dragged prompt `promptId` on category `target`. Dropping on the "all"
      pseudo-category, or with nothing dragged, changes nothing. */
  function Drop(prompts: seq<PromptEntry>, promptId: string, target: string): (r: seq<PromptEntry>)
    ensures target == AllCategoryId || promptId == "" ==> r == prompts
    ensures |r| == |prompts|
    ensures target != AllCategoryId && promptId != "" ==> forall i :: 0 <= i < |prompts| ==>
      r[i] == if prompts[i].id == promptId then prompts[i].(categoryId := target) else prompts[i]
  {
    if target == AllCategoryId || promptId == "" then prompts
    else Reassign(prompts, WithId(promptId), target)
  }

  /** The record `handleAddPrompt` builds from the form, a fresh identifier and the clock. */
  function NewEntry(title: string, content: string, image: string, categoryId: string, freshId: string, now: int): PromptEntry {
    PromptEntry(freshId, title, content, categoryId, Some(image), now)
  }

  /** Adding a prompt: an empty title, content or category declines; otherwise the new entry
      comes first and the old prompts follow unchanged. The category is not checked to exist. */
  function AddPrompt(prompts: seq<PromptEntry>, title: string, content: string, image: string,
                     categoryId: string, freshId: string, now: int): (r: seq<PromptEntry>)
    ensures title == "" || content == "" || categoryId == "" ==> r == prompts
    ensures title != "" && content != "" && categoryId != "" ==>
      |r| == |prompts| + 1 && r[1..] == prompts &&
      r[0].id == freshId && r[0].title == title && r[0].content == content &&
      r[0].categoryId == categoryId && r[0].createdAt == now
  {
    if title == "" || content == "" || categoryId == "" then prompts
    else [NewEntry(title, content, image, categoryId, freshId, now)] + prompts
  }

  /** The category the add form starts with: the active category, or the restore target while
      one of the pseudo-categories is shown. */
  function DefaultCategory(active: string, cats: seq<Category>): (r: string)
    ensures active != AllCategoryId && active != TrashCategoryId ==> r == active
    ensures active == AllCategoryId || active == TrashCategoryId ==> r == RestoreTarget(cats)
    ensures (cats == [] || (cats[0].id != AllCategoryId && cats[0].id != TrashCategoryId)) ==>
      r != AllCategoryId && r != TrashCategoryId
  {
    if active == AllCategoryId || active == TrashCategoryId then RestoreTarget(cats) else active
  }

  /** The prompt side of a category delete: prompts filed under a deleted id go to the trash. */
  function MoveToTrash(prompts: seq<PromptEntry>, ids: seq<string>): seq<PromptEntry> {
    Reassign(prompts, FiledUnder(ids), TrashCategoryId)
  }

  /** Deleting category `id` trashes exactly the prompts filed under it or under one of its
      transitive children; every other prompt, every other field and the count are unchanged. */
  lemma CategoryDeleteTrashesSubtree(cats: seq<Category>, id: string, depth: nat, prompts: seq<PromptEntry>)
    requires CategoryTree.IdsToDelete(cats, id, depth).Some?
    ensures |MoveToTrash(prompts, CategoryTree.IdsToDelete(cats, id, depth).value)| == |prompts|
    ensures forall i :: 0 <= i < |prompts| ==>
      MoveToTrash(prompts, CategoryTree.IdsToDelete(cats, id, depth).value)[i] ==
        if prompts[i].categoryId == id || CategoryTree.Descends(cats, id, prompts[i].categoryId)
        then prompts[i].(categoryId := TrashCategoryId) else prompts[i]
  {
    CategoryTree.IdsToDeleteIsSubtree(cats, id, depth);
  }

  /** The example of a soft delete followed by a restore: prompt `p1` in the only category `w1`
      goes to the trash and comes back to `w1`. */
  lemma WorkExample()
    ensures var p1 := PromptEntry("p1", "Test", "text", "w1", None, 0);
      var cats := [Category("w1", "Work", None, None)];
      SoftDelete([p1], "p1") == [p1.(categoryId := TrashCategoryId)] &&
      Restore(SoftDelete([p1], "p1"), cats, "p1") == [p1]
  {
    var p1 := PromptEntry("p1", "Test", "text", "w1", None, 0);
    var cats := [Category("w1", "Work", None, None)];
    assert SoftDelete([p1], "p1")[0] == p1.(categoryId := TrashCategoryId);
    TrashRestoreRoundTrip([p1], cats, "p1");
  }
}
