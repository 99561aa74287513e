/** The state of the prompt manager's main component and its event handlers. Each handler
    replaces the collections with a value computed by the pure modules; the user's answer to
    a confirmation dialog, fresh identifiers and the clock are parameters. */
module App {
  import opened Types
  import CategoryTree
  import PromptLifecycle
  import Backup
  import Projection

  class Store {
    var categories: seq<Category>
    var prompts: seq<PromptEntry>
    /** The selected view: "all", "trash" or a category id. */
    var activeCategoryId: string
    /** A parsed backup awaiting the user's choice of import mode. */
    var importData: Option<Backup.ImportData>

    /** The initial state: the saved collections when present, else the four default
        collections and no prompts; the "all" view is selected. */
    constructor (savedCategories: Option<seq<Category>>, savedPrompts: Option<seq<PromptEntry>>)
      ensures categories == if savedCategories.Some? then savedCategories.value else DefaultCategories
      ensures prompts == if savedPrompts.Some? then savedPrompts.value else []
      ensures activeCategoryId == AllCategoryId && importData == None
    {
      categories := if savedCategories.Some? then savedCategories.value else DefaultCategories;
      prompts := if savedPrompts.Some? then savedPrompts.value else [];
      activeCategoryId := AllCategoryId;
      importData := None;
    }

    /** `handleAddCategory`: appends a new category (a sub-folder of `parentId` when given)
        under the fresh identifier and selects it. */
    method AddCategory(parentId: Option<string>, freshId: string) returns (newId: string)
      modifies this
      ensures newId == freshId && activeCategoryId == freshId
      ensures categories == old(categories) + [CategoryTree.NewCategory(freshId, parentId)]
      ensures categories[|categories| - 1].name == CategoryTree.DefaultName(parentId)
      ensures prompts == old(prompts) && importData == old(importData)
    {
      categories := categories + [CategoryTree.NewCategory(freshId, parentId)];
      activeCategoryId := freshId;
      newId := freshId;
    }

    /** `handleRenameCategory`: a blank name changes nothing; any other name, untrimmed,
        replaces the name of the records with identifier `id`. */
    method RenameCategory(id: string, newName: string)
      modifies this
      ensures categories == CategoryTree.RenameIfNotBlank(old(categories), id, newName)
      ensures |categories| == |old(categories)|
      ensures prompts == old(prompts) && activeCategoryId == old(activeCategoryId) && importData == old(importData)
    {
      categories := CategoryTree.RenameIfNotBlank(categories, id, newName);
    }

    /** `handleDeleteCategory`: refused while there is at most one category, and without the
        user's confirmation. Otherwise the category, all its transitive children and their
        prompts go: the categories are removed, the prompts moved to the trash, and a view
        showing a removed category falls back to "all". The child search has no cycle guard;
        `stackDepth` is the number of nested searches the engine's stack admits, and a search
        that needs more throws a `RangeError` before anything is updated. */
    method DeleteCategory(id: string, confirmed: bool, stackDepth: nat)
      modifies this
      ensures |old(categories)| <= 1 || !confirmed || CategoryTree.IdsToDelete(old(categories), id, stackDepth).None? ==>
        categories == old(categories) && prompts == old(prompts) && activeCategoryId == old(activeCategoryId)
      ensures |old(categories)| > 1 && confirmed && CategoryTree.IdsToDelete(old(categories), id, stackDepth).Some? ==>
        var ids := CategoryTree.IdsToDelete(old(categories), id, stackDepth).value;
        && categories == CategoryTree.RemoveIds(old(categories), ids)
        && prompts == PromptLifecycle.MoveToTrash(old(prompts), ids)
        && activeCategoryId == (if old(activeCategoryId) in ids then AllCategoryId else old(activeCategoryId))
      ensures |old(categories)| > 1 && confirmed && CategoryTree.IdsToDelete(old(categories), id, stackDepth).Some? ==>
        (forall c :: c in categories <==> c in old(categories) && c.id != id && !CategoryTree.Descends(old(categories), id, c.id))
        && |prompts| == |old(prompts)|
        && (activeCategoryId == AllCategoryId <==>
             old(activeCategoryId) == id || CategoryTree.Descends(old(categories), id, old(activeCategoryId)) || old(activeCategoryId) == AllCategoryId)
      ensures |old(categories)| > 1 && confirmed && CategoryTree.ReachesCycle(old(categories), id) ==>
        categories == old(categories) && prompts == old(prompts) && activeCategoryId == old(activeCategoryId)
      ensures importData == old(importData)
    {
      if |categories| <= 1 {
        return;
      }
      if confirmed {
        if CategoryTree.ReachesCycle(categories, id) {
          CategoryTree.CycleOverflows(categories, id, stackDepth);
        }
        var found := CategoryTree.IdsToDelete(categories, id, stackDepth);
        if found.None? {
          return;
        }
        var ids := found.value;
        CategoryTree.DeleteKeepsOthers(categories, id, stackDepth);
        CategoryTree.IdsToDeleteIsSubtree(categories, id, stackDepth);
        var remaining := CategoryTree.RemoveIds(categories, ids);
        prompts := PromptLifecycle.MoveToTrash(prompts, ids);
        categories := remaining;
        if activeCategoryId in ids {
          activeCategoryId := AllCategoryId;
        }
      }
    }

    /** The snapshot part of `handleExportBackup`: version, both collections in full (trashed
        prompts included) and the export time. */
    method ExportBackup(exportedAt: string) returns (snapshot: Backup.Snapshot)
      ensures snapshot == Backup.ExportSnapshot(categories, prompts, exportedAt)
      ensures snapshot.version == Backup.BackupVersion && snapshot.categories == categories && snapshot.prompts == prompts
    {
      snapshot := Backup.ExportSnapshot(categories, prompts, exportedAt);
    }

    /** The acceptance part of `handleImportFileSelect`: a document with both collections is
        held for `FinalizeImport`; anything else leaves the state untouched. */
    method SelectImportFile(doc: Option<Backup.BackupDocument>)
      modifies this
      ensures Backup.ParseImport(doc).Some? ==> importData == Backup.ParseImport(doc)
      ensures Backup.ParseImport(doc).None? ==> importData == old(importData)
      ensures categories == old(categories) && prompts == old(prompts) && activeCategoryId == old(activeCategoryId)
    {
      var parsed := Backup.ParseImport(doc);
      if parsed.Some? {
        importData := parsed;
      }
    }

    /** `finalizeImport`: without pending data nothing happens; otherwise the pending data is
        overwritten onto or merged into the store, and consumed. */
    method FinalizeImport(mode: Backup.ImportMode)
      modifies this
      ensures old(importData).None? ==>
        categories == old(categories) && prompts == old(prompts) && importData == old(importData)
      ensures old(importData).Some? && mode == Backup.Overwrite ==>
        categories == old(importData).value.categories && prompts == old(importData).value.prompts
      ensures old(importData).Some? && mode == Backup.Merge ==>
        categories == Backup.MergeById(old(categories), old(importData).value.categories, CategoryKey) &&
        prompts == Backup.MergeById(old(prompts), old(importData).value.prompts, PromptKey)
      ensures old(importData).Some? ==> importData == None
      ensures activeCategoryId == old(activeCategoryId)
    {
      if importData.None? {
        return;
      }
      var result := Backup.Reconcile(Backup.ImportData(categories, prompts), importData.value, mode);
      categories := result.categories;
      prompts := result.prompts;
      importData := None;
    }

    /** The re-filing part of `handleDrop`. */
    method Drop(promptId: string, targetCategoryId: string)
      modifies this
      ensures prompts == PromptLifecycle.Drop(old(prompts), promptId, targetCategoryId)
      ensures categories == old(categories) && activeCategoryId == old(activeCategoryId) && importData == old(importData)
    {
      prompts := PromptLifecycle.Drop(prompts, promptId, targetCategoryId);
    }

    /** The category `handleOpenAddModal` preselects in the add form. */
    method DefaultPromptCategory() returns (categoryId: string)
      ensures categoryId == PromptLifecycle.DefaultCategory(activeCategoryId, categories)
      ensures activeCategoryId != AllCategoryId && activeCategoryId != TrashCategoryId ==> categoryId == activeCategoryId
    {
      categoryId := PromptLifecycle.DefaultCategory(activeCategoryId, categories);
    }

    /** `handleAddPrompt` with the form's fields, a fresh identifier and the current time. */
    method AddPrompt(title: string, content: string, image: string, categoryId: string, freshId: string, now: int)
      modifies this
      ensures prompts == PromptLifecycle.AddPrompt(old(prompts), title, content, image, categoryId, freshId, now)
      ensures title != "" && content != "" && categoryId != "" ==> prompts[1..] == old(prompts) && prompts[0].id == freshId
      ensures categories == old(categories) && activeCategoryId == old(activeCategoryId) && importData == old(importData)
    {
      prompts := PromptLifecycle.AddPrompt(prompts, title, content, image, categoryId, freshId, now);
    }

    /** `handleDeletePrompt`, with the user's answer should a confirmation be asked. */
    method DeletePrompt(id: string, confirmed: bool)
      modifies this
      ensures prompts == PromptLifecycle.DeletePrompt(old(prompts), id, confirmed)
      ensures categories == old(categories) && activeCategoryId == old(activeCategoryId) && importData == old(importData)
    {
      prompts := PromptLifecycle.DeletePrompt(prompts, id, confirmed);
    }

    /** `handleRestorePrompt`: the prompt returns to the first category, whatever it was in. */
    method RestorePrompt(id: string)
      modifies this
      ensures prompts == PromptLifecycle.Restore(old(prompts), categories, id)
      ensures categories == old(categories) && activeCategoryId == old(activeCategoryId) && importData == old(importData)
    {
      prompts := PromptLifecycle.Restore(prompts, categories, id);
    }

    /** `handleEmptyTrash`, with the user's answer to the confirmation. */
    method EmptyTrash(confirmed: bool)
      modifies this
      ensures prompts == PromptLifecycle.EmptyTrash(old(prompts), confirmed)
      ensures categories == old(categories) && activeCategoryId == old(activeCategoryId) && importData == old(importData)
    {
      prompts := PromptLifecycle.EmptyTrash(prompts, confirmed);
    }

    /** `filteredAndSortedPrompts` for the current prompts and view, the search text `query`
        and the sort option `sort`. */
    function FilteredAndSorted(query: string, sort: SortOption, lower: string -> string,
                               compare: (string, string) -> int): (r: seq<PromptEntry>)
      reads this
      ensures multiset(r) <= multiset(prompts)
      ensures forall p :: p in r <==>
        p in prompts && Projection.InView(activeCategoryId, p) && Projection.MatchesSearch(p, query, lower)
      ensures activeCategoryId == AllCategoryId ==> forall p :: p in r ==> p.categoryId != TrashCategoryId
      ensures activeCategoryId == TrashCategoryId ==> forall p :: p in r ==> p.categoryId == TrashCategoryId
      ensures sort == Newest ==> forall i, j :: 0 <= i < j < |r| ==> r[i].createdAt >= r[j].createdAt
      ensures sort == Oldest ==> forall i, j :: 0 <= i < j < |r| ==> r[i].createdAt <= r[j].createdAt
    {
      Projection.VisibleIsSelection(prompts, activeCategoryId, query, sort, lower, compare);
      Projection.VisibleRespectsView(prompts, activeCategoryId, query, sort, lower, compare);
      Projection.VisibleSortedByCreation(prompts, activeCategoryId, query, sort, lower, compare);
      Projection.Visible(prompts, activeCategoryId, query, sort, lower, compare)
    }
  }

  /** Exporting, then overwriting the store with that backup, reproduces the store. */
  method ExportThenOverwrite(store: Store, exportedAt: string)
    modifies store
    ensures store.categories == old(store.categories) && store.prompts == old(store.prompts)
    ensures store.importData == None
  {
    var snapshot := store.ExportBackup(exportedAt);
    store.SelectImportFile(Some(Backup.AsDocument(snapshot)));
    store.FinalizeImport(Backup.Overwrite);
  }
}
