# Prompt manager store — a Dafny model

This project models the data core of a browser-resident prompt organizer. Text snippets
("prompts") are filed into nested folders ("categories"). Prompts can be soft-deleted to a
trash pseudo-category, restored, erased, and re-filed by drag and drop. The whole data set can
be exported as a backup and imported again by overwriting or by merging. The main pane shows a
projection of the prompts: the selected view, narrowed by a search text, in a chosen order.

All of this lives in the event handlers of the single component in `App.tsx`. The model keeps
that shape:

- `App.Store` is a class holding the component state the handlers replace: `categories`,
  `prompts`, `activeCategoryId` and the pending `importData`. Each handler is a method whose
  `ensures` gives the new state as a function of the old one.
- The work inside the handlers (`map`, `filter`, the recursive `getChildIds`, the
  filter-then-sort projection) is pure. It is modelled by functions in `CategoryTree`,
  `PromptLifecycle`, `Backup` and `Projection`, with lemmas stating what the code promises.
  `Seqs` holds the order-preserving filter and the stable sort. `Text` holds JavaScript's
  `trim` and `includes`.
- Record shapes (`PromptEntry`, `Category`, `SortOption`) and the `"all"` / `"trash"`
  pseudo-category ids are in `Types`.

Parameters stand in for the browser:
- the user's answer to `confirm()` is a `bool`;
- `crypto.randomUUID()` is a `freshId`;
- `Date.now()` is `now`, and the ISO export time is `exportedAt`;
- the dragged prompt id is `promptId`;
- the rename box's text is `newName`;
- `toLowerCase` is `lower`, and `localeCompare` is `compare`.

`getChildIds` recurses through `parentId` links without a cycle guard. The model bounds the
recursion by a parameter `stackDepth`: the number of nested `getChildIds` calls the
JavaScript engine's stack admits. `CategoryTree.ChildIds` returns `None` once the recursion
would go deeper. That is the `RangeError` thrown inside the confirmed branch before any state
update, so `Store.DeleteCategory` then leaves the store unchanged. A cycle the search runs
into overflows every stack (`CategoryTree.CycleOverflows`, `CategoryTree.ReachedCycleOverflows`).
A cycle elsewhere in the collection is never visited and does not matter
(`CategoryTree.UnreachedCycleIsHarmless`). An imported backup can contain such cycles because
neither import mode validates anything. When the part of the tree below the deleted category
has a rank (every category there ranks below its parent, `CategoryTree.RankedFrom`), the
search completes on any stack deeper than the rank of the deleted category
(`CategoryTree.ChildIdsCompletes`). A completed search returns exactly the transitive
children. Appending, renaming and removing categories keep a rank over the whole collection
(`AddKeepsRanked`, `RenameKeepsShape`, `RemoveKeepsRanked`).

Where the design description and the code disagree, the model follows the code:
- A category delete is refused only while there is at most one category (`App.tsx:110`).
  Nothing protects the last *root* category. Deleting a root with its only child removes
  both and leaves no category at all (`CategoryTree.DeleteCanEmptyCollection`).
- Adding a prompt checks only that title, content and category id are non-empty strings. It
  does not check that the category exists.
- Restore always targets the first category in collection order, or `""` when there is
  none. The prompt's pre-trash category is not remembered
  (`PromptLifecycle.RestoreForgetsOrigin`).
- Rename tests the trimmed name but stores the untrimmed one.
- A merge does not de-duplicate records inside the imported batch
  (`Backup.MergeKeepsBatchDuplicates`).
- JavaScript truthiness is kept: an empty parent id yields the name "New Collection" but is
  still stored as the parent; an empty dragged id makes a drop a no-op.

## Model

| member | source | states |
|---|---|---|
| `Seqs.Filter` | App.tsx:122 | the `filter` the handlers use: the result keeps each accepted element exactly as often as the input has it, and drops every rejected one |
| `Seqs.FilterAppend` | App.tsx:122 | filtering distributes over concatenation, so survivors keep their relative order |
| `Seqs.SortBy` | App.tsx:242-250 | the in-place `sort` of the visible list yields a permutation of its input |
| `Seqs.SortBySorted` | App.tsx:242-250 | with a total, transitive comparator the sorted list is ordered for every pair of positions |
| `Text.TrimEmptyIffBlank` | App.tsx:101 | `trim()` yields the empty string exactly when every character is ECMAScript whitespace or a line terminator |
| `Text.Trim` | App.tsx:101 | JavaScript `trim`; what it yields is stated by `Text.TrimEmptyIffBlank` (empty exactly for blank text) and by `TrimStart`/`TrimEnd` |
| `Text.Includes` | App.tsx:237-238 | `includes` holds exactly when the needle occurs at some position of the string |
| `CategoryTree.DefaultName` | App.tsx:88 | a new category is named "New Sub-folder" exactly when a non-empty parent id is given, else "New Collection" |
| `CategoryTree.NewCategory` | App.tsx:86-90 | the new record: fresh id, default name, given parent; see `CategoryTree.AddKeepsRanked` and `App.Store.AddCategory` for what appending it keeps |
| `CategoryTree.AddKeepsRanked` | App.tsx:85-91 | appending a category under a fresh id keeps the parent links well founded |
| `CategoryTree.Children` | App.tsx:116 | the direct children are exactly the categories whose parent is the given id |
| `CategoryTree.ChildIds` | App.tsx:115-118 | the recursive `getChildIds` on a stack of `depth` nested calls; no stack means a `RangeError`; see `CategoryTree.ChildIdsAreDescendants`, `CategoryTree.ChildIdsCompletes` and `CategoryTree.CycleOverflows` |
| `CategoryTree.ChildIdsCompletes` | App.tsx:115-118 | below a ranked part of the tree the search completes once the stack is deeper than the starting category's rank |
| `CategoryTree.CycleOverflows` | App.tsx:115-118 | a cycle reachable from the starting category makes the search fail on every stack depth |
| `CategoryTree.ChildIdsSound` | App.tsx:115-118 | every id `getChildIds` returns is reached from the parent by a chain of child links |
| `CategoryTree.ChildIdsComplete` | App.tsx:115-118 | every category reached by a chain of child links is returned by `getChildIds` |
| `CategoryTree.ChildIdsAreDescendants` | App.tsx:115-118 | `getChildIds` returns exactly the transitive children |
| `CategoryTree.IdsToDeleteIsSubtree` | App.tsx:121 | the deleted id set is the category itself plus all its transitive children |
| `CategoryTree.IdsToDelete` | App.tsx:121 | `[id, ...getChildIds(id)]`: present exactly when the search completes, and then headed by `id`; see `CategoryTree.IdsToDeleteIsSubtree` |
| `CategoryTree.RemoveIds` | App.tsx:122 | the remaining categories are exactly those whose id is not listed, each with unchanged multiplicity |
| `CategoryTree.DeleteKeepsOthers` | App.tsx:122 | after a delete the categories left are exactly those outside the subtree, with unchanged multiplicity and in original order |
| `CategoryTree.LeafDeleteRemovesOnlyItself` | App.tsx:115-121 | a category nobody names as parent is deleted alone |
| `CategoryTree.RemoveKeepsRanked` | App.tsx:122 | removing categories keeps the parent links well founded |
| `CategoryTree.Rename` | App.tsx:105 | only records with the given id get the new name; every other field and record is unchanged |
| `CategoryTree.RenameIfNotBlank` | App.tsx:100-106 | a name that trims to empty leaves the categories unchanged; any other name is stored untrimmed |
| `CategoryTree.RenameKeepsShape` | App.tsx:105 | renaming changes no id and no parent link, so ranks stay valid |
| `CategoryTree.DeleteCanEmptyCollection` | App.tsx:109-124 | the guard counts categories, not roots: deleting root `w1` with child `w2` leaves no category |
| `CategoryTree.UnreachedCycleIsHarmless` | App.tsx:109-124 | with `b` and `c` naming each other as parent, deleting the root `a` completes and removes `a` alone |
| `CategoryTree.ReachedCycleOverflows` | App.tsx:115-121 | with `a` and `b` naming each other as parent, deleting `a` overflows the stack whatever its depth |
| `PromptLifecycle.Reassign` | App.tsx:290 | re-filing keeps length and order and changes only the `categoryId` of the picked prompts |
| `PromptLifecycle.ReassignOverrides` | App.tsx:296 | a second re-filing of the same prompts overrides the first |
| `PromptLifecycle.Find` | App.tsx:282 | `find` holds an answer exactly when some prompt has the id, and it is the first such prompt |
| `PromptLifecycle.Erase` | App.tsx:287 | permanent deletion keeps exactly the prompts with other ids, with unchanged multiplicity |
| `PromptLifecycle.DeletePrompt` | App.tsx:281-292 | unknown id: no change; first match outside the trash: soft delete with the same length; first match trashed: erased only if confirmed |
| `PromptLifecycle.SoftDelete` | App.tsx:290 | the `map` that moves the prompts with the id to the trash; see `PromptLifecycle.SoftDeleteKeepsRecords` and `PromptLifecycle.SoftDeleteFindsTrashed` |
| `PromptLifecycle.SoftDeleteKeepsRecords` | App.tsx:290 | soft delete keeps every record and id and puts the matching prompts in the trash |
| `PromptLifecycle.EraseIgnoresCategory` | App.tsx:287 | erasing by id gives the same survivors wherever the erased prompts had been filed |
| `PromptLifecycle.SoftDeleteFindsTrashed` | App.tsx:282-290 | after a soft delete the first prompt with that id is in the trash |
| `PromptLifecycle.DeleteTwiceErases` | App.tsx:281-292 | deleting twice, confirming the second time, always leaves exactly the prompts with other ids in their order |
| `PromptLifecycle.RestoreTarget` | App.tsx:295 | the restore target is the first category's id, or `""` without categories |
| `PromptLifecycle.Restore` | App.tsx:296 | the `map` that re-files the prompts with the id under the restore target; see `PromptLifecycle.RestoreForgetsOrigin` and `PromptLifecycle.TrashRestoreRoundTrip` |
| `PromptLifecycle.RestoreForgetsOrigin` | App.tsx:294-297 | restore ignores the pre-trash category: trashing then restoring equals restoring alone |
| `PromptLifecycle.TrashRestoreRoundTrip` | App.tsx:289-297 | a prompt filed in the first category comes back unchanged after trash and restore |
| `PromptLifecycle.EmptyTrash` | App.tsx:299-303 | declined: no change; confirmed: exactly the trashed prompts go and each other prompt keeps its multiplicity |
| `PromptLifecycle.EmptyTrashOrderAndIdempotence` | App.tsx:301 | survivors of emptying the trash keep their order, and emptying again removes nothing |
| `PromptLifecycle.Drop` | App.tsx:221-229 | a drop on "all" or with no dragged id is a no-op; otherwise only the dragged prompts' `categoryId` changes and the length stays the same |
| `PromptLifecycle.NewEntry` | App.tsx:268-275 | the entry built from the form, the fresh id and the time; see `PromptLifecycle.AddPrompt` for where it goes |
| `PromptLifecycle.AddPrompt` | App.tsx:265-277 | an empty title, content or category declines; otherwise the new entry is first and the old prompts follow unchanged |
| `PromptLifecycle.DefaultCategory` | App.tsx:255-261 | the add form starts in the active category, or in the first category while "all" or "trash" is shown |
| `PromptLifecycle.MoveToTrash` | App.tsx:123 | the prompt side of a category delete; see `PromptLifecycle.CategoryDeleteTrashesSubtree` |
| `PromptLifecycle.CategoryDeleteTrashesSubtree` | App.tsx:121-123 | a category delete trashes exactly the prompts of the deleted subtree; every other field, prompt and the count are unchanged |
| `PromptLifecycle.WorkExample` | App.tsx:289-297 | a prompt in `w1` goes to the trash and is restored to `w1` |
| `Backup.ExportSnapshot` | App.tsx:141-146 | the snapshot holds version "1.1", both full collections (trash included) and the export time |
| `Backup.ParseImport` | App.tsx:165-171 | an import candidate exists exactly when the document parsed and has both collections |
| `Backup.MergeById` | App.tsx:187-198 | a merge keeps the existing list as an unchanged prefix and appends exactly the imported records with unused ids |
| `Backup.MergeKeepsImportedOrder` | App.tsx:193 | the appended records keep their imported order |
| `Backup.MergeExistingWins` | App.tsx:191-198 | every merged record whose id was already used is an existing record |
| `Backup.MergeIdempotent` | App.tsx:187-198 | merging the same import twice adds nothing the second time |
| `Backup.MergeKeepsUniqueKeys` | App.tsx:187-198 | if neither side repeats an id, the merge does not either |
| `Backup.MergeKeepsBatchDuplicates` | App.tsx:193 | two imported records that share a new id are both appended |
| `Backup.ExportImportRoundTrip` | App.tsx:141-146 | exporting, reading back and overwriting reproduces the exported collections |
| `Backup.MergeOwnBackupIsNoOp` | App.tsx:187-198 | merging the store's own backup into it changes nothing |
| `Backup.Reconcile` | App.tsx:183-202 | overwrite takes the import as it is; merge keeps both current collections as a prefix and appends exactly the imported records with unused ids |
| `Projection.InView` | App.tsx:232-235 | the view filter; see `Projection.VisibleRespectsView` |
| `Projection.MatchesSearch` | App.tsx:236-239 | the search filter on lower-cased title or content; see `Projection.VisibleIsSelection` and `Projection.EmptySearchShowsWholeView` |
| `Projection.Comparator` | App.tsx:242-250 | the sort comparator for the four sort options; see `Projection.VisibleSortedByCreation` |
| `Projection.Visible` | App.tsx:231-253 | `filteredAndSortedPrompts`: view filter, then search filter, then stable sort; see the three lemmas below and `Projection.VisibleSortedByCreation` |
| `Projection.VisibleIsSelection` | App.tsx:231-253 | the visible list holds exactly the view's prompts that match the search, each as often as the store has it |
| `Projection.VisibleRespectsView` | App.tsx:232-235 | "all" never shows the trash, "trash" shows only the trash, and a category shows only its own prompts without sub-folders |
| `Projection.EmptySearchShowsWholeView` | App.tsx:236-240 | an empty search text shows every prompt of the view |
| `Projection.VisibleSortedByCreation` | App.tsx:242-245 | "newest" gives non-increasing and "oldest" non-decreasing creation times |
| `App.Store.constructor` | App.tsx:45-55 | the initial state uses the saved collections, or the four default collections and no prompts, with "all" selected |
| `App.Store.AddCategory` | App.tsx:85-94 | appends the new category under the fresh id, selects it and returns its id |
| `App.Store.RenameCategory` | App.tsx:100-107 | only the categories change, as `RenameIfNotBlank` says |
| `App.Store.DeleteCategory` | App.tsx:109-129 | refused with at most one category or without confirmation; a child search that overflows the stack (always so on a reached cycle) changes nothing; otherwise removes the subtree, trashes its prompts, and resets a view that showed a removed category to "all" |
| `App.Store.ExportBackup` | App.tsx:140-146 | returns the snapshot of the current state and changes nothing |
| `App.Store.SelectImportFile` | App.tsx:163-171 | holds an acceptable document as pending import data; otherwise leaves the state unchanged |
| `App.Store.FinalizeImport` | App.tsx:180-205 | no pending data: no change; overwrite replaces both collections; merge appends the records with unused ids; the pending data is consumed |
| `App.Store.Drop` | App.tsx:221-229 | only the prompts change, as `PromptLifecycle.Drop` says |
| `App.Store.DefaultPromptCategory` | App.tsx:255-261 | returns the add form's preselected category and changes nothing |
| `App.Store.AddPrompt` | App.tsx:265-278 | only the prompts change; a valid form puts the new entry in front of the old prompts |
| `App.Store.DeletePrompt` | App.tsx:281-292 | only the prompts change, as `PromptLifecycle.DeletePrompt` says |
| `App.Store.RestorePrompt` | App.tsx:294-297 | only the prompts change: matching prompts go to the first category |
| `App.Store.EmptyTrash` | App.tsx:299-303 | only the prompts change, as `PromptLifecycle.EmptyTrash` says |
| `App.Store.FilteredAndSorted` | App.tsx:231-253 | the visible list is a sub-multiset of the prompts, respects the view and search, and is ordered by creation time for "newest" and "oldest" |
| `App.ExportThenOverwrite` | App.tsx:140-185 | exporting and then importing that backup with overwrite leaves the store's collections as they were |

## Left out

- `services/geminiService.ts` (script generation through an external text-generation API) and `handleGeneratePython`: a network call with no checkable behaviour.
- `vite.config.ts`: build configuration.
- Rendering: JSX, `renderCategory`, `toggleExpand` and the expanded-folder set, modal visibility, `copiedId` and its timer, the category being edited, drag-over highlighting.
- Persistence: `localStorage` writes after every change are left out. The values read at startup are constructor parameters.
- File and browser plumbing: `FileReader` and `JSON.parse`, the Blob/anchor download, the clipboard (`handleCopy`), `resizeImage`, `dataTransfer` (`handleDragStart`, `handleDragOver`).
- Import acceptance is abstract. A document is two optional collections, and `None` stands for unparsable text. A truthy field that is not an array is beyond the model.
- `confirm`/`alert`, `crypto.randomUUID`, `Date.now`: replaced by parameters.
- The search text and the sort option are parameters of `FilteredAndSorted`, not fields, because they are form state.
- Selecting a folder or pseudo-category by clicking it is inline UI wiring and is not a method. `activeCategoryId` is a public field.
- Strings are sequences of Unicode scalar values, not UTF-16 code units.
- `createdAt` is an unbounded integer, not a float.
- Projection.VisibleSortedByCreation: claims no order for `TitleAsc`/`TitleDesc`, because `localeCompare` is locale-dependent and is only a parameter. For those keys only the permutation (`Seqs.SortBy`) is stated.
- Seqs.SortBy: stability of the sort (ties keep input order) is how the insertion sort behaves, but it is not proved.
- App.Store.DeleteCategory: the stack is one number of nested `getChildIds` calls. The frames `reduce` adds and the size of a real engine's stack are not modelled.
- CategoryTree.ChildIdsCompletes: takes the rank of the part below the deleted category as given. That every acyclic part has one is not proved.
