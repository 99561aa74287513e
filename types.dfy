/** Records of the prompt manager: prompts, categories and the sort keys of the prompt list. */
module Types {

  datatype Option<+T> = None | Some(value: T)

  /** A saved text snippet. `image` is an encoded thumbnail; `categoryId` names a category,
      or the trash pseudo-category when the prompt is soft-deleted. `createdAt` is the
      creation time in milliseconds. */
  datatype PromptEntry = PromptEntry(
    id: string,
    title: string,
    content: string,
    categoryId: string,
    image: Option<string>,
    createdAt: int)

  /** A folder. `parentId` is absent for a root-level category. */
  datatype Category = Category(
    id: string,
    name: string,
    icon: Option<string>,
    parentId: Option<string>)

  /** The orders the prompt list can be shown in. */
  datatype SortOption = Newest | Oldest | TitleAsc | TitleDesc

  /** The pseudo-category that shows every prompt not in the trash. */
  const AllCategoryId: string := "all"

  /** The pseudo-category holding soft-deleted prompts. */
  const TrashCategoryId: string := "trash"

  /** The categories a fresh installation starts with: four root collections. */
  const DefaultCategories: seq<Category> := [
    Category("1", "Work", None, None),
    Category("2", "Art", None, None),
    Category("3", "Hebrew Project", None, None),
    Category("4", "Coding", None, None)
  ]

  /** The identifier of a category, as a first-class key function. */
  function CategoryKey(c: Category): string { c.id }

  /** The identifier of a prompt, as a first-class key function. */
  function PromptKey(p: PromptEntry): string { p.id }
}
