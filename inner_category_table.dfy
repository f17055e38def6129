/**
 * The inner-category table: a "not found" row for an empty list, otherwise one
 * row per category, numbered across pages, showing its four names.
 */
module InnerCategoryTable {

  import opened TableCommon

  datatype Category = Category(id: int, name: string, nameUz: string, nameRu: string, nameEn: string)

  /** A body row: the empty-list placeholder or a category with the arguments its edit and delete buttons pass on. */
  datatype CategoryRow =
    | NotFound(message: string)
    | CategoryItem(
        number: int,
        name: string,
        nameUz: string,
        nameRu: string,
        nameEn: string,
        editArg: Category,
        deleteArg: int)

  /** The rows of a non-empty list: one per category, in the order given. */
  function ItemRows(items: seq<Category>, page: int, size: int): (rows: seq<CategoryRow>)
    ensures |rows| == |items|
    ensures forall i :: 0 <= i < |rows| ==>
              && rows[i].CategoryItem?
              && rows[i].number == RowNumber(page, size, i)
              && rows[i].name == items[i].name
              && rows[i].nameUz == items[i].nameUz
              && rows[i].nameRu == items[i].nameRu
              && rows[i].nameEn == items[i].nameEn
              && rows[i].editArg == items[i]
              && rows[i].deleteArg == items[i].id
  {
    if items == [] then []
    else
      var n := |items| - 1;
      var c := items[n];
      ItemRows(items[..n], page, size) + [CategoryItem(RowNumber(page, size, n), c.name, c.nameUz, c.nameRu, c.nameEn, c, c.id)]
  }

  /** The table body: the placeholder row for an empty list, the category rows otherwise. */
  function Body(items: seq<Category>, page: int, size: int): (rows: seq<CategoryRow>)
    ensures items == [] <==> (|rows| == 1 && rows[0].NotFound?)
    ensures items == [] ==> rows == [NotFound(NotFoundMessage)]
    ensures items != [] ==> rows == ItemRows(items, page, size)
  {
    if |items| == 0 then [NotFound(NotFoundMessage)] else ItemRows(items, page, size)
  }

  /** The first row of page `page` is numbered `(page-1)*size + 1`, and each later row adds 1. */
  lemma NumberingStartsAtPageOffset(items: seq<Category>, page: int, size: int)
    requires items != []
    ensures Body(items, page, size)[0].number == (page - 1) * size + 1
    ensures forall i :: 0 < i < |items| ==>
              Body(items, page, size)[i].number == Body(items, page, size)[i - 1].number + 1
  {
  }
}
