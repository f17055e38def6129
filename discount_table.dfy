/**
 * The announcement-discount table: one row per discount rule, numbered across
 * pages, labelled with its announcement type and coloured by type id, with a
 * spinner in the discount cell of the row whose request is in flight.
 */
module DiscountTable {

  import opened Lookup
  import opened TableCommon

  /** A discount rule as the backend lists it. */
  datatype Discount = Discount(id: int, annTypesId: int, fixedDay: int, discount: int)

  /** The id of a discount, as a function value for `FindFirst`. */
  function DiscountId(d: Discount): int
  {
    d.id
  }

  /** Which request the page is waiting for: none (`null`), a create (`"new"`) or the row with this id. */
  datatype LoadingId = NoLoading | NewRow | RowLoading(id: int)

  const BlueClass: string := "bg-blue-100 text-blue-800"
  const GreenClass: string := "bg-green-100 text-green-800"
  const YellowClass: string := "bg-yellow-100 text-yellow-800"
  const DefaultClass: string := "bg-gray-100 text-gray-800"

  /** The colour class of a type badge: fixed classes for types 1 to 3, the default class for any other id. */
  function ColorClass(annTypesId: int): (c: string)
    ensures annTypesId == 1 ==> c == BlueClass
    ensures annTypesId == 2 ==> c == GreenClass
    ensures annTypesId == 3 ==> c == YellowClass
    ensures c == DefaultClass <==> !(1 <= annTypesId <= 3)
  {
    match annTypesId
    case 1 => BlueClass
    case 2 => GreenClass
    case 3 => YellowClass
    case _ => DefaultClass
  }

  /** The discount cell: a spinner, or the text `discount + "%"`. */
  datatype DiscountCell = Spinner | Percent(discount: int)

  /** One rendered row; `editArg` and `deleteArg` are what its two buttons pass to `onEdit` and `onDelete`. */
  datatype DiscountRow = DiscountRow(
    number: int,
    typeLabel: string,
    colorClass: string,
    fixedDay: int,
    cell: DiscountCell,
    editArg: Discount,
    deleteArg: int)

  /** The row for `item` at index `idx`. */
  function RowOf(item: Discount, idx: int, annTypes: seq<Named>, page: int, size: int, loadingId: LoadingId): (row: DiscountRow)
    ensures row.number == RowNumber(page, size, idx)
    ensures row.typeLabel == LabelOf(annTypes, item.annTypesId)
    ensures row.colorClass == ColorClass(item.annTypesId)
    ensures row.fixedDay == item.fixedDay
    ensures row.cell.Spinner? <==> loadingId == RowLoading(item.id)
    ensures !row.cell.Spinner? ==> row.cell == Percent(item.discount)
    ensures row.editArg == item && row.deleteArg == item.id
  {
    DiscountRow(
      RowNumber(page, size, idx),
      LabelOf(annTypes, item.annTypesId),
      ColorClass(item.annTypesId),
      item.fixedDay,
      if loadingId == RowLoading(item.id) then Spinner else Percent(item.discount),
      item,
      item.id)
  }

  /** The table body: one row per discount, in the order given. */
  function Rows(discounts: seq<Discount>, annTypes: seq<Named>, page: int, size: int, loadingId: LoadingId): (rows: seq<DiscountRow>)
    ensures |rows| == |discounts|
    ensures forall i :: 0 <= i < |rows| ==> rows[i] == RowOf(discounts[i], i, annTypes, page, size, loadingId)
    ensures forall i :: 0 <= i < |rows| ==>
              && rows[i].number == RowNumber(page, size, i)
              && rows[i].typeLabel == LabelOf(annTypes, discounts[i].annTypesId)
              && rows[i].colorClass == ColorClass(discounts[i].annTypesId)
              && rows[i].fixedDay == discounts[i].fixedDay
              && (rows[i].cell.Spinner? <==> loadingId == RowLoading(discounts[i].id))
              && (!rows[i].cell.Spinner? ==> rows[i].cell == Percent(discounts[i].discount))
              && rows[i].editArg == discounts[i]
              && rows[i].deleteArg == discounts[i].id
  {
    if discounts == [] then []
    else
      var n := |discounts| - 1;
      Rows(discounts[..n], annTypes, page, size, loadingId) + [RowOf(discounts[n], n, annTypes, page, size, loadingId)]
  }

  /** Row numbers run `(page-1)*size + 1, (page-1)*size + 2, …`: the first is `(page-1)*size + 1`, each next one adds 1. */
  lemma RowNumbersConsecutive(discounts: seq<Discount>, annTypes: seq<Named>, page: int, size: int, loadingId: LoadingId)
    requires discounts != []
    ensures Rows(discounts, annTypes, page, size, loadingId)[0].number == (page - 1) * size + 1
    ensures forall i :: 0 < i < |discounts| ==>
              Rows(discounts, annTypes, page, size, loadingId)[i].number
              == Rows(discounts, annTypes, page, size, loadingId)[i - 1].number + 1
  {
  }

  /** On a page of at most `size` rows every number lies in `((page-1)*size, page*size]`. */
  lemma RowsStayOnTheirPage(discounts: seq<Discount>, annTypes: seq<Named>, page: int, size: int, loadingId: LoadingId)
    requires |discounts| <= size
    ensures forall i :: 0 <= i < |discounts| ==>
              (page - 1) * size < Rows(discounts, annTypes, page, size, loadingId)[i].number <= page * size
  {
    var rows := Rows(discounts, annTypes, page, size, loadingId);
    forall i | 0 <= i < |discounts|
      ensures (page - 1) * size < rows[i].number <= page * size
    {
      RowNumberWithinPage(page, size, i);
    }
  }

  /** When discount ids are distinct, at most one row shows a spinner, and none does while nothing or a create is pending. */
  lemma AtMostOneSpinner(discounts: seq<Discount>, annTypes: seq<Named>, page: int, size: int, loadingId: LoadingId)
    requires forall i, j :: 0 <= i < j < |discounts| ==> discounts[i].id != discounts[j].id
    ensures !loadingId.RowLoading? ==>
              forall i :: 0 <= i < |discounts| ==> !Rows(discounts, annTypes, page, size, loadingId)[i].cell.Spinner?
    ensures forall i, j ::
              (0 <= i < |discounts| && 0 <= j < |discounts|
               && Rows(discounts, annTypes, page, size, loadingId)[i].cell.Spinner?
               && Rows(discounts, annTypes, page, size, loadingId)[j].cell.Spinner?) ==> i == j
  {
    var rows := Rows(discounts, annTypes, page, size, loadingId);
    forall i, j | 0 <= i < |discounts| && 0 <= j < |discounts| && rows[i].cell.Spinner? && rows[j].cell.Spinner?
      ensures i == j
    {
      assert discounts[i].id == loadingId.id == discounts[j].id;
    }
  }
}
