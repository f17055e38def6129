/**
 * The area (district) table: a header with the number of areas, then a "not
 * found" row for an empty list or one row per area, numbered from 1, showing
 * its names and the name of its region.
 */
module AreaTable {

  import opened Lookup
  import opened TableCommon

  datatype Area = Area(id: int, nameUz: string, nameEn: string, nameRu: string, regionsId: int)

  /** A body row: the empty-list placeholder or an area with the arguments its edit and delete buttons pass on. */
  datatype AreaRow =
    | NotFound(message: string)
    | AreaItem(
        number: int,
        nameUz: string,
        nameEn: string,
        nameRu: string,
        regionName: string,
        editArg: Area,
        deleteArg: int)

  /** The header count and the body rows. */
  datatype AreaTableView = AreaTableView(count: int, body: seq<AreaRow>)

  /** The rows of a non-empty list: one per area, in the order given. */
  function ItemRows(areas: seq<Area>, regions: seq<Named>): (rows: seq<AreaRow>)
    ensures |rows| == |areas|
    ensures forall i :: 0 <= i < |rows| ==>
              && rows[i].AreaItem?
              && rows[i].number == i + 1
              && rows[i].nameUz == areas[i].nameUz
              && rows[i].nameEn == areas[i].nameEn
              && rows[i].nameRu == areas[i].nameRu
              && rows[i].regionName == LabelOf(regions, areas[i].regionsId)
              && rows[i].editArg == areas[i]
              && rows[i].deleteArg == areas[i].id
  {
    if areas == [] then []
    else
      var n := |areas| - 1;
      var a := areas[n];
      ItemRows(areas[..n], regions) + [AreaItem(n + 1, a.nameUz, a.nameEn, a.nameRu, LabelOf(regions, a.regionsId), a, a.id)]
  }

  /** The whole table: the number of areas in the header, then the area rows or, for an empty list, the placeholder row. */
  function View(areas: seq<Area>, regions: seq<Named>): (v: AreaTableView)
    ensures v.count == |areas|
    ensures areas == [] <==> (|v.body| == 1 && v.body[0].NotFound?)
    ensures areas == [] ==> v.body == [NotFound(NotFoundMessage)]
    ensures areas != [] ==> v.body == ItemRows(areas, regions)
  {
    AreaTableView(|areas|, if |areas| > 0 then ItemRows(areas, regions) else [NotFound(NotFoundMessage)])
  }

  /** With a non-empty list the header count equals the number of body rows, and they are numbered 1..n. */
  lemma CountMatchesRows(areas: seq<Area>, regions: seq<Named>)
    requires areas != []
    ensures View(areas, regions).count == |View(areas, regions).body|
    ensures forall i :: 0 <= i < |areas| ==> View(areas, regions).body[i].number == i + 1
  {
  }
}
