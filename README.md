# Announcement discounts and reference tables: a Dafny model

This project models the rules that the admin console's own code decides on its
announcement-discount page and in three list tables. Fetching, caching,
deduplication and invalidation are all left to the react-query library, whose
code is not part of this model.

The page:

- **Pagination and filter.** The page keeps `page` (starting at 1), a fixed
  `size` of 10 and an announcement-type filter `annTypesId`, where 0 means "all
  types".
  - The previous button moves to `max(page-1, 1)`.
  - The next button moves to `min(page+1, totalPages)`. It is shown only when
    there is more than one page.
  - Choosing a filter resets `page` to 1.
- **Query key and request parameters.** The triple `(page, size, annTypesId)` is
  the query key. The request parameters are built from it, and a filter of 0 is
  not sent.
- **Create.** When the server confirms a create, the created row is put in front
  of the cached `content` of the current key. Nothing else in the cache changes.
- **Form dispatch.** Submitting the form sends an update when the form carries a
  truthy id, and a create otherwise.
- **Pending row.** `loadingId` names the request in flight: `"new"` for a create,
  or the row id for an update or delete. It is cleared when the request succeeds
  or fails.
- **Announcement types.** They are sorted in place by ascending `id` with a
  stable sort.

The tables:

- **Discount table.** It numbers rows across pages as `(page-1)*size + idx + 1`.
  - Each row shows the type name, falling back to "Noma'lum" (unknown).
  - The colour class comes from the type id, with a default.
  - The discount cell shows a spinner exactly for the row in flight.
- **Inner-category table.** It numbers rows across pages in the same way, or
  shows a single "Ma'lumot topilmadi" (no data found) row.
- **Area table.** It shows the area count, numbers rows from 1, and shows the
  region name with the same fallback.

Layout, one module per file:

- `wrappers.dfy`: the Option type.
- `lookup.dfy`: the shared find-first-by-id, for any record type, with the "Noma'lum" fallback for names.
- `table_common.dfy`: row numbering and the placeholder text.
- `ann_type_sort.dfy`: the type sort.
- `discount_table.dfy`, `inner_category_table.dfy` and `area_table.dfy`: one per table component.
- `ann_discount_page.dfy`: the page. The `useState` cells are fields of a class,
  and the `setPage` and `setQueryData` updaters are functions.

The JavaScript features are modelled as follows:

- Ids, page numbers and form fields are unbounded integers.
- A JavaScript "truthy" id is an id that is present and not 0.
- A falsy `nameUz` is the empty string.
- `null`/`undefined` is `None`.

The page's pattern could be factored into a generic query/cache engine with
optimistic patches, rollback and per-key sequence tokens. The code implements
none of that. The model follows the code: the only cache write happens after the
server confirmed the create, and nothing is rolled back. Nothing in the code can
change `size`, so no "size change resets the page" rule is modelled.

## Model

| member | source | states |
|---|---|---|
| `AnnTypeSort.SortAnnTypes` | src/pages/ann-discount/index.jsx:14-17 | sorting the fetched types in place leaves the array equal to the stable sort by ascending id of its old contents |
| `AnnTypeSort.InsertLast` | src/pages/ann-discount/index.jsx:16 | one insertion step moves the element at `i` left past the larger ids, so the prefix becomes the stable insertion of that element, and the rest of the array is untouched |
| `AnnTypeSort.Insert` | src/pages/ann-discount/index.jsx:16 | inserting one type gives one more element and exactly the old elements plus the new one (a multiset identity) |
| `AnnTypeSort.SortById` | src/pages/ann-discount/index.jsx:16 | the sorted list has as many types as the response |
| `AnnTypeSort.SortedIsAscending` | src/pages/ann-discount/index.jsx:16 | the sorted types are in ascending id order |
| `AnnTypeSort.SortedIsPermutation` | src/pages/ann-discount/index.jsx:16 | the sorted types are a permutation of the response list |
| `AnnTypeSort.SortedIsStable` | src/pages/ann-discount/index.jsx:16 | types with equal ids keep their relative order from the response, as the stable `Array.prototype.sort` does |
| `AnnTypeSort.InsertKeepsOrderPerId` | src/pages/ann-discount/index.jsx:16 | inserting a type appends it to the types with its id and leaves every other id's types as they were |
| `AnnDiscountPage.RequestParams` | src/pages/ann-discount/index.jsx:19-23 | the parameters always carry `page` and `size` from the key; `annTypesId` is sent if and only if it is non-zero, with the key's value |
| `AnnDiscountPage.ParamsDetermineKey` | src/pages/ann-discount/index.jsx:19-23 | no information is lost in building the parameters. `KeyOfParams`, the model's own inverse with a missing filter read as 0 ("all"), recovers the key from them |
| `AnnDiscountPage.DistinctKeysDistinctParams` | src/pages/ann-discount/index.jsx:52 | distinct `(page, size, annTypesId)` keys send distinct request parameters |
| `AnnDiscountPage.AnnDiscountState.constructor` | src/pages/ann-discount/index.jsx:28-42 | the page starts at 1 with size 10, no filter, closed modals, an empty form, no delete target and no pending row |
| `AnnDiscountPage.ShowsPagination` | src/pages/ann-discount/index.jsx:246 | the pagination controls appear exactly when a page of data is cached and its `totalPages` exceeds 1 (`totalPages` falls back to 0, line 58) |
| `AnnDiscountPage.PrependCreated` | src/pages/ann-discount/index.jsx:69-75 | an absent cache value is returned unchanged; otherwise the content is the created row followed by the old rows in order (one longer), and `totalPages` and every other field are unchanged |
| `AnnDiscountPage.WriteCreated` | src/pages/ann-discount/index.jsx:67-76 | writing the created row touches only the current key; no key is added, and the other entries are unchanged |
| `AnnDiscountPage.CreatedRowShiftsTable` | src/pages/ann-discount/index.jsx:73 | after the create, the table has one more row whose edit argument is the created row; each old row moves one place down with its number plus 1 and the same label, cell and button arguments |
| `AnnDiscountPage.AnnDiscountState.CreateSucceeded` | src/pages/ann-discount/index.jsx:65-79 | a confirmed create writes the created row under the key the success handler closed over, and only there. It then closes the modal and clears `loadingId` |
| `AnnDiscountPage.AnnDiscountState.UpdateSucceeded` | src/pages/ann-discount/index.jsx:94-99 | a confirmed update closes the modal and clears `loadingId` |
| `AnnDiscountPage.AnnDiscountState.DeleteSucceeded` | src/pages/ann-discount/index.jsx:111-116 | a confirmed delete closes the confirmation and clears `loadingId` |
| `AnnDiscountPage.AnnDiscountState.RequestFailed` | src/pages/ann-discount/index.jsx:80-83 | a failed request clears `loadingId` and changes nothing else (also lines 100-103 and 117-120) |
| `AnnDiscountPage.LoadingFor` | src/pages/ann-discount/index.jsx:61-63 | a request marks `"new"` exactly when it is a create, and otherwise the id of the row it updates or deletes (also lines 87-88 and 107-108); it never leaves the marker empty |
| `AnnDiscountPage.AnnDiscountState.OpenAddModal` | src/pages/ann-discount/index.jsx:123-126 | the add modal opens with the empty form |
| `AnnDiscountPage.AnnDiscountState.OpenEditModal` | src/pages/ann-discount/index.jsx:128-136 | the edit modal opens with the row's id, type, day count and discount |
| `AnnDiscountPage.AnnDiscountState.SetFormData` | src/pages/ann-discount/index.jsx:273 | the modal's edits replace the form |
| `AnnDiscountPage.AnnDiscountState.CloseModal` | src/pages/ann-discount/index.jsx:274 | closing the modal changes nothing but the modal flag |
| `AnnDiscountPage.Dispatch` | src/pages/ann-discount/index.jsx:138-149 | the form sends an update, carrying the form's id, if and only if that id is truthy, and otherwise a create; never a delete; both carry the form's type, day count and discount |
| `AnnDiscountPage.EditSubmitsUpdate` | src/pages/ann-discount/index.jsx:128-149 | submitting an unchanged edit form of a row with a truthy id sends an update of that row with its own values and marks that row as pending |
| `AnnDiscountPage.AnnDiscountState.HandleSubmit` | src/pages/ann-discount/index.jsx:138-149 | submitting dispatches the form and marks the pending request before it goes out |
| `AnnDiscountPage.AnnDiscountState.HandleDelete` | src/pages/ann-discount/index.jsx:151-153 | confirming deletes the remembered row and marks it as pending |
| `AnnDiscountPage.AnnDiscountState.SelectFilter` | src/pages/ann-discount/index.jsx:208-211 | choosing a type sets the filter to it and the page to 1; size is unchanged |
| `AnnDiscountPage.AnnDiscountState.AskDelete` | src/pages/ann-discount/index.jsx:239-242 | a row's delete button remembers its id and opens the confirmation |
| `AnnDiscountPage.PrevPage` | src/pages/ann-discount/index.jsx:249 | the previous page is the larger of `page-1` and 1: never below 1, never above the current page, and unchanged on page 1 |
| `AnnDiscountPage.AnnDiscountState.Prev` | src/pages/ann-discount/index.jsx:249 | the previous button applies that updater and keeps the page at least 1 |
| `AnnDiscountPage.PrevDisabled` | src/pages/ann-discount/index.jsx:250 | the previous button is disabled exactly where clicking it would not move, that is on page 1 |
| `AnnDiscountPage.NextPage` | src/pages/ann-discount/index.jsx:259 | the next page is the smaller of `page+1` and `totalPages`; from a page in `[1, totalPages]` it stays there, and it is unchanged on the last page |
| `AnnDiscountPage.AnnDiscountState.Next` | src/pages/ann-discount/index.jsx:259 | the next button, present only with more than one page, applies that updater and keeps the page at least 1 |
| `AnnDiscountPage.NextDisabled` | src/pages/ann-discount/index.jsx:260 | the next button is disabled exactly where clicking it would not move, that is on page `totalPages` |
| `AnnDiscountPage.ClicksStayInRange` | src/pages/ann-discount/index.jsx:246-264 | from a page in `[1, totalPages]`, any sequence of previous/next clicks stays in `[1, totalPages]` |
| `AnnDiscountPage.AnnDiscountState.CloseDeleteModal` | src/pages/ann-discount/index.jsx:288 | closing the confirmation changes nothing but its flag |
| `AnnDiscountPage.DeleteDialogTypeName` | src/pages/ann-discount/index.jsx:281-287 | the confirmation shows the type label of the first discount with the delete id, or "Noma'lum" when there is none; never empty |
| `DiscountTable.ColorClass` | src/pages/ann-discount/components/TableDiscount.jsx:37-38 | type ids 1, 2 and 3 get the blue, green and yellow classes; the default class is given exactly to every other id |
| `DiscountTable.RowOf` | src/pages/ann-discount/components/TableDiscount.jsx:41-70 | the row of one discount at index `idx` is numbered `idx + 1 + (page-1)*size` and shows the type label, colour class and day count. Its cell is a spinner exactly when `loadingId` is the item's id, and otherwise the discount. Edit receives the item and delete its id |
| `DiscountTable.Rows` | src/pages/ann-discount/components/TableDiscount.jsx:35-72 | one row per discount in input order. Row `idx` is numbered `idx + 1 + (page-1)*size` and shows the type label, colour class and day count of its item. Its cell is a spinner exactly when `loadingId` is that item's id, and otherwise the item's discount. Edit receives the item and delete its id |
| `DiscountTable.RowNumbersConsecutive` | src/pages/ann-discount/components/TableDiscount.jsx:42 | the first row is numbered `(page-1)*size + 1` and each next row adds 1 |
| `DiscountTable.RowsStayOnTheirPage` | src/pages/ann-discount/components/TableDiscount.jsx:42 | with at most `size` rows, every number on page `p` lies in `((p-1)*size, p*size]` |
| `DiscountTable.AtMostOneSpinner` | src/pages/ann-discount/components/TableDiscount.jsx:50-54 | with distinct discount ids at most one row shows a spinner, and none does while nothing is pending or a create is pending |
| `TableCommon.RowNumberWithinPage` | src/pages/ann-discount/components/TableDiscount.jsx:42 | the number of row `idx < size` on page `p` lies in `((p-1)*size, p*size]` |
| `TableCommon.PagesNeverShareNumbers` | src/pages/inner-category/components/innerCategoryTable.jsx:35 | two rows of full pages with the same number are the same row of the same page |
| `Lookup.FindFirst` | src/pages/ann-discount/components/TableDiscount.jsx:36 | the lookup is absent if and only if no record has the id, and otherwise it is the first record with that id. The types, the regions and the delete dialog's discounts all use it |
| `Lookup.LabelOf` | src/pages/ann-discount/components/TableDiscount.jsx:45 | the label is the `nameUz` of the first record with the id, or "Noma'lum" when there is no match or that name is empty; never empty |
| `Lookup.KnownLabelComesFromMatch` | src/pages/area/components/AreaTable.jsx:37-38 | a label other than "Noma'lum" is the name of the first record carrying the wanted id |
| `InnerCategoryTable.ItemRows` | src/pages/inner-category/components/innerCategoryTable.jsx:30-57 | one item row per category in order. Row `idx` is numbered `(page-1)*size + idx + 1` and shows `name`, `nameUz`, `nameRu` and `nameEn`. Edit receives the category and delete its id |
| `InnerCategoryTable.Body` | src/pages/inner-category/components/innerCategoryTable.jsx:20-58 | an empty list gives exactly the single "Ma'lumot topilmadi" row, and only an empty list gives a lone placeholder; otherwise the item rows |
| `InnerCategoryTable.NumberingStartsAtPageOffset` | src/pages/inner-category/components/innerCategoryTable.jsx:35 | the first row on page `p` is `(p-1)*size + 1` and each later row adds 1 |
| `AreaTable.ItemRows` | src/pages/area/components/AreaTable.jsx:27-55 | one item row per area in order. Row `idx` is numbered `idx + 1` and shows the area's names and the region label (first region with the id, else "Noma'lum"). Edit receives the area and delete-confirm its id |
| `AreaTable.View` | src/pages/area/components/AreaTable.jsx:13-65 | the header count is `areas.length`; an empty list gives exactly the single placeholder row, otherwise the item rows |
| `AreaTable.CountMatchesRows` | src/pages/area/components/AreaTable.jsx:13 | for a non-empty list the header count equals the number of body rows, which are numbered 1..n |

## Left out

- react-query's own behaviour is not modelled: request deduplication, staleness, `keepPreviousData`, refetching, and the prefix invalidation (`invalidateQueries`) after an update or delete. That is library code. `UpdateSucceeded` and `DeleteSucceeded` therefore model only the page's own state.
- AnnDiscountPage.AnnDiscountState.CreateSucceeded: the page, size and filter that the success handler closed over are decided by the query library. It could be the key of the render that submitted or of a later render. The model therefore takes the key as a parameter and does not say which render's key it is.
- After an update or delete, `page` is never re-clamped to a smaller `totalPages`. The model states no such guarantee.
- A created row is prepended without trimming `content` to `size`, so a cached page can hold `size + 1` rows.
- `DiscountTable.RowsStayOnTheirPage`: because of that untrimmed page, it assumes at most `size` rows. A page after a create can break the assumption, and its last number then equals the next page's first.
- The loading and error screens (src/pages/ann-discount/index.jsx:171-199) are not modelled. The error screen's retry button calls a `refetch` that is never bound.
- The backdrop-click handler is not modelled separately. It is presentation and only calls the close setters, which are modelled as `CloseModal` and `CloseDeleteModal`.
- `Number(...)` coercion of the form's strings is not modelled. Form fields are integers, and the empty field of a fresh add form reads as 0, as `Number("")` does; `NaN` is not modelled.
- The sort comparator `a.id - b.id` is taken as exact integer comparison. Floating-point ids are not modelled.
- `null`/`undefined` names are modelled as the empty string, which is falsy in the same way.
- These parts are presentation and are not modelled: toasts, JSX markup, the React row `key` props, the unused `typeColors` object of src/pages/ann-discount/index.jsx:164-169, and navigation.
- The HTTP client (src/api/axiosInstance.js, src/api/api.js) is I/O plumbing and is not part of this model. That covers base URLs and the bearer token read from `localStorage`.
- The add/edit and delete modal components are not part of this model, beyond the setters they are handed.
- The region, job-type and announcement pages and the category table only wire forms and tables to the same library calls, so they are not modelled.
