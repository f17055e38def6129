/**
 * The announcement-discount page: its pagination and type filter, the request
 * parameters folded from them, the cache write after a confirmed create, the
 * create/update dispatch of the form, and which row waits for a request.
 */
module AnnDiscountPage {

  import opened Wrappers
  import opened Lookup
  import opened DiscountTable

  /** Rows per page; the page has no setter for it. */
  const PageSize: int := 10

  // ---------------------------------------------------------------- paging

  /** The previous-page updater: one page back, but never below page 1. */
  function PrevPage(p: int): (r: int)
    ensures r >= 1 && r >= p - 1
    ensures r == 1 || r == p - 1
    ensures p >= 1 ==> r <= p
    ensures p == 1 ==> r == p
  {
    if p - 1 >= 1 then p - 1 else 1
  }

  /** The next-page updater: one page on, but never past the last page. */
  function NextPage(p: int, totalPages: int): (r: int)
    ensures r <= totalPages && r <= p + 1
    ensures r == totalPages || r == p + 1
    ensures 1 <= p <= totalPages ==> 1 <= r <= totalPages
    ensures p == totalPages ==> r == p
    ensures p < totalPages ==> r == p + 1
  {
    if p + 1 <= totalPages then p + 1 else totalPages
  }

  /** The previous button is disabled on the first page, exactly where clicking it would not move. */
  function PrevDisabled(page: int): (d: bool)
    ensures d <==> PrevPage(page) == page
  {
    page == 1
  }

  /** The next button is disabled on the last page, exactly where clicking it would not move. */
  function NextDisabled(page: int, totalPages: int): (d: bool)
    ensures d <==> NextPage(page, totalPages) == page
  {
    page == totalPages
  }

  /** Starting from any page in `[1, totalPages]`, any run of previous/next clicks stays in `[1, totalPages]`. */
  lemma {:induction false} ClicksStayInRange(p: int, totalPages: int, clicks: seq<bool>)
    requires 1 <= p <= totalPages
    ensures 1 <= AfterClicks(p, totalPages, clicks) <= totalPages
    decreases |clicks|
  {
    if clicks != [] {
      var p' := if clicks[0] then NextPage(p, totalPages) else PrevPage(p);
      ClicksStayInRange(p', totalPages, clicks[1..]);
    }
  }

  /** The page after a run of clicks, `true` for next and `false` for previous. */
  function AfterClicks(p: int, totalPages: int, clicks: seq<bool>): int
    decreases |clicks|
  {
    if clicks == [] then p
    else AfterClicks(if clicks[0] then NextPage(p, totalPages) else PrevPage(p), totalPages, clicks[1..])
  }

  // ------------------------------------------------------- query and params

  /** The query key of a page of discounts: page number, page size and type filter. */
  datatype QueryKey = AnnDiscountsKey(page: int, size: int, annTypesId: int)

  /** The request parameters folded from a key; a zero filter ("all types") is not sent. */
  function RequestParams(k: QueryKey): (params: map<string, int>)
    ensures "page" in params && params["page"] == k.page
    ensures "size" in params && params["size"] == k.size
    ensures "annTypesId" in params <==> k.annTypesId != 0
    ensures "annTypesId" in params ==> params["annTypesId"] == k.annTypesId
    ensures params.Keys <= {"page", "size", "annTypesId"}
  {
    var base := map["page" := k.page, "size" := k.size];
    if k.annTypesId != 0 then base["annTypesId" := k.annTypesId] else base
  }

  /** The inverse of `RequestParams`, stated only to prove it injective: a missing type filter reads as 0. */
  function KeyOfParams(params: map<string, int>): (k: Option<QueryKey>)
    ensures k.Some? <==> "page" in params && "size" in params
  {
    if "page" in params && "size" in params then
      Some(AnnDiscountsKey(params["page"], params["size"], if "annTypesId" in params then params["annTypesId"] else 0))
    else None
  }

  /** The parameters determine the key they were built from. */
  lemma ParamsDetermineKey(k: QueryKey)
    ensures KeyOfParams(RequestParams(k)) == Some(k)
  {
  }

  /** Distinct `(page, size, annTypesId)` triples send distinct parameters. */
  lemma DistinctKeysDistinctParams(k1: QueryKey, k2: QueryKey)
    requires k1 != k2
    ensures RequestParams(k1) != RequestParams(k2)
  {
    ParamsDetermineKey(k1);
    ParamsDetermineKey(k2);
  }

  // -------------------------------------------------------------- the cache

  /**
   * One cached page of discounts: its rows, the page count, and the remaining
   * fields of the server's page object, carried along unread.
   */
  datatype PageData = PageData(content: seq<Discount>, totalPages: int, otherFields: map<string, string>)

  /** The rows the table shows: the cached page's content, or none while nothing is cached. */
  function DiscountsOf(data: Option<PageData>): seq<Discount>
  {
    if data.Some? then data.value.content else []
  }

  /** The page count the controls use: the cached page's count, or 0 while nothing is cached. */
  function TotalPagesOf(data: Option<PageData>): int
  {
    if data.Some? then data.value.totalPages else 0
  }

  /** Pagination controls are shown only when there is more than one page. */
  function ShowsPagination(data: Option<PageData>): (shown: bool)
    ensures shown <==> data.Some? && data.value.totalPages > 1
  {
    TotalPagesOf(data) > 1
  }

  /** The `setQueryData` updater after a confirmed create: the created row goes first. */
  function PrependCreated(oldData: Option<PageData>, created: Discount): (r: Option<PageData>)
    ensures oldData.None? ==> r == oldData
    ensures oldData.Some? ==> r.Some?
    ensures oldData.Some? ==> |r.value.content| == |oldData.value.content| + 1
    ensures oldData.Some? ==> r.value.content[0] == created && r.value.content[1..] == oldData.value.content
    ensures oldData.Some? ==> r.value.totalPages == oldData.value.totalPages
    ensures oldData.Some? ==> r.value.otherFields == oldData.value.otherFields
  {
    match oldData
    case None => oldData
    case Some(d) => Some(d.(content := [created] + d.content))
  }

  /** Writing the create updater's result under one key; an absent entry stays absent, as an updater result of `undefined` leaves the cache alone. */
  function WriteCreated(cache: map<QueryKey, PageData>, key: QueryKey, created: Discount): (c: map<QueryKey, PageData>)
    ensures c.Keys == cache.Keys
    ensures forall k :: k in cache && k != key ==> c[k] == cache[k]
    ensures key in cache ==> Some(c[key]) == PrependCreated(Some(cache[key]), created)
  {
    var oldData := if key in cache then Some(cache[key]) else None;
    match PrependCreated(oldData, created)
    case Some(d) => cache[key := d]
    case None => cache
  }

  /**
   * After a create, the table shows the created row first, and every earlier row
   * one place further down with the same label, cell and button arguments.
   */
  lemma CreatedRowShiftsTable(d: PageData, created: Discount, annTypes: seq<Named>, page: int, size: int, loadingId: LoadingId)
    ensures var before := Rows(d.content, annTypes, page, size, loadingId);
            var after := Rows(DiscountsOf(PrependCreated(Some(d), created)), annTypes, page, size, loadingId);
            && |after| == |before| + 1
            && after[0].editArg == created
            && forall i :: 0 <= i < |before| ==>
                 && after[i + 1].number == before[i].number + 1
                 && after[i + 1].typeLabel == before[i].typeLabel
                 && after[i + 1].cell == before[i].cell
                 && after[i + 1].editArg == before[i].editArg
                 && after[i + 1].deleteArg == before[i].deleteArg
  {
    var content := DiscountsOf(PrependCreated(Some(d), created));
    var before := Rows(d.content, annTypes, page, size, loadingId);
    var after := Rows(content, annTypes, page, size, loadingId);
    forall i | 0 <= i < |before|
      ensures after[i + 1].number == before[i].number + 1
      ensures after[i + 1].typeLabel == before[i].typeLabel
      ensures after[i + 1].cell == before[i].cell
      ensures after[i + 1].editArg == before[i].editArg
      ensures after[i + 1].deleteArg == before[i].deleteArg
    {
      assert content[i + 1] == d.content[i];
      if after[i + 1].cell.Spinner? {
        assert before[i].cell.Spinner?;
      } else {
        assert !before[i].cell.Spinner?;
      }
    }
  }

  // ------------------------------------------------------------- mutations

  /** The add/edit form; the fields are numbers (an empty field reads as 0). */
  datatype FormData = FormData(id: Option<int>, annTypesId: int, fixedDay: int, discount: int)

  /** The empty add form. */
  const EmptyForm: FormData := FormData(None, 0, 0, 0)

  datatype Payload = Payload(annTypesId: int, fixedDay: int, discount: int)

  /** A request to the discount endpoints. */
  datatype Mutation = Create(payload: Payload) | Update(id: int, payload: Payload) | Delete(id: int)

  /** `handleSubmit`: an update when the form carries a truthy id, a create otherwise. */
  function Dispatch(f: FormData): (m: Mutation)
    ensures !m.Delete?
    ensures m.Update? <==> f.id.Some? && f.id.value != 0
    ensures m.Update? ==> m.id == f.id.value
    ensures m.payload == Payload(f.annTypesId, f.fixedDay, f.discount)
  {
    var payload := Payload(f.annTypesId, f.fixedDay, f.discount);
    if f.id.Some? && f.id.value != 0 then Update(f.id.value, payload) else Create(payload)
  }

  /** What `loadingId` is set to when a request starts: `"new"` for a create, the row id otherwise. */
  function LoadingFor(m: Mutation): (l: LoadingId)
    ensures l != NoLoading
    ensures l == NewRow <==> m.Create?
    ensures l.RowLoading? ==> l.id == m.id
  {
    match m
    case Create(_) => NewRow
    case Update(id, _) => RowLoading(id)
    case Delete(id) => RowLoading(id)
  }

  /** An edited row's form submits an update of that row carrying its current values. */
  lemma EditSubmitsUpdate(item: Discount)
    requires item.id != 0
    ensures Dispatch(EditForm(item)) == Update(item.id, Payload(item.annTypesId, item.fixedDay, item.discount))
    ensures LoadingFor(Dispatch(EditForm(item))) == RowLoading(item.id)
  {
  }

  /** The form `openEditModal(item)` fills in. */
  function EditForm(item: Discount): FormData
  {
    FormData(Some(item.id), item.annTypesId, item.fixedDay, item.discount)
  }

  // ------------------------------------------------------------ page state

  /** The page component's state cells. */
  class AnnDiscountState {
    var page: int
    const size: int
    var annTypesId: int
    var modalOpen: bool
    var deleteModalOpen: bool
    var formData: FormData
    var deleteId: Option<int>
    var loadingId: LoadingId

    /** The page number is at least 1, the size is fixed, and the delete dialog always has a row to delete. */
    ghost predicate Valid()
      reads this
    {
      page >= 1 && size == PageSize && (deleteModalOpen ==> deleteId.Some?)
    }

    constructor ()
      ensures Valid()
      ensures page == 1 && size == PageSize && annTypesId == 0
      ensures !modalOpen && !deleteModalOpen && formData == EmptyForm
      ensures deleteId == None && loadingId == NoLoading
    {
      page := 1;
      size := PageSize;
      annTypesId := 0;
      modalOpen := false;
      deleteModalOpen := false;
      formData := EmptyForm;
      deleteId := None;
      loadingId := NoLoading;
    }

    /** The previous-page button. */
    method Prev()
      requires Valid()
      modifies this`page
      ensures Valid()
      ensures page == PrevPage(old(page))
    {
      page := PrevPage(page);
    }

    /** The next-page button, which exists only when there is more than one page. */
    method Next(totalPages: int)
      requires Valid() && totalPages > 1
      modifies this`page
      ensures Valid()
      ensures page == NextPage(old(page), totalPages)
    {
      page := NextPage(page, totalPages);
    }

    /** Choosing a type in the filter: the new filter, back to page 1. */
    method SelectFilter(typeId: int)
      requires Valid()
      modifies this`page, this`annTypesId
      ensures Valid()
      ensures annTypesId == typeId && page == 1
    {
      annTypesId := typeId;
      page := 1;
    }

    /** Opening the add modal with an empty form. */
    method OpenAddModal()
      requires Valid()
      modifies this`formData, this`modalOpen
      ensures Valid()
      ensures formData == EmptyForm && modalOpen
    {
      formData := EmptyForm;
      modalOpen := true;
    }

    /** Opening the edit modal with the row's values in the form. */
    method OpenEditModal(item: Discount)
      requires Valid()
      modifies this`formData, this`modalOpen
      ensures Valid()
      ensures formData == EditForm(item) && modalOpen
    {
      formData := EditForm(item);
      modalOpen := true;
    }

    /** The form's `setFormData` as the modal edits the fields. */
    method SetFormData(f: FormData)
      requires Valid()
      modifies this`formData
      ensures Valid()
      ensures formData == f
    {
      formData := f;
    }

    /** Closing the add/edit modal. */
    method CloseModal()
      requires Valid()
      modifies this`modalOpen
      ensures Valid()
      ensures !modalOpen
    {
      modalOpen := false;
    }

    /** A row's delete button: remember the id and open the confirmation. */
    method AskDelete(id: int)
      requires Valid()
      modifies this`deleteId, this`deleteModalOpen
      ensures Valid()
      ensures deleteId == Some(id) && deleteModalOpen
    {
      deleteId := Some(id);
      deleteModalOpen := true;
    }

    /** Closing the delete confirmation. */
    method CloseDeleteModal()
      requires Valid()
      modifies this`deleteModalOpen
      ensures Valid()
      ensures !deleteModalOpen
    {
      deleteModalOpen := false;
    }

    /** `handleSubmit`: dispatch the form and mark the pending row before the request goes out. */
    method HandleSubmit() returns (m: Mutation)
      requires Valid()
      modifies this`loadingId
      ensures Valid()
      ensures m == Dispatch(formData)
      ensures loadingId == LoadingFor(m)
    {
      m := Dispatch(formData);
      loadingId := LoadingFor(m);
    }

    /** `handleDelete`, reachable from the open confirmation: delete the remembered row. */
    method HandleDelete() returns (m: Mutation)
      requires Valid() && deleteModalOpen
      modifies this`loadingId
      ensures Valid()
      ensures m == Delete(deleteId.value)
      ensures loadingId == RowLoading(deleteId.value)
    {
      m := Delete(deleteId.value);
      loadingId := LoadingFor(m);
    }

    /**
     * The create succeeded: write the created row into the cache entry of `key`,
     * the page/size/filter key the success handler closed over, then close the
     * modal and clear the spinner.
     */
    method CreateSucceeded(created: Discount, key: QueryKey, cache: map<QueryKey, PageData>) returns (cache': map<QueryKey, PageData>)
      requires Valid()
      modifies this`modalOpen, this`loadingId
      ensures Valid()
      ensures cache' == WriteCreated(cache, key, created)
      ensures !modalOpen && loadingId == NoLoading
    {
      cache' := WriteCreated(cache, key, created);
      modalOpen := false;
      loadingId := NoLoading;
    }

    /** The update succeeded: close the modal and clear the spinner. */
    method UpdateSucceeded()
      requires Valid()
      modifies this`modalOpen, this`loadingId
      ensures Valid()
      ensures !modalOpen && loadingId == NoLoading
    {
      modalOpen := false;
      loadingId := NoLoading;
    }

    /** The delete succeeded: close the confirmation and clear the spinner. */
    method DeleteSucceeded()
      requires Valid()
      modifies this`deleteModalOpen, this`loadingId
      ensures Valid()
      ensures !deleteModalOpen && loadingId == NoLoading
    {
      deleteModalOpen := false;
      loadingId := NoLoading;
    }

    /** Any of the three requests failed: clear the spinner and leave everything else as it is. */
    method RequestFailed()
      requires Valid()
      modifies this`loadingId
      ensures Valid()
      ensures loadingId == NoLoading
    {
      loadingId := NoLoading;
    }
  }

  /** The delete dialog's type name: the type of the discount being deleted, or the fallback when either lookup misses. */
  function DeleteDialogTypeName(discounts: seq<Discount>, annTypes: seq<Named>, deleteId: int): (name: string)
    ensures name != ""
    ensures (forall i :: 0 <= i < |discounts| ==> discounts[i].id != deleteId) ==> name == Unknown
    ensures forall i :: FirstWithId(discounts, DiscountId, deleteId, i) ==> name == LabelOf(annTypes, discounts[i].annTypesId)
  {
    match FindFirst(discounts, DiscountId, deleteId)
    case Some(d) => LabelOf(annTypes, d.annTypesId)
    case None => Unknown
  }
}
