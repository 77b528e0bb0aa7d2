/**
 * The asset-detail page (`AssetDetailPage`): the asset-id guard, the load of the asset and its
 * records, the record dialog and the delete dialog. The API calls are outside the model: each
 * operation receives the outcome of the calls it makes, an error carrying the message the
 * API client throws, and returns the request it sends.
 */
module AssetDetailPage {
  import opened Wrappers
  import opened Text
  import opened Messages
  import opened Phrases
  import opened Forms
  import opened AuthContext
  import RecordForm
  import AssetForm
  import UpcomingPage
  import AuthMiddleware
  import AuthService

  /** What the two fetches of a load resolve to together. */
  datatype Details = Details(asset: AssetForm.AssetView, records: seq<RecordForm.RecordView>)

  /** The call `handleSaveRecord` makes. */
  datatype SaveRequest =
    | CreateRequest(payload: RecordForm.Payload)
    | UpdateRequest(recordId: int, payload: RecordForm.Payload)

  /** What the mount effect does once the session is known. */
  datatype Entry = Wait | FetchDetails | GoToLogin | RejectId

  /** The page's state hooks. */
  datatype PageState = PageState(
    asset: Option<AssetForm.AssetView>,
    records: seq<RecordForm.RecordView>,
    isLoadingPage: bool,
    pageError: Option<string>,
    formApiError: Option<string>,
    modalOpen: bool,
    modalMode: Mode,
    currentRecord: Option<RecordForm.RecordView>,
    isSavingRecord: bool,
    deleteOpen: bool,
    recordToDelete: Option<RecordForm.RecordView>,
    isDeletingRecord: bool)

  const AssetIdRefused := "Invalid Asset ID."
  const TokenOrIdMissing := "Authentication token or Asset ID is missing."

  // ---------------------------------------------------------------- the asset id

  /** `Number(assetId)` is truthy: a number other than 0 (NaN is `None`). */
  predicate IdTruthy(id: Option<int>) {
    id.Some? && id.value != 0
  }

  /** An empty route parameter and "0" both read as a falsy id. */
  lemma EmptyAndZeroRejected()
    ensures !IdTruthy(NumberOf("")) && !IdTruthy(NumberOf("0"))
  {
    assert Trim("") == "";
    NumberOfDigits("0");
    assert DigitsValue("0") == 0 by {
      assert "0"[..0] == "";
    }
  }

  /** The mount effect: nothing while the session loads; then fetch, or go to login, or refuse the id. */
  function EntryOf(authIsLoading: bool, isAuthenticated: bool, id: Option<int>): Entry {
    if authIsLoading then Wait
    else if isAuthenticated && IdTruthy(id) then FetchDetails
    else if !isAuthenticated then GoToLogin
    else RejectId
  }

  /** The state after the mount effect: only a refused id changes it. */
  function Entered(s: PageState, e: Entry): PageState {
    if e == RejectId then s.(pageError := Some(AssetIdRefused), isLoadingPage := false) else s
  }

  /** A falsy id never leads to a fetch: a signed-in session gets the refusal message instead. */
  lemma FalsyIdNeverFetches(authIsLoading: bool, isAuthenticated: bool, id: Option<int>)
    requires !IdTruthy(id)
    ensures EntryOf(authIsLoading, isAuthenticated, id) != FetchDetails
    ensures !authIsLoading && isAuthenticated ==> EntryOf(authIsLoading, isAuthenticated, id) == RejectId
  {
  }

  // ---------------------------------------------------------------- loading

  /** The guard of `loadAssetDetailsAndRecords`. */
  predicate CanLoad(auth: AuthState, id: Option<int>) {
    auth.isAuthenticated && HasToken(auth) && IdTruthy(id)
  }

  /** Whether a failed load signs the user out: the three phrases this page looks for. */
  predicate ForcesLogout(message: string) {
    Includes(message, TokenInvalid) || Includes(message, TokenRequired) || Includes(message, UpcomingPage.ProfileFetchFailed)
  }

  /** A load: behind the guard, the error is cleared, the outcome recorded, and loading ends. */
  function Loaded(s: PageState, auth: AuthState, id: Option<int>, fetched: Result<Details>): PageState {
    if !CanLoad(auth, id) then s
    else if fetched.Ok? then
      s.(asset := Some(fetched.value.asset), records := fetched.value.records, pageError := None, isLoadingPage := false)
    else s.(pageError := Some(fetched.error), isLoadingPage := false)
  }

  /** Whether a load logs the session out. */
  predicate LoadLogsOut(auth: AuthState, id: Option<int>, fetched: Result<Details>) {
    CanLoad(auth, id) && fetched.Err? && ForcesLogout(fetched.error)
  }

  /**
   * The server's answer to a rejected token signs the user out on this page, while the
   * upcoming-maintenance page, which looks for a garbled spelling, keeps the session.
   */
  lemma RejectedTokenHandledDifferently(header: Option<string>, verify: string -> Option<AuthService.JwtPayload>)
    requires AuthMiddleware.BearerToken(header).Some? && verify(AuthMiddleware.BearerToken(header).value).None?
    ensures var d := AuthMiddleware.Authenticate(header, verify);
      && d.Stop? && d.reply.status == 403 && d.reply.body.Error?
      && ForcesLogout(d.reply.body.error) && !UpcomingPage.ForcesLogout(d.reply.body.error)
  {
    Holds(TokenInvalid, "", TokenInvalid, "");
    UpcomingPage.InvalidTokenKeepsSession();
  }

  // ---------------------------------------------------------------- dialogs

  /** `handleOpenCreateRecordModal`. */
  function OpenedForCreate(s: PageState): PageState {
    s.(modalMode := CreateMode, currentRecord := None, formApiError := None, modalOpen := true)
  }

  /** `handleOpenEditRecordModal(record)`. */
  function OpenedForEdit(s: PageState, r: RecordForm.RecordView): PageState {
    s.(modalMode := EditMode, currentRecord := Some(r), formApiError := None, modalOpen := true)
  }

  /** `handleCloseRecordModal`. */
  function ClosedModal(s: PageState): PageState {
    s.(modalOpen := false, currentRecord := None, formApiError := None)
  }

  /** `handleOpenDeleteRecordDialog(record)`. */
  function OpenedDelete(s: PageState, r: RecordForm.RecordView): PageState {
    s.(recordToDelete := Some(r), pageError := None, deleteOpen := true)
  }

  /** `handleCloseDeleteRecordDialog`. */
  function ClosedDelete(s: PageState): PageState {
    s.(recordToDelete := None, deleteOpen := false)
  }

  /** Opening the record dialog and closing it again leaves no record, no error and no open dialog behind. */
  lemma OpenThenClose(s: PageState, r: RecordForm.RecordView)
    ensures var t := ClosedModal(OpenedForEdit(s, r));
      !t.modalOpen && t.currentRecord.None? && t.formApiError.None? && t.modalMode == EditMode
    ensures ClosedModal(OpenedForCreate(s)) == ClosedModal(s).(modalMode := CreateMode)
  {
  }

  // ---------------------------------------------------------------- saving

  /** The request `handleSaveRecord` sends once past its guard: none in edit mode without a truthy record id. */
  function SaveRequestOf(mode: Mode, recordId: Option<int>, payload: RecordForm.Payload): Option<SaveRequest> {
    if mode == CreateMode then Some(CreateRequest(payload))
    else if IdTruthy(recordId) then Some(UpdateRequest(recordId.value, payload))
    else None
  }

  /** The message of a call that failed, or `None` when it succeeded. */
  function FailureOf(r: Result<()>): Option<string> {
    if r.Err? then Some(r.error) else None
  }

  /** After the request: a failure's message in the dialog, or else a reload and the dialog closing; saving ends. */
  function SaveEnded(t: PageState, auth: AuthState, id: Option<int>, failure: Option<string>, reloaded: Result<Details>): PageState {
    var u := if failure.None? then ClosedModal(Loaded(t, auth, id, reloaded)) else t.(formApiError := failure);
    u.(isSavingRecord := false)
  }

  /**
   * `handleSaveRecord`: without a token or a truthy asset id, only the dialog error is set;
   * otherwise the errors are cleared, and a request that succeeds (or none at all) is followed
   * by a reload and the dialog closing, while a request that fails puts its message in the
   * dialog; saving ends either way.
   */
  function Saved(s: PageState, auth: AuthState, id: Option<int>, recordId: Option<int>, payload: RecordForm.Payload,
                 saved: Result<()>, reloaded: Result<Details>): PageState
  {
    if !HasToken(auth) || !IdTruthy(id) then s.(formApiError := Some(TokenOrIdMissing))
    else
      var failure := if SaveRequestOf(s.modalMode, recordId, payload).None? then None else FailureOf(saved);
      SaveEnded(s.(isSavingRecord := true, formApiError := None, pageError := None), auth, id, failure, reloaded)
  }

  /** Whether a save logs the session out: through the reload after a successful request. */
  predicate SaveLogsOut(s: PageState, auth: AuthState, id: Option<int>, recordId: Option<int>, payload: RecordForm.Payload,
                        saved: Result<()>, reloaded: Result<Details>)
  {
    HasToken(auth) && IdTruthy(id) && (SaveRequestOf(s.modalMode, recordId, payload).None? || saved.Ok?)
    && LoadLogsOut(auth, id, reloaded)
  }

  lemma SavedPastGuard(s: PageState, auth: AuthState, id: Option<int>, recordId: Option<int>, payload: RecordForm.Payload,
                       saved: Result<()>, reloaded: Result<Details>)
    requires HasToken(auth) && IdTruthy(id)
    ensures var request := SaveRequestOf(s.modalMode, recordId, payload);
      && Saved(s, auth, id, recordId, payload, saved, reloaded) ==
         SaveEnded(s.(isSavingRecord := true, formApiError := None, pageError := None), auth, id,
           if request.None? then None else FailureOf(saved), reloaded)
      && (SaveLogsOut(s, auth, id, recordId, payload, saved, reloaded) <==>
          (request.None? || saved.Ok?) && LoadLogsOut(auth, id, reloaded))
  {
  }

  /**
   * The save outcomes: saving always ends; a missing token or id sends nothing and changes only
   * the dialog error; a failed request keeps the dialog open with its message and the records
   * as they were; a successful one closes the dialog and clears its record and error.
   */
  lemma SaveOutcome(s: PageState, auth: AuthState, id: Option<int>, recordId: Option<int>, payload: RecordForm.Payload,
                    saved: Result<()>, reloaded: Result<Details>)
    ensures var t := Saved(s, auth, id, recordId, payload, saved, reloaded);
      && (!HasToken(auth) || !IdTruthy(id) ==> t == s.(formApiError := Some(TokenOrIdMissing)))
      && (HasToken(auth) && IdTruthy(id) ==> !t.isSavingRecord)
      && (HasToken(auth) && IdTruthy(id) && SaveRequestOf(s.modalMode, recordId, payload).Some? && saved.Err? ==>
            t.modalOpen == s.modalOpen && t.formApiError == Some(saved.error) && t.records == s.records)
      && (HasToken(auth) && IdTruthy(id) && saved.Ok? ==>
            !t.modalOpen && t.currentRecord.None? && t.formApiError.None?)
  {
  }

  // ---------------------------------------------------------------- deleting

  /**
   * `handleConfirmDeleteRecord`: nothing without a record to delete or a token; otherwise the
   * page error is cleared, a successful delete is followed by a reload and the dialog closing,
   * a failed one puts its message on the page; deleting ends either way.
   */
  function Deleted(s: PageState, auth: AuthState, id: Option<int>, deleted: Result<()>, reloaded: Result<Details>): PageState {
    if s.recordToDelete.None? || !HasToken(auth) then s
    else DeleteEnded(s.(isDeletingRecord := true, pageError := None), auth, id, FailureOf(deleted), reloaded)
  }

  /** After the delete: a failure's message on the page, or else a reload and the dialog closing; deleting ends. */
  function DeleteEnded(t: PageState, auth: AuthState, id: Option<int>, failure: Option<string>, reloaded: Result<Details>): PageState {
    var u := if failure.None? then ClosedDelete(Loaded(t, auth, id, reloaded)) else t.(pageError := failure);
    u.(isDeletingRecord := false)
  }

  /** Whether a delete logs the session out: through the reload after a successful delete. */
  predicate DeleteLogsOut(s: PageState, auth: AuthState, id: Option<int>, deleted: Result<()>, reloaded: Result<Details>) {
    s.recordToDelete.Some? && HasToken(auth) && deleted.Ok? && LoadLogsOut(auth, id, reloaded)
  }

  /**
   * The delete outcomes: without a record to delete nothing changes; a failure shows its message
   * on the page with the dialog still open; a success closes the dialog and forgets the record.
   */
  lemma DeleteOutcome(s: PageState, auth: AuthState, id: Option<int>, deleted: Result<()>, reloaded: Result<Details>)
    ensures s.recordToDelete.None? ==> Deleted(s, auth, id, deleted, reloaded) == s
    ensures var t := Deleted(s, auth, id, deleted, reloaded);
      s.recordToDelete.Some? && HasToken(auth) ==>
        && !t.isDeletingRecord
        && (deleted.Err? ==> t.pageError == Some(deleted.error) && t.deleteOpen == s.deleteOpen && t.recordToDelete == s.recordToDelete)
        && (deleted.Ok? ==> !t.deleteOpen && t.recordToDelete.None?)
  {
    if s.recordToDelete.Some? && HasToken(auth) {
      var started := s.(isDeletingRecord := true, pageError := None);
      if deleted.Ok? {
        assert Deleted(s, auth, id, deleted, reloaded) ==
          ClosedDelete(Loaded(started, auth, id, reloaded)).(isDeletingRecord := false);
      } else {
        assert Deleted(s, auth, id, deleted, reloaded) ==
          started.(pageError := Some(deleted.error), isDeletingRecord := false);
      }
    }
  }

  // ---------------------------------------------------------------- the page

  class Page {
    var asset: Option<AssetForm.AssetView>
    var records: seq<RecordForm.RecordView>
    var isLoadingPage: bool
    var pageError: Option<string>
    var formApiError: Option<string>
    var modalOpen: bool
    var modalMode: Mode
    var currentRecord: Option<RecordForm.RecordView>
    var isSavingRecord: bool
    var deleteOpen: bool
    var recordToDelete: Option<RecordForm.RecordView>
    var isDeletingRecord: bool

    function State(): PageState
      reads this
    {
      PageState(asset, records, isLoadingPage, pageError, formApiError, modalOpen, modalMode, currentRecord,
        isSavingRecord, deleteOpen, recordToDelete, isDeletingRecord)
    }

    /** The mount effect, for `Number(assetId)` given as `id`. */
    method Enter(authIsLoading: bool, isAuthenticated: bool, id: Option<int>) returns (e: Entry)
      modifies this
      ensures e == EntryOf(authIsLoading, isAuthenticated, id)
      ensures State() == Entered(old(State()), e)
    {
      if authIsLoading {
        return Wait;
      }
      if isAuthenticated && id.Some? && id.value != 0 {
        return FetchDetails;
      } else if !isAuthenticated {
        return GoToLogin;
      }
      pageError := Some(AssetIdRefused);
      isLoadingPage := false;
      return RejectId;
    }

    /** `loadAssetDetailsAndRecords`, with `fetched` the outcome of the two fetches. */
    method LoadDetails(auth: Provider, id: Option<int>, fetched: Result<Details>)
      modifies this, auth
      ensures State() == Loaded(old(State()), old(auth.State()), id, fetched)
      ensures auth.State() == if LoadLogsOut(old(auth.State()), id, fetched) then LoggedOut(old(auth.State())) else old(auth.State())
    {
      if !auth.isAuthenticated || !(auth.token.Some? && auth.token.value != "") || !(id.Some? && id.value != 0) {
        return;
      }
      isLoadingPage := true;
      pageError := None;
      match fetched {
        case Ok(details) =>
          asset := Some(details.asset);
          records := details.records;
        case Err(message) =>
          pageError := Some(message);
          if Includes(message, TokenInvalid) || Includes(message, TokenRequired) || Includes(message, UpcomingPage.ProfileFetchFailed) {
            auth.Logout();
          }
      }
      isLoadingPage := false;
    }

    method OpenCreateRecordModal()
      modifies this
      ensures State() == OpenedForCreate(old(State()))
    {
      modalMode := CreateMode;
      currentRecord := None;
      formApiError := None;
      modalOpen := true;
    }

    method OpenEditRecordModal(r: RecordForm.RecordView)
      modifies this
      ensures State() == OpenedForEdit(old(State()), r)
    {
      modalMode := EditMode;
      currentRecord := Some(r);
      formApiError := None;
      modalOpen := true;
    }

    method CloseRecordModal()
      modifies this
      ensures State() == ClosedModal(old(State()))
    {
      modalOpen := false;
      currentRecord := None;
      formApiError := None;
    }

    /**
     * `handleSaveRecord(payload, recordId)`, with `saved` the outcome of the request and
     * `reloaded` that of the reload after it; returns the request sent.
     */
    method SaveRecord(auth: Provider, id: Option<int>, recordId: Option<int>, payload: RecordForm.Payload,
                      saved: Result<()>, reloaded: Result<Details>) returns (request: Option<SaveRequest>)
      modifies this, auth
      ensures State() == Saved(old(State()), old(auth.State()), id, recordId, payload, saved, reloaded)
      ensures request == if HasToken(old(auth.State())) && IdTruthy(id) then SaveRequestOf(old(modalMode), recordId, payload) else None
      ensures auth.State() ==
        if SaveLogsOut(old(State()), old(auth.State()), id, recordId, payload, saved, reloaded)
        then LoggedOut(old(auth.State())) else old(auth.State())
    {
      if !(auth.token.Some? && auth.token.value != "") || !(id.Some? && id.value != 0) {
        formApiError := Some(TokenOrIdMissing);
        return None;
      }
      SavedPastGuard(State(), auth.State(), id, recordId, payload, saved, reloaded);
      request := SaveSent(auth, id, recordId, payload, saved, reloaded);
    }

    /** `handleSaveRecord` past its guard: the errors cleared, the request sent, and what follows it. */
    method SaveSent(auth: Provider, id: Option<int>, recordId: Option<int>, payload: RecordForm.Payload,
                    saved: Result<()>, reloaded: Result<Details>) returns (request: Option<SaveRequest>)
      modifies this, auth
      ensures request == SaveRequestOf(old(modalMode), recordId, payload)
      ensures State() == SaveEnded(old(State()).(isSavingRecord := true, formApiError := None, pageError := None),
        old(auth.State()), id, if request.None? then None else FailureOf(saved), reloaded)
      ensures auth.State() ==
        if (request.None? || saved.Ok?) && LoadLogsOut(old(auth.State()), id, reloaded) then LoggedOut(old(auth.State())) else old(auth.State())
    {
      StartSaving();
      if modalMode == CreateMode {
        request := Some(CreateRequest(payload));
      } else if recordId.Some? && recordId.value != 0 {
        request := Some(UpdateRequest(recordId.value, payload));
      } else {
        request := None;
      }
      SaveSettled(auth, id, if request.None? then None else FailureOf(saved), reloaded);
    }

    /** The start of `handleSaveRecord` past its guard: saving, and both errors cleared. */
    method StartSaving()
      modifies this
      ensures State() == old(State()).(isSavingRecord := true, formApiError := None, pageError := None)
    {
      isSavingRecord := true;
      formApiError := None;
      pageError := None;
    }

    /** The end of `handleSaveRecord`: the request's message in the dialog, or a reload and the dialog closing. */
    method SaveSettled(auth: Provider, id: Option<int>, failure: Option<string>, reloaded: Result<Details>)
      modifies this, auth
      ensures State() == SaveEnded(old(State()), old(auth.State()), id, failure, reloaded)
      ensures auth.State() ==
        if failure.None? && LoadLogsOut(old(auth.State()), id, reloaded) then LoggedOut(old(auth.State())) else old(auth.State())
    {
      if failure.None? {
        LoadDetails(auth, id, reloaded);
        CloseRecordModal();
      } else {
        formApiError := failure;
      }
      isSavingRecord := false;
    }

    method OpenDeleteRecordDialog(r: RecordForm.RecordView)
      modifies this
      ensures State() == OpenedDelete(old(State()), r)
    {
      recordToDelete := Some(r);
      pageError := None;
      deleteOpen := true;
    }

    method CloseDeleteRecordDialog()
      modifies this
      ensures State() == ClosedDelete(old(State()))
    {
      recordToDelete := None;
      deleteOpen := false;
    }

    /**
     * `handleConfirmDeleteRecord`, with `deleted` the outcome of the delete and `reloaded`
     * that of the reload after it; returns the id of the record whose delete was requested.
     */
    method ConfirmDeleteRecord(auth: Provider, id: Option<int>, deleted: Result<()>, reloaded: Result<Details>)
      returns (request: Option<int>)
      modifies this, auth
      ensures State() == Deleted(old(State()), old(auth.State()), id, deleted, reloaded)
      ensures request == if old(recordToDelete).Some? && HasToken(old(auth.State())) then Some(old(recordToDelete).value.id) else None
      ensures auth.State() ==
        if DeleteLogsOut(old(State()), old(auth.State()), id, deleted, reloaded)
        then LoggedOut(old(auth.State())) else old(auth.State())
    {
      if recordToDelete.None? || !(auth.token.Some? && auth.token.value != "") {
        return None;
      }
      isDeletingRecord := true;
      pageError := None;
      request := Some(recordToDelete.value.id);
      DeleteSettled(auth, id, FailureOf(deleted), reloaded);
    }

    /** The end of `handleConfirmDeleteRecord`: the failure's message on the page, or a reload and the dialog closing. */
    method DeleteSettled(auth: Provider, id: Option<int>, failure: Option<string>, reloaded: Result<Details>)
      modifies this, auth
      ensures State() == DeleteEnded(old(State()), old(auth.State()), id, failure, reloaded)
      ensures auth.State() ==
        if failure.None? && LoadLogsOut(old(auth.State()), id, reloaded) then LoggedOut(old(auth.State())) else old(auth.State())
    {
      if failure.None? {
        LoadDetails(auth, id, reloaded);
        CloseDeleteRecordDialog();
      } else {
        pageError := failure;
      }
      isDeletingRecord := false;
    }
  }
}
