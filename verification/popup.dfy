/** The extension popup's decisions: which board stays selected after the
    boards load, how a stored selection is normalised, who counts as a paying
    user, where board links lead, and what logging out or a failed load
    clears. Storage writes are returned as values. */
module Popup {
  import opened Types

  /** `BASE_URL` for the development build the constants select. */
  const BaseUrl: string := "http://localhost:3008"

  /** The pricing page non-paying users are sent to. */
  const PricingUrl: string := "https://www.thestickyapp.com/pricing"

  // `USER_TYPE`
  const FREE: int := 1
  const MONTHLY_SUBSCRIPTION: int := 2
  const ONE_TIME_FULL_ACCESS: int := 3

  // `SUBSCRIPTION_LIFECYCLE`
  const INVALID: int := 0
  const STARTED: int := 1
  const PAID: int := 2
  const CANCELLED: int := 3

  datatype UserProfile = UserProfile(name: string, email: string, picture: string)

  datatype PaymentStatus = PaymentStatus(userType: int, subscriptionLifeCycle: int)

  /** A value read from storage for `lastSelectedBoardId`: missing, `null`,
      or a string (the old default board was stored as the string "null"). */
  datatype StoredValue = Missing | Null | Text(s: string)

  /** A write of `lastSelectedBoardId` (a value or `null`), or none. */
  datatype SelectionWrite = NoWrite | WriteSelection(value: Option<string>)

  /** The popup's state. */
  datatype State = State(
    code: string,
    isValidCode: bool,
    isLoading: bool,
    boards: seq<ServerBoard>,
    lastSelectedBoardId: Option<string>,
    userProfile: Option<UserProfile>,
    paymentStatus: Option<PaymentStatus>,
    imageError: bool,
    showDraggableIcon: bool)

  /** What the three parallel fetches of `loadBoards` gave. */
  datatype LoadResult = LoadFailed | Loaded(boards: seq<ServerBoard>, profile: UserProfile, payment: PaymentStatus)

  /** The state after a load, and the storage writes it made. */
  datatype Load = Load(state: State, codeWrite: Option<string>, selectionWrite: SelectionWrite)

  /** Some listed board has this id. */
  predicate Listed(boards: seq<ServerBoard>, id: string) {
    exists i :: 0 <= i < |boards| && boards[i].id == id
  }

  /** The selection after the boards load, and the write it makes: a
      non-empty stored id that names a listed board is kept (no write);
      otherwise the first board is selected and stored; with no boards the
      selection and the stored value become null. */
  function SelectAfterLoad(boards: seq<ServerBoard>, stored: Option<string>): (r: (Option<string>, SelectionWrite))
    ensures r.0.None? <==> |boards| == 0
    ensures r.0.Some? ==> Listed(boards, r.0.value)
    ensures Truthy(stored) && Listed(boards, stored.value) ==> r == (stored, NoWrite)
    ensures |boards| > 0 && !(Truthy(stored) && Listed(boards, stored.value)) ==>
      r == (Some(boards[0].id), WriteSelection(Some(boards[0].id)))
    ensures |boards| == 0 ==> r.1 == WriteSelection(None)
  {
    if |boards| > 0 then
      if !Truthy(stored) || !Listed(boards, stored.value) then
        (Some(boards[0].id), WriteSelection(Some(boards[0].id)))
      else
        (stored, NoWrite)
    else
      (None, WriteSelection(None))
  }

  /** Selecting after a load is stable: loading the same boards again with
      the resulting selection stored keeps it and writes nothing. */
  lemma SelectAfterLoadStable(boards: seq<ServerBoard>, stored: Option<string>)
    requires |boards| > 0
    requires forall i :: 0 <= i < |boards| ==> boards[i].id != ""
    ensures var first := SelectAfterLoad(boards, stored);
      SelectAfterLoad(boards, first.0) == (first.0, NoWrite)
  {
  }

  /** The stored selection as the popup first shows it, and whether it is
      rewritten to null: `null` and the string "null" normalise to null (and
      are written back as null); any other falsy value reads as null; any other
      string is kept. */
  function NormaliseStored(v: StoredValue): (r: (Option<string>, bool))
    ensures r.1 <==> v == Null || v == Text("null")
    ensures r.0.None? <==> !v.Text? || v.s == "" || v.s == "null"
    ensures r.0.Some? ==> v == Text(r.0.value)
  {
    match v
    case Null => (None, true)
    case Text(s) => if s == "null" then (None, true) else if s == "" then (None, false) else (Some(s), false)
    case Missing => (None, false)
  }

  /** The pro-user test of `handleNewBoard`, as written: a status exists, the
      type is monthly or one-time, and a monthly type has been paid. */
  function IsProUser(p: Option<PaymentStatus>): (r: bool)
    ensures r <==> p.Some? && (p.value.userType == ONE_TIME_FULL_ACCESS
                               || (p.value.userType == MONTHLY_SUBSCRIPTION && p.value.subscriptionLifeCycle == PAID))
  {
    && p.Some?
    && (p.value.userType == MONTHLY_SUBSCRIPTION || p.value.userType == ONE_TIME_FULL_ACCESS)
    && (p.value.userType != MONTHLY_SUBSCRIPTION || p.value.subscriptionLifeCycle == PAID)
  }

  /** Free users and users without a payment status are never pro; a
      monthly subscriber is pro only once paid. */
  lemma NotProCases(lifeCycle: int, userType: int)
    ensures !IsProUser(None)
    ensures !IsProUser(Some(PaymentStatus(FREE, lifeCycle)))
    ensures lifeCycle != PAID ==> !IsProUser(Some(PaymentStatus(MONTHLY_SUBSCRIPTION, lifeCycle)))
    ensures IsProUser(Some(PaymentStatus(ONE_TIME_FULL_ACCESS, lifeCycle)))
  {
  }

  /** Where "new board" leads: the dashboard's create-board view for pro
      users, the pricing page for everyone else. */
  function NewBoardTarget(p: Option<PaymentStatus>): (url: string)
    ensures IsProUser(p) ==> url == BaseUrl + "/app?createBoard=true"
    ensures !IsProUser(p) ==> url == PricingUrl
  {
    if IsProUser(p) then BaseUrl + "/app?createBoard=true" else PricingUrl
  }

  /** `handleBoardRedirect`: the dashboard, opened on the board when an id is
      given. */
  function BoardRedirect(boardId: string): (url: string)
    ensures boardId == "" ==> url == BaseUrl + "/app"
    ensures boardId != "" ==> url == BaseUrl + "/app" + "?boardId=" + boardId
  {
    var baseUrl := BaseUrl + "/app";
    if boardId != "" then baseUrl + "?boardId=" + boardId else baseUrl
  }

  /** The board id a dashboard link opens on ("" for the bare dashboard), or
      nothing for a URL that is not a dashboard link. */
  function BoardOfLink(url: string): Option<string> {
    var baseUrl := BaseUrl + "/app";
    var query := "?boardId=";
    if url == baseUrl then Some("")
    else if |url| > |baseUrl| + |query| && url[..|baseUrl| + |query|] == baseUrl + query then
      Some(url[|baseUrl| + |query|..])
    else None
  }

  /** The redirect URL determines the board: reading the board back from the
      link gives the id it was built from, so distinct boards get distinct
      links. */
  lemma RedirectRoundTrip(boardId: string)
    ensures BoardOfLink(BoardRedirect(boardId)) == Some(boardId)
  {
    var baseUrl := BaseUrl + "/app";
    var prefix := baseUrl + "?boardId=";
    if boardId != "" {
      var url := BoardRedirect(boardId);
      assert url == prefix + boardId;
      assert url[..|prefix|] == prefix;
      assert url[|prefix|..] == boardId;
      assert url != baseUrl by { assert |url| > |baseUrl|; }
    }
  }

  /** `loadBoards(userCode)`: on success the boards, profile and payment
      status are shown, the code is valid and stored, and the selection is
      settled by `SelectAfterLoad`; on failure the code is invalid and the
      boards, profile and payment status are cleared. Loading ends either way. */
  function LoadBoards(s: State, userCode: string, result: LoadResult, stored: Option<string>): (r: Load)
    ensures !r.state.isLoading
    ensures result.LoadFailed? ==>
      && !r.state.isValidCode && r.state.boards == [] && r.state.userProfile.None? && r.state.paymentStatus.None?
      && r.state.lastSelectedBoardId == s.lastSelectedBoardId
      && r.codeWrite.None? && r.selectionWrite == NoWrite
    ensures result.Loaded? ==>
      && r.state.isValidCode && r.state.boards == result.boards && !r.state.imageError
      && r.state.userProfile == Some(result.profile) && r.state.paymentStatus == Some(result.payment)
      && r.codeWrite == Some(userCode)
      && (r.state.lastSelectedBoardId.None? <==> |result.boards| == 0)
      && (r.state.lastSelectedBoardId.Some? ==> Listed(result.boards, r.state.lastSelectedBoardId.value))
    ensures r.state.code == s.code && r.state.showDraggableIcon == s.showDraggableIcon
  {
    match result
    case LoadFailed =>
      Load(s.(isValidCode := false, boards := [], userProfile := None, paymentStatus := None, isLoading := false),
           None, NoWrite)
    case Loaded(boards, profile, payment) =>
      var selection := SelectAfterLoad(boards, stored);
      Load(s.(boards := boards, userProfile := Some(profile), paymentStatus := Some(payment),
              isValidCode := true, imageError := false, lastSelectedBoardId := selection.0, isLoading := false),
           Some(userCode), selection.1)
  }

  /** What local storage holds under the keys the popup reads. */
  datatype Storage = Storage(code: Option<string>, lastSelectedBoardId: StoredValue, showDraggableIcon: Option<bool>)

  /** Local storage after `chrome.storage.local.clear()`. */
  const Cleared: Storage := Storage(None, Missing, None)

  /** `handleLogout`: local storage is cleared, and the code, validity,
      boards, selection, profile, payment status and image-error flag are
      reset. Returns the state and the storage afterwards. */
  function Logout(s: State): (r: (State, Storage))
    ensures r.1 == Cleared
    ensures r.0.code == "" && !r.0.isValidCode && r.0.boards == [] && r.0.lastSelectedBoardId.None?
    ensures r.0.userProfile.None? && r.0.paymentStatus.None? && !r.0.imageError
    ensures r.0.isLoading == s.isLoading && r.0.showDraggableIcon == s.showDraggableIcon
  {
    (s.(code := "", isValidCode := false, boards := [], lastSelectedBoardId := None,
        userProfile := None, paymentStatus := None, imageError := false),
     Cleared)
  }

  /** After logging out, the new-board button leads to the pricing page. */
  lemma LoggedOutIsNotPro(s: State)
    ensures NewBoardTarget(Logout(s).0.paymentStatus) == PricingUrl
  {
  }

  /** Logging out is remembered: a popup opened afterwards reads the cleared
      storage, starts no load, shows no selection, rewrites nothing and shows
      the floating button. */
  lemma ReopenAfterLogout(s: State, reopened: State)
    ensures var stored := Logout(s).1;
      var r := Open(reopened, stored.code, stored.lastSelectedBoardId, stored.showDraggableIcon);
      && !r.1 && r.0.lastSelectedBoardId.None? && !r.2 && r.0.showDraggableIcon
      && r.0.code == reopened.code && r.0.isValidCode == reopened.isValidCode
  {
  }

  /** `handleBoardClick`: the clicked board becomes the selection and is stored. */
  function BoardClick(s: State, boardId: string): (r: (State, SelectionWrite))
    ensures r.0.lastSelectedBoardId == Some(boardId) && r.1 == WriteSelection(Some(boardId))
    ensures r.0.(lastSelectedBoardId := s.lastSelectedBoardId) == s
  {
    (s.(lastSelectedBoardId := Some(boardId)), WriteSelection(Some(boardId)))
  }

  /** The popup's opening read of storage: a stored code is taken as valid
      and triggers a load; the stored selection is normalised; the
      floating-button setting defaults to on. Returns the state, whether a
      load starts, and whether the selection is rewritten to null. */
  function Open(s: State, storedCode: Option<string>, storedSelection: StoredValue,
                storedShowIcon: Option<bool>): (r: (State, bool, bool))
    ensures r.1 <==> Truthy(storedCode)
    ensures Truthy(storedCode) ==> r.0.code == storedCode.value && r.0.isValidCode
    ensures !Truthy(storedCode) ==> r.0.code == s.code && r.0.isValidCode == s.isValidCode
    ensures r.0.lastSelectedBoardId == NormaliseStored(storedSelection).0
    ensures r.2 <==> storedSelection == Null || storedSelection == Text("null")
    ensures r.0.showDraggableIcon <==> storedShowIcon != Some(false)
  {
    var withCode := if Truthy(storedCode) then s.(code := storedCode.value, isValidCode := true) else s;
    var selection := NormaliseStored(storedSelection);
    (withCode.(lastSelectedBoardId := selection.0, showDraggableIcon := FlagDefaultOn(storedShowIcon)),
     Truthy(storedCode), selection.1)
  }

  /** The storage listener: a new non-empty code in local storage is taken as
      valid and triggers a load; anything else is ignored. Returns the state
      and whether a load starts. */
  function CodeChanged(s: State, localArea: bool, newCode: Option<string>): (r: (State, bool))
    ensures r.1 <==> localArea && Truthy(newCode)
    ensures r.1 ==> r.0.code == newCode.value && r.0.isValidCode
    ensures !r.1 ==> r.0 == s
  {
    if localArea && Truthy(newCode) then (s.(code := newCode.value, isValidCode := true), true)
    else (s, false)
  }
}
