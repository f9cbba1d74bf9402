/** The content script's note collection: every note of the user (`notes`), the
    subset rendered on the page (`notesToRender`), and the optimistic create,
    move and delete operations with their rollbacks. Each remote call is an
    explicit `Outcome`; the page URL (`window.location.href`) is a parameter. */
module Container {
  import opened Types
  import opened Seqs

  /** A board as the content script keeps it. */
  datatype Board = Board(id: string, name: string)

  /** `note.data.data` of a stored note. */
  datatype NoteBody = NoteBody(content: NoteText, color: Color, size: Option<NoteSize>)

  /** `note.data` of a stored note: the client id it was created under (absent
      on old records), its position and its body. */
  datatype NoteData = NoteData(id: Option<string>, position: Position, body: NoteBody)

  /** A note record as the remote store lists it. */
  datatype ServerNote = ServerNote(id: string, websiteUrl: string, boardId: Option<string>, data: NoteData)

  /** What `fetchNotes` gave: it threw, it returned nothing (no access code),
      or it returned the records. */
  datatype NotesFetch = NotesFailed | NoNotes | Notes(records: seq<ServerNote>)

  /** What `fetchBoards` gave: it threw, or it returned the boards. */
  datatype BoardsFetch = BoardsFailed | BoardsListed(list: seq<ServerBoard>)

  /** Where a `CREATE_STICKY` message asks for the note: nowhere in particular
      (use the last right-click), an explicit point, or the viewport middle. */
  datatype PositionRequest = Unspecified | At(p: Position) | Middle

  /** The component's state. `lastClick` is the last right-click in page
      coordinates; `lastCreatedNoteId` is the note that gets focus. */
  datatype State = State(
    notes: seq<StickyNote>,
    notesToRender: seq<StickyNote>,
    currentUrl: string,
    boards: seq<Board>,
    lastCreatedNoteId: Option<string>,
    showDraggableIcon: bool,
    lastClick: Position)

  /** The body of a create request sent to the remote store. */
  datatype CreateRequest = CreateRequest(
    websiteUrl: string, boardId: Option<string>, noteId: string,
    position: Position, content: Doc, color: Color, title: string)

  /** The result of an optimistic create: the state after the remote call
      settled, the request that was sent, and the reported success. */
  datatype Created = Created(state: State, request: CreateRequest, success: bool)

  /** The result of an optimistic delete: the state after the remote call
      settled, and the id sent to the remote store (none when no call was made). */
  datatype Deleted = Deleted(state: State, request: Option<string>)

  // ---------------------------------------------------------------------
  // Predicates over note lists

  /** The predicate "this note belongs on page `url`". */
  function HasUrl(url: string): StickyNote -> bool {
    (n: StickyNote) => n.websiteUrl == url
  }

  /** The predicate "this note does not carry id `id`". */
  function LacksId(id: string): StickyNote -> bool {
    (n: StickyNote) => n.id != id
  }

  /** The notes that render on page `url`: the notes of that page, in their
      order in `notes`, each as often as it occurs there, and nothing else. */
  function ForPage(notes: seq<StickyNote>, url: string): (r: seq<StickyNote>)
    ensures forall i :: 0 <= i < |r| ==> r[i].websiteUrl == url
    ensures forall i :: 0 <= i < |notes| && notes[i].websiteUrl == url ==> notes[i] in r
    ensures forall n :: n in r ==> n in notes
    ensures SelectsInOrder(r, notes, HasUrl(url))
    ensures forall i :: 0 <= i < |notes| ==>
      multiset(r)[notes[i]] == if notes[i].websiteUrl == url then multiset(notes)[notes[i]] else 0
  {
    FilterSelects(notes, HasUrl(url));
    Filter(notes, HasUrl(url))
  }

  /** The notes of `notes` other than those with id `id`: the others, in
      order, each as often as it occurs there. */
  function WithoutId(notes: seq<StickyNote>, id: string): (r: seq<StickyNote>)
    ensures forall i :: 0 <= i < |r| ==> r[i].id != id
    ensures forall i :: 0 <= i < |notes| && notes[i].id != id ==> notes[i] in r
    ensures forall n :: n in r ==> n in notes
    ensures SelectsInOrder(r, notes, LacksId(id))
    ensures forall i :: 0 <= i < |notes| ==>
      multiset(r)[notes[i]] == if notes[i].id != id then multiset(notes)[notes[i]] else 0
  {
    FilterSelects(notes, LacksId(id));
    Filter(notes, LacksId(id))
  }

  /** The render set is exactly the notes of page `url`. */
  ghost predicate Consistent(s: State, url: string) {
    s.notesToRender == ForPage(s.notes, url)
  }

  /** Ids are keys: no two notes share one. */
  ghost predicate UniqueIds(notes: seq<StickyNote>) {
    forall i, j :: 0 <= i < |notes| && 0 <= j < |notes| && notes[i].id == notes[j].id ==> i == j
  }

  /** `id` is not used by any note. */
  predicate Fresh(notes: seq<StickyNote>, id: string) {
    forall i :: 0 <= i < |notes| ==> notes[i].id != id
  }

  // ---------------------------------------------------------------------
  // Loading

  /** The client-side note for a stored record: the id it was created under
      when that is present and non-empty, the record id otherwise. */
  function FromServer(r: ServerNote): (n: StickyNote)
    ensures Truthy(r.data.id) ==> n.id == r.data.id.value
    ensures !Truthy(r.data.id) ==> n.id == r.id
    ensures n.websiteUrl == r.websiteUrl && n.boardId == r.boardId
    ensures n.position == r.data.position && n.text == r.data.body.content
    ensures n.color == r.data.body.color && n.size == r.data.body.size
  {
    StickyNote(
      id := OrNull(r.data.id).GetOr(r.id),
      websiteUrl := r.websiteUrl,
      boardId := r.boardId,
      position := r.data.position,
      text := r.data.body.content,
      color := r.data.body.color,
      size := r.data.body.size)
  }

  /** `loadNotes`: replace both lists from the remote store. A failed fetch, or
      one that returned nothing, leaves the state alone. */
  function LoadNotes(s: State, fetched: NotesFetch, pageUrl: string): (r: State)
    ensures !fetched.Notes? ==> r == s
    ensures fetched.Notes? ==>
      && |r.notes| == |fetched.records|
      && (forall i :: 0 <= i < |r.notes| ==> r.notes[i] == FromServer(fetched.records[i]))
      && Consistent(r, pageUrl)
    ensures r.(notes := s.notes, notesToRender := s.notesToRender) == s
  {
    match fetched
    case Notes(records) =>
      var notes := Map(records, FromServer);
      s.(notes := notes, notesToRender := ForPage(notes, pageUrl))
    case _ => s
  }

  /** `loadBoards`: keep each board's id and name; a failed fetch keeps the
      boards already shown. */
  function LoadBoards(s: State, fetched: BoardsFetch): (r: State)
    ensures fetched.BoardsFailed? ==> r == s
    ensures fetched.BoardsListed? ==>
      && |r.boards| == |fetched.list|
      && forall i :: 0 <= i < |r.boards| ==>
           r.boards[i].id == fetched.list[i].id && r.boards[i].name == fetched.list[i].boardName
    ensures r.(boards := s.boards) == s
  {
    match fetched
    case BoardsListed(list) => s.(boards := Map(list, (b: ServerBoard) => Board(b.id, b.boardName)))
    case BoardsFailed => s
  }

  // ---------------------------------------------------------------------
  // Optimistic create

  /** The note an optimistic create inserts. */
  function NewNote(noteId: string, text: string, position: Position, pageUrl: string, storedBoard: Option<string>): StickyNote {
    StickyNote(noteId, pageUrl, OrNull(storedBoard), position, Rich(SeedDoc(text)), GREEN, Some(Small))
  }

  /** The optimistic half of `handleOptimisticCreate`: append the new note
      and re-filter the render set. */
  function BeginCreate(s: State, pageUrl: string, noteId: string, text: string,
                       position: Position, storedBoard: Option<string>): (r: State)
    ensures |r.notes| == |s.notes| + 1 && r.notes[..|s.notes|] == s.notes
    ensures var n := r.notes[|s.notes|];
      && n.id == noteId && n.position == position && n.websiteUrl == pageUrl
      && n.color == GREEN && n.size == Some(Small)
      && n.boardId == OrNull(storedBoard)
      && n.text == Rich(SeedDoc(text))
    ensures Consistent(r, pageUrl)
    ensures r.lastCreatedNoteId == Some(noteId)
    ensures r.currentUrl == s.currentUrl && r.boards == s.boards && r.lastClick == s.lastClick
  {
    var notes := s.notes + [NewNote(noteId, text, position, pageUrl, storedBoard)];
    assert notes[..|s.notes|] == s.notes;
    s.(notes := notes, notesToRender := ForPage(notes, pageUrl), lastCreatedNoteId := Some(noteId))
  }

  /** The rollback half of `handleOptimisticCreate`: drop every note with the
      new id from the current notes and re-filter. The other notes keep their
      order and multiplicity. */
  function RollbackCreate(s: State, pageUrl: string, noteId: string): (r: State)
    ensures forall n :: n in r.notes <==> n in s.notes && n.id != noteId
    ensures SelectsInOrder(r.notes, s.notes, LacksId(noteId))
    ensures forall i :: 0 <= i < |s.notes| ==>
      multiset(r.notes)[s.notes[i]] == if s.notes[i].id != noteId then multiset(s.notes)[s.notes[i]] else 0
    ensures Consistent(r, pageUrl)
    ensures r.(notes := s.notes, notesToRender := s.notesToRender) == s
  {
    var notes := WithoutId(s.notes, noteId);
    s.(notes := notes, notesToRender := ForPage(notes, pageUrl))
  }

  /** `handleOptimisticCreate(text, position)` with the remote create's outcome:
      the note appears at once; it stays on success and is removed on failure.
      `noteId` is the freshly generated uuid, `storedBoard` the stored
      `lastSelectedBoardId`. */
  function OptimisticCreate(s: State, pageUrl: string, noteId: string, text: string,
                            position: Position, storedBoard: Option<string>,
                            outcome: Outcome): (r: Created)
    ensures r.success <==> outcome == Succeeded
    ensures r.request == CreateRequest(pageUrl, OrNull(storedBoard), noteId, position, SeedDoc(text), GREEN, "")
    ensures outcome == Succeeded ==> r.state == BeginCreate(s, pageUrl, noteId, text, position, storedBoard)
    ensures outcome == Failed ==> Fresh(r.state.notes, noteId) && Consistent(r.state, pageUrl)
  {
    var request := CreateRequest(pageUrl, OrNull(storedBoard), noteId, position, SeedDoc(text), GREEN, "");
    var begun := BeginCreate(s, pageUrl, noteId, text, position, storedBoard);
    match outcome
    case Succeeded => Created(begun, request, true)
    case Failed => Created(RollbackCreate(begun, pageUrl, noteId), request, false)
  }

  /** The create request describes exactly the note that was inserted, except
      that the request carries no size. */
  lemma CreateRequestMatchesNote(s: State, pageUrl: string, noteId: string, text: string,
                                 position: Position, storedBoard: Option<string>, outcome: Outcome)
    ensures var r := OptimisticCreate(s, pageUrl, noteId, text, position, storedBoard, outcome);
      var n := BeginCreate(s, pageUrl, noteId, text, position, storedBoard).notes[|s.notes|];
      && r.request.noteId == n.id && r.request.position == n.position
      && Rich(r.request.content) == n.text && r.request.color == n.color
      && r.request.websiteUrl == n.websiteUrl && r.request.boardId == n.boardId
  {
  }

  /** Rollback is exact: when the new id is fresh and the render set was
      consistent, a failed create leaves both lists as they were. */
  lemma CreateFailureRestores(s: State, pageUrl: string, noteId: string, text: string,
                              position: Position, storedBoard: Option<string>)
    requires Fresh(s.notes, noteId)
    requires Consistent(s, pageUrl)
    ensures var r := OptimisticCreate(s, pageUrl, noteId, text, position, storedBoard, Failed);
      && !r.success
      && r.state.notes == s.notes
      && r.state.notesToRender == s.notesToRender
      && r.state.currentUrl == s.currentUrl && r.state.boards == s.boards
  {
    var n := NewNote(noteId, text, position, pageUrl, storedBoard);
    WithoutFreshAppended(s.notes, n);
  }

  /** Removing the id of a note appended to a list that lacks that id gives
      back the list. */
  lemma WithoutFreshAppended(notes: seq<StickyNote>, n: StickyNote)
    requires Fresh(notes, n.id)
    ensures WithoutId(notes + [n], n.id) == notes
  {
    FilterAppend(notes, [n], LacksId(n.id));
    FilterKeepsAll(notes, LacksId(n.id));
    FilterDropsAll([n], LacksId(n.id));
    assert notes + [] == notes;
  }

  /** Creating on a page that shows no note, whatever the user has on other
      pages: a successful create renders exactly the new note, at the
      requested point, green, small, on that page; a failed create of a fresh
      id renders nothing again. */
  lemma CreateOnEmptyPage(s: State, pageUrl: string, noteId: string, text: string,
                          position: Position, storedBoard: Option<string>)
    requires ForPage(s.notes, pageUrl) == []
    ensures var r := OptimisticCreate(s, pageUrl, noteId, text, position, storedBoard, Succeeded);
      var n := NewNote(noteId, text, position, pageUrl, storedBoard);
      && r.success
      && |r.state.notes| == |s.notes| + 1 && r.state.notes[|s.notes|] == n
      && r.state.notesToRender == [n]
      && n.id == noteId && n.position == position && n.websiteUrl == pageUrl
      && n.color == GREEN && n.size == Some(Small)
    ensures Fresh(s.notes, noteId) ==>
      var r := OptimisticCreate(s, pageUrl, noteId, text, position, storedBoard, Failed);
      !r.success && r.state.notesToRender == []
  {
    var n := NewNote(noteId, text, position, pageUrl, storedBoard);
    FilterAppend(s.notes, [n], HasUrl(pageUrl));
    assert ForPage([n], pageUrl) == [n];
    if Fresh(s.notes, noteId) {
      WithoutFreshAppended(s.notes, n);
    }
  }

  // ---------------------------------------------------------------------
  // Moving

  /** The per-note update `note.id === noteId ? { ...note, position } : note`. */
  function MoveIf(noteId: string, position: Position): StickyNote -> StickyNote {
    (n: StickyNote) => if n.id == noteId then n.(position := position) else n
  }

  /** `handlePositionChange`: give the notes with id `noteId` the new position,
      in both lists. */
  function PositionChange(s: State, noteId: string, position: Position): (r: State)
    ensures |r.notes| == |s.notes| && |r.notesToRender| == |s.notesToRender|
    ensures forall i :: 0 <= i < |s.notes| ==>
      && r.notes[i].(position := s.notes[i].position) == s.notes[i]
      && (s.notes[i].id == noteId ==> r.notes[i].position == position)
      && (s.notes[i].id != noteId ==> r.notes[i] == s.notes[i])
    ensures forall i :: 0 <= i < |s.notesToRender| ==>
      && r.notesToRender[i].(position := s.notesToRender[i].position) == s.notesToRender[i]
      && (s.notesToRender[i].id == noteId ==> r.notesToRender[i].position == position)
      && (s.notesToRender[i].id != noteId ==> r.notesToRender[i] == s.notesToRender[i])
    ensures r.(notes := s.notes, notesToRender := s.notesToRender) == s
  {
    s.(notes := Map(s.notes, MoveIf(noteId, position)),
       notesToRender := Map(s.notesToRender, MoveIf(noteId, position)))
  }

  /** Moving a note keeps the render set equal to the page's notes: a position
      change never changes which page a note belongs to. */
  lemma PositionChangeKeepsConsistent(s: State, noteId: string, position: Position, url: string)
    requires Consistent(s, url)
    ensures Consistent(PositionChange(s, noteId, position), url)
  {
    FilterMapCommute(s.notes, HasUrl(url), MoveIf(noteId, position));
  }

  // ---------------------------------------------------------------------
  // Optimistic delete

  /** `notes.find(note => note.id === id)`: the first note with that id. */
  function FindById(notes: seq<StickyNote>, id: string): (r: Option<StickyNote>)
    ensures r.None? <==> Fresh(notes, id)
    ensures r.Some? ==> r.value in notes && r.value.id == id
    ensures r.Some? ==> exists i :: 0 <= i < |notes| && notes[i] == r.value && Fresh(notes[..i], id)
  {
    if |notes| == 0 then None
    else if notes[0].id == id then Some(notes[0])
    else
      var r := FindById(notes[1..], id);
      if r.Some? then
        var i :| 0 <= i < |notes[1..]| && notes[1..][i] == r.value && Fresh(notes[1..][..i], id);
        assert notes[..i + 1] == [notes[0]] + notes[1..][..i];
        r
      else r
  }

  /** The optimistic half of a delete: every note with the id leaves `notes`,
      and the render set is re-filtered from what remains. */
  function Removed(s: State, noteId: string, pageUrl: string): (r: State)
    ensures forall n :: n in r.notes <==> n in s.notes && n.id != noteId
    ensures SelectsInOrder(r.notes, s.notes, LacksId(noteId))
    ensures Consistent(r, pageUrl)
    ensures r.(notes := s.notes, notesToRender := s.notesToRender) == s
  {
    var filtered := WithoutId(s.notes, noteId);
    s.(notes := filtered, notesToRender := ForPage(filtered, pageUrl))
  }

  /** The rollback of a failed delete: the captured note is appended to the
      current notes, and to the current render set, which is filtered again.
      A consistent render set stays consistent. */
  function Restored(current: State, deleted: StickyNote, pageUrl: string): (r: State)
    ensures |r.notes| > 0 && r.notes[|r.notes| - 1] == deleted && r.notes[..|r.notes| - 1] == current.notes
    ensures Consistent(current, pageUrl) ==> Consistent(r, pageUrl)
    ensures r.(notes := current.notes, notesToRender := current.notesToRender) == current
  {
    var notes := current.notes + [deleted];
    assert notes[..|current.notes|] == current.notes;
    RefilterAppend(current.notes, deleted, pageUrl);
    current.(notes := notes, notesToRender := ForPage(current.notesToRender + [deleted], pageUrl))
  }

  /** `handleOptimisticDelete(noteId)` with the remote delete's outcome. An id
      that no note has changes nothing and calls nothing. Otherwise every note
      with that id leaves both lists at once; on failure the captured note
      (the first with that id) is appended back, with every field intact, and
      re-enters the render set only if it is on this page. */
  function OptimisticDelete(s: State, noteId: string, pageUrl: string, outcome: Outcome): (r: Deleted)
    ensures Fresh(s.notes, noteId) ==> r == Deleted(s, None)
    ensures !Fresh(s.notes, noteId) ==> r.request == Some(noteId)
    ensures !Fresh(s.notes, noteId) && outcome == Succeeded ==>
      && (forall n :: n in r.state.notes <==> n in s.notes && n.id != noteId)
      && SelectsInOrder(r.state.notes, s.notes, LacksId(noteId))
      && Consistent(r.state, pageUrl)
    ensures !Fresh(s.notes, noteId) && outcome == Failed ==>
      && |r.state.notes| > 0
      && r.state.notes[|r.state.notes| - 1] == FindById(s.notes, noteId).value
      && r.state.notes[..|r.state.notes| - 1] == WithoutId(s.notes, noteId)
      && Consistent(r.state, pageUrl)
    ensures r.state.(notes := s.notes, notesToRender := s.notesToRender) == s
  {
    match FindById(s.notes, noteId)
    case None => Deleted(s, None)
    case Some(deleted) =>
      var removed := Removed(s, noteId, pageUrl);
      match outcome
      case Succeeded => Deleted(removed, Some(noteId))
      case Failed => Deleted(Restored(removed, deleted, pageUrl), Some(noteId))
  }

  /** Re-filtering the page's notes after appending one note is filtering the
      whole list with the note appended. */
  lemma RefilterAppend(notes: seq<StickyNote>, d: StickyNote, url: string)
    ensures ForPage(ForPage(notes, url) + [d], url) == ForPage(notes + [d], url)
  {
    FilterIdempotent(notes, HasUrl(url));
    FilterAppend(ForPage(notes, url), [d], HasUrl(url));
    FilterAppend(notes, [d], HasUrl(url));
  }

  /** With unique ids, removing the notes with the id of the note at index `i`
      removes just that note. */
  lemma WithoutUniqueId(notes: seq<StickyNote>, i: nat)
    requires UniqueIds(notes)
    requires i < |notes|
    ensures WithoutId(notes, notes[i].id) == notes[..i] + notes[i + 1..]
    ensures multiset(WithoutId(notes, notes[i].id) + [notes[i]]) == multiset(notes)
  {
    RemoveOnly(notes, LacksId(notes[i].id), i);
    SplitAround(notes, i);
    assert multiset(notes[..i] + notes[i + 1..] + [notes[i]]) == multiset(notes[..i] + [notes[i]] + notes[i + 1..]);
  }

  /** A failed delete restores the note with every field intact: when ids are
      unique, the notes afterwards are the same notes as before (a
      permutation; the restored note is last) and the render set is again
      exactly the page's notes. */
  lemma DeleteFailureRestores(s: State, noteId: string, pageUrl: string)
    requires UniqueIds(s.notes)
    requires !Fresh(s.notes, noteId)
    ensures var r := OptimisticDelete(s, noteId, pageUrl, Failed).state;
      && multiset(r.notes) == multiset(s.notes)
      && r.notes[|r.notes| - 1] in s.notes && r.notes[|r.notes| - 1].id == noteId
      && Consistent(r, pageUrl)
  {
    var i :| 0 <= i < |s.notes| && s.notes[i].id == noteId;
    var d := FindById(s.notes, noteId).value;
    assert d == s.notes[i];
    var filtered := WithoutId(s.notes, noteId);
    var r := OptimisticDelete(s, noteId, pageUrl, Failed).state;
    assert r.notes == filtered + [d];
    assert r.notesToRender == ForPage(ForPage(filtered, pageUrl) + [d], pageUrl);
    WithoutUniqueId(s.notes, i);
    RefilterAppend(filtered, d, pageUrl);
  }

  /** Whether a note restored by a failed delete is rendered depends only on
      its page. */
  lemma DeleteFailureRendersIffOnPage(s: State, noteId: string, pageUrl: string)
    requires !Fresh(s.notes, noteId)
    ensures var d := FindById(s.notes, noteId).value;
      var r := OptimisticDelete(s, noteId, pageUrl, Failed).state;
      d in r.notesToRender <==> d.websiteUrl == pageUrl
  {
    var d := FindById(s.notes, noteId).value;
    var r := OptimisticDelete(s, noteId, pageUrl, Failed).state;
    assert r.notesToRender == ForPage(r.notes, pageUrl);
    var last := |r.notes| - 1;
    assert r.notes[last] == d;
    if d in r.notesToRender {
      var k :| 0 <= k < |r.notesToRender| && r.notesToRender[k] == d;
    }
  }

  // ---------------------------------------------------------------------
  // Session and navigation

  /** `resetState`, run on `LOGOUT`: no notes, nothing rendered, no URL, no
      boards. */
  function Logout(s: State): (r: State)
    ensures r.notes == [] && r.notesToRender == [] && r.currentUrl == "" && r.boards == []
    ensures forall url :: Consistent(r, url)
    ensures r.(notes := s.notes, notesToRender := s.notesToRender, currentUrl := s.currentUrl, boards := s.boards) == s
  {
    s.(notes := [], notesToRender := [], currentUrl := "", boards := [])
  }

  /** Both lists and the boards of `after` are what loading `notes` and
      `boards` into `before` gives: a failed or empty notes fetch leaves the
      note lists, a failed boards fetch leaves the boards. */
  ghost predicate Reloaded(before: State, after: State, notes: NotesFetch, boards: BoardsFetch, pageUrl: string) {
    && (!notes.Notes? ==> after.notes == before.notes && after.notesToRender == before.notesToRender)
    && (notes.Notes? ==>
          && |after.notes| == |notes.records|
          && (forall i :: 0 <= i < |after.notes| ==> after.notes[i] == FromServer(notes.records[i]))
          && Consistent(after, pageUrl))
    && (boards.BoardsFailed? ==> after.boards == before.boards)
    && (boards.BoardsListed? ==>
          && |after.boards| == |boards.list|
          && forall i :: 0 <= i < |after.boards| ==>
               after.boards[i] == Board(boards.list[i].id, boards.list[i].boardName))
  }

  /** `LOGIN`: reload the notes and the boards; nothing else changes. */
  function Login(s: State, notes: NotesFetch, boards: BoardsFetch, pageUrl: string): (r: State)
    ensures Reloaded(s, r, notes, boards, pageUrl)
    ensures r.(notes := s.notes, notesToRender := s.notesToRender, boards := s.boards) == s
  {
    LoadBoards(LoadNotes(s, notes, pageUrl), boards)
  }

  /** `UPDATE_URL` and the effect on `currentUrl`: the URL becomes the
      message's URL (or ""); when it changed to a non-empty URL the render set
      becomes that URL's notes, and otherwise the lists are left alone. */
  function UrlChanged(s: State, url: Option<string>): (r: State)
    ensures r.currentUrl == url.GetOr("")
    ensures r.notes == s.notes
    ensures Truthy(url) && url.value != s.currentUrl ==> Consistent(r, url.value)
    ensures !Truthy(url) || url.value == s.currentUrl ==> r.notesToRender == s.notesToRender
  {
    var newUrl := url.GetOr("");
    if newUrl == s.currentUrl then s
    else if newUrl == "" then s.(currentUrl := newUrl)
    else s.(currentUrl := newUrl, notesToRender := ForPage(s.notes, newUrl))
  }

  /** After a logout nothing renders, whatever URL comes next. */
  lemma LogoutThenNavigateShowsNothing(s: State, url: Option<string>)
    ensures UrlChanged(Logout(s), url).notesToRender == []
  {
  }

  /** `SETTINGS_UPDATED`: a message that carries the setting overrides it. */
  function SettingsUpdated(s: State, showDraggableIcon: Option<bool>): (r: State)
    ensures showDraggableIcon.Some? ==> r.showDraggableIcon == showDraggableIcon.value
    ensures showDraggableIcon.None? ==> r == s
    ensures r.(showDraggableIcon := s.showDraggableIcon) == s
  {
    match showDraggableIcon
    case Some(b) => s.(showDraggableIcon := b)
    case None => s
  }

  // ---------------------------------------------------------------------
  // Creating from a message

  /** Where a `CREATE_STICKY` note goes: the requested point; the viewport
      middle (scrolled into page coordinates) for "middle"; otherwise 10
      pixels up and left of the last right-click. */
  function CreatePosition(req: PositionRequest, lastClick: Position, vp: Viewport): (p: Position)
    ensures req.At? ==> p == req.p
    ensures req.Middle? ==> p.x * 2.0 == vp.innerWidth && (p.y - vp.scrollY) * 2.0 == vp.innerHeight
    ensures req.Unspecified? ==> p.x + 10.0 == lastClick.x && p.y + 10.0 == lastClick.y
  {
    match req
    case At(p) => p
    case Middle => Position(vp.innerWidth / 2.0, vp.innerHeight / 2.0 + vp.scrollY)
    case Unspecified => Position(lastClick.x - 10.0, lastClick.y - 10.0)
  }

  /** A note asked for at the "middle" lands at the centre of the visible
      part of the page: inside it, and as far from its left edge as from its
      right, and from its top as from its bottom. */
  lemma MiddleIsVisibleCentre(lastClick: Position, vp: Viewport)
    requires vp.innerWidth >= 0.0 && vp.innerHeight >= 0.0
    ensures var p := CreatePosition(Middle, lastClick, vp);
      && 0.0 <= p.x <= vp.innerWidth && vp.scrollY <= p.y <= vp.scrollY + vp.innerHeight
      && p.x - 0.0 == vp.innerWidth - p.x
      && p.y - vp.scrollY == (vp.scrollY + vp.innerHeight) - p.y
  {
  }

  /** A `CREATE_STICKY` that names no position, after a right-click at page
      point (x, y), asks for the note 10 pixels up and left of that point. */
  lemma CreateNearRightClick(s: State, x: real, y: real, text: Option<string>, vp: Viewport,
                             pageUrl: string, noteId: string, storedBoard: Option<string>, outcome: Outcome)
    ensures CreateSticky(RightClick(s, x, y), Unspecified, text, vp, pageUrl, noteId, storedBoard, outcome).request.position
            == Position(x - 10.0, y - 10.0)
  {
    var clicked := RightClick(s, x, y);
    var near := CreateSticky(clicked, Unspecified, text, vp, pageUrl, noteId, storedBoard, outcome);
    var q := CreatePosition(Unspecified, clicked.lastClick, vp);
    assert near.request.position == q;
    assert q.x == x - 10.0 && q.y == y - 10.0;
  }

  /** `CREATE_STICKY`: an optimistic create at the chosen position with the
      message's text ("" when absent); the response reports the outcome. */
  function CreateSticky(s: State, req: PositionRequest, text: Option<string>, vp: Viewport,
                        pageUrl: string, noteId: string, storedBoard: Option<string>,
                        outcome: Outcome): (r: Created)
    ensures r.success <==> outcome == Succeeded
    ensures r.request.position == CreatePosition(req, s.lastClick, vp)
    ensures r.request.content == SeedDoc(text.GetOr(""))
    ensures r.request.noteId == noteId
  {
    OptimisticCreate(s, pageUrl, noteId, text.GetOr(""), CreatePosition(req, s.lastClick, vp), storedBoard, outcome)
  }

  /** The right-click listener: remember the click in page coordinates. */
  function RightClick(s: State, pageX: real, pageY: real): (r: State)
    ensures r.lastClick == Position(pageX, pageY)
    ensures r.(lastClick := s.lastClick) == s
  {
    s.(lastClick := Position(pageX, pageY))
  }

  // ---------------------------------------------------------------------
  // The floating create button

  /** ASCII lower-casing of one character: a capital becomes the same letter
      in lower case, anything else stays, and no capital remains. */
  function LowerChar(c: char): (d: char)
    ensures !('A' <= d <= 'Z')
    ensures 'A' <= c <= 'Z' ==> 'a' <= d <= 'z' && d as int - 'a' as int == c as int - 'A' as int
    ensures !('A' <= c <= 'Z') ==> d == c
  {
    if 'A' <= c <= 'Z' then (c as int + 32) as char else c
  }

  /** ASCII lower-casing of a string. */
  function Lower(s: string): (r: string)
    ensures |r| == |s|
    ensures forall i :: 0 <= i < |s| ==> r[i] == LowerChar(s[i])
    ensures forall i :: 0 <= i < |r| ==> !('A' <= r[i] <= 'Z')
  {
    if |s| == 0 then "" else [LowerChar(s[0])] + Lower(s[1..])
  }

  /** `isExcludedDomain`: the app's own site, in any letter case. */
  function IsExcludedDomain(hostname: string): (r: bool)
    ensures r <==> Lower(hostname) == "thestickyapp.com" || Lower(hostname) == "www.thestickyapp.com"
  {
    var h := Lower(hostname);
    h == "thestickyapp.com" || h == "www.thestickyapp.com"
  }

  /** Lower-casing twice is lower-casing once, so the exclusion ignores case. */
  lemma ExcludedIgnoresCase(hostname: string)
    ensures IsExcludedDomain(Lower(hostname)) == IsExcludedDomain(hostname)
  {
    assert Lower(Lower(hostname)) == Lower(hostname);
  }

  /** The floating create button shows unless the site is excluded or the
      user turned it off. */
  function ShowsCreateButton(s: State, hostname: string): (r: bool)
    ensures r ==> s.showDraggableIcon
    ensures r <==> s.showDraggableIcon && !IsExcludedDomain(hostname)
  {
    !IsExcludedDomain(hostname) && s.showDraggableIcon
  }

  /** The create button follows the setting on every site but the app's
      own, where it never shows. */
  lemma SettingControlsButton(s: State, on: bool, hostname: string)
    ensures ShowsCreateButton(SettingsUpdated(s, Some(on)), hostname) <==> on && !IsExcludedDomain(hostname)
    ensures IsExcludedDomain(hostname) ==> !ShowsCreateButton(s, hostname)
  {
  }

  /** The mount effect: the URL becomes the page URL, notes and boards load,
      and the create button shows unless stored as exactly `false`; nothing
      else changes. */
  function Mount(s: State, pageUrl: string, notes: NotesFetch, boards: BoardsFetch,
                 storedShowIcon: Option<bool>): (r: State)
    ensures r.currentUrl == pageUrl
    ensures r.showDraggableIcon <==> storedShowIcon != Some(false)
    ensures Reloaded(s, r, notes, boards, pageUrl)
    ensures r.(notes := s.notes, notesToRender := s.notesToRender, boards := s.boards,
               currentUrl := s.currentUrl, showDraggableIcon := s.showDraggableIcon) == s
  {
    Login(s.(currentUrl := pageUrl), notes, boards, pageUrl).(showDraggableIcon := FlagDefaultOn(storedShowIcon))
  }
}
