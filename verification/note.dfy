/** One note's component state: the local position, colour and size it shows
    ahead of the remote store, the remote updates its handlers send, the
    reverts on failure, and the debounced write its drags and edits schedule. */
module NoteView {
  import opened Types
  import opened Seqs
  import Container
  import Debounce

  /** The body of an `updateNote` call. `boardId` and `size` are sent only by
      the handlers that change them. */
  datatype UpdateRequest = UpdateRequest(
    noteId: string, websiteUrl: string, boardId: Option<string>,
    position: Position, content: NoteText, color: Color, title: string,
    size: Option<NoteSize>)

  /** The component's local state. `mounting` tells this mounting of the
      component from earlier ones of the same note; `generation` counts the
      changes of the local colour since mounting. */
  datatype Local = Local(position: Position, color: Color, size: NoteSize, dragging: bool, boardMenuOpen: bool,
                         mounting: nat, generation: nat)

  /** The debounced update is a new lodash instance whenever the local colour
      differs from the previous render's, and a new instance does not cancel
      the write its predecessor holds. A waiting write is therefore keyed by
      the instance it was made with: the note, the mounting and the colour
      generation. A colour that changes and changes back gives a third
      instance, not the first one again. */
  datatype SlotKey = SlotKey(noteId: string, mounting: nat, generation: nat)

  /** What a debounced call hands to its instance: the content and position
      passed in, and the colour the instance was made with. */
  datatype WriteArgs = WriteArgs(content: NoteText, position: Position, color: Color)

  type Scheduled = Debounce.Event<SlotKey, WriteArgs>

  /** A size-toggle, colour-change or board-select handler's result: the new
      local state, the request sent, and whether the parent reloads. */
  datatype Handled = Handled(local: Local, request: UpdateRequest, reload: bool)

  /** A board selection's result; `stored` is the `lastSelectedBoardId`
      written to storage, if any. */
  datatype BoardSelected = BoardSelected(local: Local, request: UpdateRequest, stored: Option<string>, reload: bool)

  /** What a drag event does: the new local state, the position reported to
      the parent, and the debounced write scheduled. */
  datatype Dragged = Dragged(local: Local, reportedId: string, reported: Position, scheduled: Scheduled)

  // ---------------------------------------------------------------------
  // Initial content and mounting

  /** The editor's starting document: a plain string becomes one paragraph
      with one text run ("" when the note has no text); an editor document
      keeps its blocks under a "doc" root. */
  function InitialContent(initialText: Option<NoteText>): (d: Doc)
    ensures d.kind == "doc"
    ensures initialText.Some? && initialText.value.Rich? ==> d.blocks == initialText.value.doc.blocks
    ensures initialText.Some? && initialText.value.Plain? ==>
      |d.blocks| == 1 && d.blocks[0].kind == "paragraph" && DocText(d.blocks) == initialText.value.s
    ensures initialText.None? ==> |d.blocks| == 1 && DocText(d.blocks) == ""
  {
    match initialText
    case None => SeedDocShape(""); SeedDoc("")
    case Some(Plain(s)) => SeedDocShape(s); SeedDoc(s)
    case Some(Rich(doc)) => Doc("doc", doc.blocks)
  }

  /** Converting is idempotent: a converted document converts to itself. */
  lemma InitialContentIdempotent(initialText: Option<NoteText>)
    ensures InitialContent(Some(Rich(InitialContent(initialText)))) == InitialContent(initialText)
  {
  }

  /** A note created with text `t` opens in an editor showing exactly `t`. */
  lemma CreatedNoteOpensWithItsText(text: string)
    ensures DocText(InitialContent(Some(Rich(SeedDoc(text)))).blocks) == text
  {
    SeedDocShape(text);
  }

  /** The size a note shows: its stored size, small when it has none. */
  function ShownSize(size: Option<NoteSize>): (r: NoteSize)
    ensures size.Some? ==> r == size.value
    ensures size.None? ==> r == Small
  {
    size.GetOr(Small)
  }

  /** The local state right after mounting: the parent's position and colour,
      the shown size, not dragging, menus closed, the first colour
      generation. */
  function Mount(note: StickyNote, mounting: nat): (l: Local)
    ensures l.position == note.position && l.color == note.color && l.size == ShownSize(note.size)
    ensures !l.dragging && !l.boardMenuOpen
    ensures l.mounting == mounting && l.generation == 0
  {
    Local(note.position, note.color, ShownSize(note.size), false, false, mounting, 0)
  }

  /** A note stored without a size shows small, and its first toggle asks for
      large. */
  lemma SizelessNoteShowsSmall(r: Container.ServerNote, mounting: nat, editorDoc: Doc, pageUrl: string, outcome: Outcome)
    requires r.data.body.size.None?
    ensures Mount(Container.FromServer(r), mounting).size == Small
    ensures ToggleSize(Mount(Container.FromServer(r), mounting), r.id, editorDoc, pageUrl, outcome).request.size == Some(Large)
  {
  }

  /** `setLocalColor(c)`: a different colour starts a new generation (and so
      a new debounce instance); the same colour changes nothing. */
  function Recolor(l: Local, c: Color): (r: Local)
    ensures r.color == c
    ensures c == l.color ==> r == l
    ensures c != l.color ==> r.generation > l.generation
    ensures r.(color := l.color, generation := l.generation) == l
  {
    if c == l.color then l else l.(color := c, generation := l.generation + 1)
  }

  // ---------------------------------------------------------------------
  // Following the parent

  /** The effects that run when the parent's note changes: the position
      follows only while not dragging, the size and colour resync when they
      changed. */
  function ParentChanged(l: Local, before: StickyNote, after: StickyNote): (r: Local)
    ensures r.position == (if before.position != after.position && !l.dragging then after.position else l.position)
    ensures before.size != after.size ==> r.size == ShownSize(after.size)
    ensures before.size == after.size ==> r.size == l.size
    ensures before.color != after.color ==> r.color == after.color
    ensures before.color == after.color ==> r.color == l.color && r.generation == l.generation
    ensures r.generation == l.generation <==> r.color == l.color
    ensures r.dragging == l.dragging && r.boardMenuOpen == l.boardMenuOpen && r.mounting == l.mounting
  {
    var p := if before.position != after.position && !l.dragging then after.position else l.position;
    var z := if before.size != after.size then ShownSize(after.size) else l.size;
    var moved := l.(position := p, size := z);
    if before.color != after.color then Recolor(moved, after.color) else moved
  }

  /** A drag starts. */
  function DragStart(l: Local): (r: Local)
    ensures r.dragging && r.(dragging := l.dragging) == l
  {
    l.(dragging := true)
  }

  /** A drag stops: the dragging flag drops, and the position effect, whose
      dependency changed, copies the parent's position. */
  function DragStop(l: Local, note: StickyNote): (r: Local)
    ensures !r.dragging && r.position == note.position
    ensures r.(dragging := l.dragging, position := l.position) == l
  {
    l.(dragging := false, position := note.position)
  }

  // ---------------------------------------------------------------------
  // Debounced writes

  /** The debounce instance a call made now goes to. */
  function KeyOf(l: Local, noteId: string): SlotKey {
    SlotKey(noteId, l.mounting, l.generation)
  }

  /** `debouncedUpdate(content, position)`: a call on the current instance,
      carrying the content, the position and the current local colour. */
  function DebouncedWrite(l: Local, noteId: string, content: NoteText, position: Position): (e: Scheduled)
    ensures e.Call? && e.key == KeyOf(l, noteId)
    ensures e.payload.position == position && e.payload.content == content && e.payload.color == l.color
  {
    Debounce.Call(KeyOf(l, noteId), WriteArgs(content, position, l.color))
  }

  /** The request a debounced write sends when its timer fires: the body
      reads `window.location.href` only then, so the URL is the page's URL at
      firing time, which after an in-page navigation is no longer the page
      the call was made on. No board or size is sent. */
  function Fire(noteId: string, args: WriteArgs, pageUrlNow: string): (req: UpdateRequest)
    ensures req.noteId == noteId && req.websiteUrl == pageUrlNow
    ensures req.position == args.position && req.content == args.content && req.color == args.color
    ensures req.title == "" && req.boardId.None? && req.size.None?
  {
    UpdateRequest(noteId, pageUrlNow, None, args.position, args.content, args.color, "", None)
  }

  /** `handleDrag`: move locally, report the same position to the parent under
      the note's id, and schedule a write carrying that position. */
  function Drag(l: Local, noteId: string, to: Position, editorDoc: Doc): (r: Dragged)
    ensures r.local.position == to && r.local.dragging
    ensures r.local.(position := l.position, dragging := l.dragging) == l
    ensures r.reportedId == noteId && r.reported == to
    ensures r.scheduled == DebouncedWrite(l, noteId, Rich(editorDoc), to)
  {
    Dragged(l.(position := to, dragging := true), noteId, to,
            DebouncedWrite(l, noteId, Rich(editorDoc), to))
  }

  /** An editor change schedules a write of the new document at the current
      local position, on the current instance. */
  function EditorChanged(l: Local, noteId: string, editorDoc: Doc): (e: Scheduled)
    ensures e.Call? && e.key == KeyOf(l, noteId)
    ensures e.payload.position == l.position && e.payload.content == Rich(editorDoc) && e.payload.color == l.color
  {
    DebouncedWrite(l, noteId, Rich(editorDoc), l.position)
  }

  /** The writes a run of drags schedules, and the local state after it. */
  function DragAll(l: Local, noteId: string, path: seq<Position>, editorDoc: Doc): (r: (Local, seq<Scheduled>))
    ensures |r.1| == |path|
    ensures r.0.color == l.color && r.0.generation == l.generation && r.0.mounting == l.mounting
    ensures |path| > 0 ==> r.0.position == path[|path| - 1]
    ensures forall i :: 0 <= i < |path| ==> r.1[i] == DebouncedWrite(l, noteId, Rich(editorDoc), path[i])
    decreases |path|
  {
    if |path| == 0 then (l, [])
    else
      var step := Drag(l, noteId, path[0], editorDoc);
      var rest := DragAll(step.local, noteId, path[1..], editorDoc);
      (rest.0, [step.scheduled] + rest.1)
  }

  /** A continuous drag sends one write when the note comes to rest; it
      carries the last position of the drag and the URL of the page shown
      when it fires. */
  lemma DragBurstWritesLastPosition(l: Local, noteId: string, path: seq<Position>, editorDoc: Doc,
                                    pending: map<SlotKey, WriteArgs>, pageUrlNow: string)
    requires |path| > 0
    ensures var events := DragAll(l, noteId, path, editorDoc).1 + [Debounce.Expire(KeyOf(l, noteId))];
      var sent := Debounce.Run(pending, events).sent;
      && |sent| == 1
      && Fire(noteId, sent[0].payload, pageUrlNow).position == path[|path| - 1]
      && Fire(noteId, sent[0].payload, pageUrlNow).websiteUrl == pageUrlNow
  {
    var k := KeyOf(l, noteId);
    var writes := DragAll(l, noteId, path, editorDoc).1;
    var payloads := seq(|writes|, i requires 0 <= i < |writes| => writes[i].payload);
    assert writes == Debounce.Calls(k, payloads);
    Debounce.BurstSendsLast(pending, k, payloads);
  }

  /** Two debounce instances stay apart across a colour round trip: when a
      colour change fails and the colour comes back, an edit made before the
      change and one made after it go to different instances, and both are
      sent. */
  lemma RecolorRoundTripKeepsBothEdits(l: Local, note: StickyNote, newColor: Color, pageUrl: string,
                                       before: Doc, after: Doc)
    requires l.color == note.color && newColor != l.color
    ensures var l2 := ChangeColor(l, note, newColor, pageUrl, Failed).local;
      var e1 := EditorChanged(l, note.id, before);
      var e2 := EditorChanged(l2, note.id, after);
      var sent := Debounce.Run(map[], [e1, e2, Debounce.Expire(e1.key), Debounce.Expire(e2.key)]).sent;
      && l2.color == l.color
      && e1.key != e2.key
      && |sent| == 2 && sent[0].payload.content == Rich(before) && sent[1].payload.content == Rich(after)
  {
    var l2 := ChangeColor(l, note, newColor, pageUrl, Failed).local;
    var e1 := EditorChanged(l, note.id, before);
    var e2 := EditorChanged(l2, note.id, after);
    assert e1.key != e2.key;
    Debounce.TwoKeysBothSent(e1.key, e1.payload, e2.key, e2.payload);
  }

  /** A write still waiting in the old instance when a colour change succeeds
      is sent afterwards with the old colour: it tells the remote store the
      colour the note had before the change. */
  lemma WaitingWriteCarriesOldColor(l: Local, note: StickyNote, newColor: Color, pageUrl: string,
                                    editorDoc: Doc, pageUrlNow: string)
    requires newColor != l.color
    ensures var e := EditorChanged(l, note.id, editorDoc);
      var l2 := ChangeColor(l, note, newColor, pageUrl, Succeeded).local;
      var sent := Debounce.Run(map[], [e, Debounce.Expire(e.key)]).sent;
      && l2.color == newColor
      && KeyOf(l2, note.id) != e.key
      && |sent| == 1 && Fire(note.id, sent[0].payload, pageUrlNow).color == l.color
  {
  }

  // ---------------------------------------------------------------------
  // Size, colour and board

  /** The other size. */
  function Toggle(z: NoteSize): (r: NoteSize)
    ensures r != z
  {
    if z == Small then Large else Small
  }

  /** Toggling twice is no change. */
  lemma ToggleInvolution(z: NoteSize)
    ensures Toggle(Toggle(z)) == z
  {
  }

  /** `handleSizeToggle`: show the other size at once and send it; on success
      the parent reloads; on failure the size held before the toggle comes
      back and nothing else changed. */
  function ToggleSize(l: Local, noteId: string, editorDoc: Doc, pageUrl: string, outcome: Outcome): (r: Handled)
    ensures r.request.size == Some(Toggle(l.size))
    ensures r.request.noteId == noteId && r.request.position == l.position && r.request.color == l.color
    ensures r.request.content == Rich(editorDoc) && r.request.boardId.None?
    ensures outcome == Succeeded ==> r.local == l.(size := Toggle(l.size)) && r.reload
    ensures outcome == Failed ==> r.local == l && !r.reload
  {
    var newSize := Toggle(l.size);
    var request := UpdateRequest(noteId, pageUrl, None, l.position, Rich(editorDoc), l.color, "", Some(newSize));
    match outcome
    case Succeeded => Handled(l.(size := newSize), request, true)
    case Failed => Handled(l, request, false)
  }

  /** `handleColorChange`: show the new colour at once and send it (with the
      parent's text as content); on success the parent reloads; on failure the
      colour reverts to the parent's colour. */
  function ChangeColor(l: Local, note: StickyNote, newColor: Color, pageUrl: string, outcome: Outcome): (r: Handled)
    ensures r.request.color == newColor && r.request.noteId == note.id
    ensures r.request.content == note.text && r.request.position == l.position
    ensures r.request.size.None? && r.request.boardId.None?
    ensures outcome == Succeeded ==> r.local.color == newColor && r.reload
    ensures outcome == Failed ==> r.local.color == note.color && !r.reload
    ensures r.local.generation >= l.generation
    ensures newColor != l.color ==> r.local.generation > l.generation
    ensures r.local.(color := l.color, generation := l.generation) == l
  {
    var request := UpdateRequest(note.id, pageUrl, None, l.position, note.text, newColor, "", None);
    var shown := Recolor(l, newColor);
    match outcome
    case Succeeded => Handled(shown, request, true)
    case Failed => Handled(Recolor(shown, note.color), request, false)
  }

  /** A failed colour change on a note whose colour is in sync shows the
      previous colour again and changes nothing else but the debounce
      instance, which is a new one when the colour was really changed. */
  lemma ColorFailureRestores(l: Local, note: StickyNote, newColor: Color, pageUrl: string)
    requires l.color == note.color
    ensures var r := ChangeColor(l, note, newColor, pageUrl, Failed).local;
      && r.(generation := l.generation) == l
      && (newColor != l.color ==> r.generation > l.generation)
  {
  }

  /** `handleBoardSelect`: send the board; only once that succeeded is the
      board stored as the last selected one, the parent reloaded and the menu
      closed. On failure nothing changes. */
  function SelectBoard(l: Local, noteId: string, boardId: string, editorDoc: Doc, pageUrl: string,
                       outcome: Outcome): (r: BoardSelected)
    ensures r.request.boardId == Some(boardId) && r.request.noteId == noteId
    ensures r.request.position == l.position && r.request.color == l.color
    ensures r.request.websiteUrl == pageUrl && r.request.content == Rich(editorDoc)
    ensures r.request.title == "" && r.request.size.None?
    ensures r.stored.Some? <==> outcome == Succeeded
    ensures r.stored.Some? ==> r.stored.value == boardId && r.reload && !r.local.boardMenuOpen
    ensures outcome == Failed ==> r.local == l && !r.reload
    ensures r.local.(boardMenuOpen := l.boardMenuOpen) == l
  {
    var request := UpdateRequest(noteId, pageUrl, Some(boardId), l.position, Rich(editorDoc), l.color, "", None);
    match outcome
    case Succeeded => BoardSelected(l.(boardMenuOpen := false), request, Some(boardId), true)
    case Failed => BoardSelected(l, request, None, false)
  }

  /** A board selection sends what a debounced write fired at that moment
      would send (the editor's document at the local position, in the local
      colour, with the page's URL) plus the board, and on success stores the
      board it sent. */
  lemma SelectBoardOnlyAddsBoard(l: Local, noteId: string, boardId: string, editorDoc: Doc, pageUrl: string,
                                 outcome: Outcome)
    ensures var r := SelectBoard(l, noteId, boardId, editorDoc, pageUrl, outcome);
      && r.request == Fire(noteId, WriteArgs(Rich(editorDoc), l.position, l.color), pageUrl).(boardId := Some(boardId))
      && (r.stored.Some? ==> r.stored == r.request.boardId)
  {
  }

  // ---------------------------------------------------------------------
  // Drag propagation to the container

  /** A drag keeps the note and the container in agreement: after the
      container applies the reported position, every rendered note with that
      id sits at the dragged position, the render set is still the page's
      notes, and when the drag stops the local position equals the
      container's. */
  lemma DragAgreesWithContainer(s: Container.State, url: string, l: Local, i: nat,
                                to: Position, editorDoc: Doc)
    requires Container.Consistent(s, url)
    requires i < |s.notesToRender|
    ensures var note := s.notesToRender[i];
      var d := Drag(l, note.id, to, editorDoc);
      var s' := Container.PositionChange(s, d.reportedId, d.reported);
      && Container.Consistent(s', url)
      && s'.notesToRender[i] == note.(position := to)
      && DragStop(d.local, s'.notesToRender[i]).position == d.local.position
  {
    var note := s.notesToRender[i];
    Container.PositionChangeKeepsConsistent(s, note.id, to, url);
  }
}
