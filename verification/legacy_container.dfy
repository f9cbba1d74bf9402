/** The note list of the older content script
    (src/pages/Content/components/StickyNotesContainer.tsx): notes live only
    in memory, CREATE_STICKY appends one at the last right-click point, and
    closing a note filters it out. The clock reading behind the id is a
    parameter. */
module LegacyContainer {
  import opened Types
  import opened Seqs

  datatype LegacyNote = LegacyNote(id: string, position: Position, text: string)

  /** The notes, in creation order, and the last right-click point. */
  datatype State = State(notes: seq<LegacyNote>, lastClick: Position)

  /** The new state and the `success` field of the response. */
  datatype Response = Response(state: State, success: bool)

  function Initial(): (s: State)
    ensures |s.notes| == 0 && s.lastClick == Position(0.0, 0.0)
  {
    State([], Position(0.0, 0.0))
  }

  /** Before any right-click the last click is the origin, so the first
      note created lands at (-10, -10); after a right-click at (x, y) it lands
      at (x - 10, y - 10). */
  lemma FirstNotePosition(stamp: nat, text: Option<string>, x: real, y: real)
    ensures CreateSticky(Initial(), stamp, text).state.notes == [LegacyNote(NoteId(stamp), Position(-10.0, -10.0), text.GetOr(""))]
    ensures CreateSticky(ContextMenu(Initial(), x, y), stamp, text).state.notes[0].position == Position(x - 10.0, y - 10.0)
  {
  }

  /** The `contextmenu` listener records the client coordinates. */
  function ContextMenu(s: State, clientX: real, clientY: real): (r: State)
    ensures r.notes == s.notes && r.lastClick == Position(clientX, clientY)
  {
    s.(lastClick := Position(clientX, clientY))
  }

  function DigitChar(d: nat): (c: char)
    requires d < 10
    ensures '0' <= c <= '9'
  {
    "0123456789"[d]
  }

  /** The decimal numeral of `n`, as `${n}` writes it. */
  function Decimal(n: nat): (s: string)
    ensures |s| > 0
    ensures |s| == 1 <==> n < 10
    ensures forall i :: 0 <= i < |s| ==> '0' <= s[i] <= '9'
  {
    if n < 10 then [DigitChar(n)] else Decimal(n / 10) + [DigitChar(n % 10)]
  }

  lemma DigitCharInjective(a: nat, b: nat)
    requires a < 10 && b < 10 && DigitChar(a) == DigitChar(b)
    ensures a == b
  {
  }

  /** Different numbers have different numerals. */
  lemma {:induction false} DecimalInjective(m: nat, n: nat)
    requires Decimal(m) == Decimal(n)
    ensures m == n
    decreases m + n
  {
    var s, t := Decimal(m), Decimal(n);
    assert m < 10 <==> n < 10;
    if m < 10 {
      DigitCharInjective(m, n);
    } else {
      assert s[..|s| - 1] == Decimal(m / 10) && t[..|t| - 1] == Decimal(n / 10);
      DecimalInjective(m / 10, n / 10);
      assert s[|s| - 1] == DigitChar(m % 10) && t[|t| - 1] == DigitChar(n % 10);
      DigitCharInjective(m % 10, n % 10);
    }
  }

  /** The id `note-${Date.now()}` for clock reading `stamp`. */
  function NoteId(stamp: nat): (id: string)
    ensures |id| > 5 && id[..5] == "note-"
  {
    "note-" + Decimal(stamp)
  }

  /** Notes created at different milliseconds get different ids. */
  lemma NoteIdInjective(a: nat, b: nat)
    requires a != b
    ensures NoteId(a) != NoteId(b)
  {
    if NoteId(a) == NoteId(b) {
      assert NoteId(a)[5..] == Decimal(a);
      assert NoteId(b)[5..] == Decimal(b);
      DecimalInjective(a, b);
    }
  }

  /** `CREATE_STICKY`: append one note 10 pixels up and left of the last
      right-click, with the message's text ('' when it is missing or empty),
      and respond with success. */
  function CreateSticky(s: State, stamp: nat, text: Option<string>): (r: Response)
    ensures |r.state.notes| == |s.notes| + 1 && r.state.notes[..|s.notes|] == s.notes
    ensures var n := r.state.notes[|s.notes|];
      n.id == NoteId(stamp)
      && n.position.x + 10.0 == s.lastClick.x && n.position.y + 10.0 == s.lastClick.y
      && (text.Some? ==> n.text == text.value)
      && (text.None? ==> n.text == "")
    ensures r.state.lastClick == s.lastClick
    ensures r.success
  {
    var note := LegacyNote(NoteId(stamp),
                           Position(s.lastClick.x - 10.0, s.lastClick.y - 10.0),
                           if Truthy(text) then text.value else "");
    Response(s.(notes := s.notes + [note]), true)
  }

  /** The predicate "this note does not carry id `id`". */
  function NotId(id: string): LegacyNote -> bool {
    (n: LegacyNote) => n.id != id
  }

  /** `handleClose`: every note with that id goes; the others stay, in their
      order, each as often as before. */
  function Close(s: State, id: string): (r: State)
    ensures forall i :: 0 <= i < |r.notes| ==> r.notes[i].id != id && r.notes[i] in s.notes
    ensures forall i :: 0 <= i < |s.notes| && s.notes[i].id != id ==> s.notes[i] in r.notes
    ensures SelectsInOrder(r.notes, s.notes, NotId(id))
    ensures forall i :: 0 <= i < |s.notes| ==>
      multiset(r.notes)[s.notes[i]] == if s.notes[i].id != id then multiset(s.notes)[s.notes[i]] else 0
    ensures r.lastClick == s.lastClick
  {
    FilterSelects(s.notes, NotId(id));
    s.(notes := Filter(s.notes, NotId(id)))
  }

  /** Closing an id no note carries changes nothing. */
  lemma CloseAbsentIsNoop(s: State, id: string)
    requires forall i :: 0 <= i < |s.notes| ==> s.notes[i].id != id
    ensures Close(s, id) == s
  {
    FilterKeepsAll(s.notes, NotId(id));
  }

  /** Closing the one note with a given id removes just that note and keeps
      the others in order. */
  lemma CloseUniqueRemovesOne(s: State, id: string, i: nat)
    requires i < |s.notes| && s.notes[i].id == id
    requires forall j :: 0 <= j < |s.notes| && j != i ==> s.notes[j].id != id
    ensures Close(s, id).notes == s.notes[..i] + s.notes[i + 1..]
  {
    RemoveOnly(s.notes, NotId(id), i);
  }

  /** Creating a note and closing it again restores the list, provided no
      earlier note was created at the same millisecond. */
  lemma CreateThenCloseRestores(s: State, stamp: nat, text: Option<string>)
    requires forall i :: 0 <= i < |s.notes| ==> s.notes[i].id != NoteId(stamp)
    ensures Close(CreateSticky(s, stamp, text).state, NoteId(stamp)) == s
  {
    var created := CreateSticky(s, stamp, text).state;
    var note := created.notes[|s.notes|];
    assert created.notes == s.notes + [note];
    FilterAppend(s.notes, [note], NotId(NoteId(stamp)));
    FilterKeepsAll(s.notes, NotId(NoteId(stamp)));
    FilterDropsAll([note], NotId(NoteId(stamp)));
  }
}
