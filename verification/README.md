# sticky-extension in Dafny

A Dafny model of the decision logic of the Sticky browser extension. The extension pins sticky notes to web pages and keeps them in a remote store.

Modelled:

- **Note-collection controller** (`Container`): the content script's two note lists.
  - `notes` holds every note of the user. `notesToRender` holds the notes whose `websiteUrl` is the page URL.
  - Loading from the store.
  - Optimistic create, with rollback on failure.
  - Position changes.
  - Optimistic delete, with restore on failure.
  - Logout and URL changes.
  - The `CREATE_STICKY` position choice and the excluded-domain check.
- **Per-note state** (`NoteView`):
  - the editor's initial document;
  - following the parent while not dragging;
  - the size toggle and colour change, with their reverts;
  - board selection;
  - drag propagation to the container;
  - the write sent by the debounced update.

  The debounced update is a new debounce instance whenever the local colour differs from the previous render's. A waiting write therefore belongs to the instance it was made on, named by the note, the mounting of the component and a colour generation that grows with every change of the local colour. So an edit made before a colour change that fails, and one made after it, are both sent. The write reads the page URL only when it fires.

  One consequence of the code as written is proved rather than corrected: a write still waiting when a colour change succeeds fires afterwards with the old colour (`NoteView.WaitingWriteCarriesOldColor`).
- **Trailing-edge debounce** (`Debounce`), in two views:
  - a per-key pending-slot machine;
  - a timed single-slot view.

  A lemma proves the two views agree.
- **Popup decisions** (`Popup`): board selection after loading, normalising the stored selection, the pro-user test, board links, logout, and the opening storage read.
- **The two Cloudinary public-id extractors:**
  - the regular-expression one (`CloudinaryRegex`);
  - the older split-based one (`CloudinarySplit`), with its correction.
- **The older content script's floating icon** (`DraggableIcon`): clamping, the drag threshold and the click guard.
- **The older content script's note list** (`LegacyContainer`).
- **Shared modules:**
  - `Types`: records and documents;
  - `Seqs`: `filter` and `map`, with `filter` characterised as the in-order subsequence of the passing elements;
  - `Strings`: `indexOf`, `split` and `join`.

Modelling conventions:

- Every remote call is an explicit `Outcome` parameter (`Succeeded` or `Failed`), and a handler is one step from state to state.
- The page URL, the clock reading, the generated uuid and values read from storage are all parameters.
- Storage writes, including the popup's clearing of storage on logout, are returned as values.
- The page URL a debounced write reads when it fires is a parameter of that firing, separate from the URL at the time of the call.
- The mounting of a note component is a number given when it mounts.
- Coordinates are `real`.
- A React effect runs when one of its dependencies changes value.

## Model

| member | source | states |
|---|---|---|
| Types.SeedDocShape | entrypoints/content/components/StickyNotesContainer.tsx:131-144 | The document seeded from text is a "doc" with exactly one paragraph holding exactly one text run, and its text is exactly the seed. |
| Types.FlagDefaultOn | entrypoints/content/components/StickyNotesContainer.tsx:352 | The floating-button setting is off exactly when it was stored as `false`; missing means on. |
| Types.OrNullNormalises | entrypoints/content/components/StickyNotesContainer.tsx:157 | `value \|\| null` never yields the empty string, applying it twice is applying it once, and a non-empty value passes through unchanged. |
| Seqs.Filter | entrypoints/content/components/StickyNotesContainer.tsx:64-66 | `filter` keeps every element that passes, takes nothing from elsewhere, and its result is a sub-multiset of the input. The exact order and multiplicity are stated by Seqs.FilterSelects. |
| Seqs.FilterSelects | entrypoints/content/components/StickyNotesContainer.tsx:64-66 | `filter` returns the passing elements in the order of the input: an increasing choice of positions that covers every passing position. Each passing element keeps its multiplicity, and each failing one is gone. |
| Seqs.Map | entrypoints/content/components/StickyNotesContainer.tsx:53-61 | `map` keeps the length and applies the function to each element in place. |
| Seqs.FilterAppend | entrypoints/content/components/StickyNotesContainer.tsx:162-169 | Filtering a list with an element appended is filtering the list, then the element. |
| Seqs.FilterKeepsAll | entrypoints/content/components/StickyNotesContainer.tsx:199-201 | A filter every element passes returns the list unchanged. |
| Seqs.RemoveOnly | entrypoints/content/components/StickyNotesContainer.tsx:246 | When only the element at index i fails, filtering removes exactly that element and keeps the rest in order. |
| Container.ForPage | entrypoints/content/components/StickyNotesContainer.tsx:64-66 | The render set is the notes of the page URL, in their order in `notes` and with their multiplicity, and nothing else: a subsequence of `notes` that takes every note of that URL. |
| Container.WithoutId | entrypoints/content/components/StickyNotesContainer.tsx:246 | Removing an id leaves no note with that id. Every note with another id stays, in its order and with its multiplicity, so the result is the subsequence of the other notes. |
| Container.FromServer | entrypoints/content/components/StickyNotesContainer.tsx:53-61 | A loaded note's id is `data.id` when that is non-empty, else the record id. Position, text, colour, URL, board and size are copied from the record. |
| Container.LoadNotes | entrypoints/content/components/StickyNotesContainer.tsx:48-71 | A failed fetch, or one that resolves to nothing, changes nothing. Otherwise, an empty listing included, `notes` becomes one note per record, in order, the render set becomes exactly the page's notes, and no other field changes. |
| Container.LoadBoards | entrypoints/content/components/StickyNotesContainer.tsx:35-46 | A failed fetch keeps the boards. A successful one gives one board per record with its `_id` and `boardName`, and no other field changes. |
| Container.BeginCreate | entrypoints/content/components/StickyNotesContainer.tsx:127-172 | Exactly one note is appended and earlier notes are unchanged. It has the new id, the given position, the page URL, GREEN, small, the stored board or null, and the seeded text. The render set is again the page's notes, and the new note gets focus. |
| Container.RollbackCreate | entrypoints/content/components/StickyNotesContainer.tsx:199-210 | The notes afterwards are the notes before minus those with the new id, as an in-order subsequence with the same multiplicities, and the render set is again the page's notes. |
| Container.OptimisticCreate | entrypoints/content/components/StickyNotesContainer.tsx:123-214 | The call reports true exactly when the remote create succeeds, and the request carries the page URL, board, id, position, seeded content, GREEN and an empty title. On success the appended state stays. On failure no note has the new id and the render set is the page's notes. |
| Container.CreateRequestMatchesNote | entrypoints/content/components/StickyNotesContainer.tsx:151-192 | The request sent describes the note inserted: same id, position, content, colour, URL and board. |
| Container.CreateFailureRestores | entrypoints/content/components/StickyNotesContainer.tsx:196-212 | With a fresh id and a consistent render set, a failed create returns false and leaves both lists, the URL and the boards exactly as they were. |
| Container.WithoutFreshAppended | entrypoints/content/components/StickyNotesContainer.tsx:199-201 | Removing the id of a note appended to a list without that id gives back exactly that list. |
| Container.CreateOnEmptyPage | entrypoints/content/components/StickyNotesContainer.tsx:151-210 | On a page that shows no note, whatever the user has on other pages, a successful create renders exactly the new note: at the requested point, GREEN, small, on that page, appended after all earlier notes. A failed create of a fresh id renders nothing again. |
| Container.PositionChange | entrypoints/content/components/StickyNotesContainer.tsx:224-237 | In both lists, notes with the id get the new position and nothing else changes. All other notes and fields are untouched and lengths are preserved. |
| Container.PositionChangeKeepsConsistent | entrypoints/content/components/StickyNotesContainer.tsx:224-237 | A position change keeps the render set equal to the page's notes. |
| Container.FindById | entrypoints/content/components/StickyNotesContainer.tsx:242 | `find` returns nothing exactly when no note has the id. Otherwise it returns the first note with the id: the note at some index with no note of that id before it. |
| Container.OptimisticDelete | entrypoints/content/components/StickyNotesContainer.tsx:240-267 | An absent id changes nothing and sends nothing. Otherwise the id is sent. On success the notes are the in-order subsequence of the notes with another id, and the render set is the page's notes. On failure the notes are that same subsequence followed by the first note with the id, every field intact, and the render set is the page's notes. |
| Container.Removed | entrypoints/content/components/StickyNotesContainer.tsx:244-251 | Removing a note drops every note with the id, keeps the others in order, re-filters the render set, and changes nothing else. |
| Container.Restored | entrypoints/content/components/StickyNotesContainer.tsx:258-265 | A rollback appends the captured note after the current notes and keeps the render set the page's notes. Nothing else changes. |
| Container.RefilterAppend | entrypoints/content/components/StickyNotesContainer.tsx:262-265 | Appending the restored note to the filtered render set and filtering again equals filtering all notes with the note appended. |
| Container.WithoutUniqueId | entrypoints/content/components/StickyNotesContainer.tsx:246 | With unique ids, removing a note's id removes exactly that note, and appending it back restores the same multiset. |
| Container.DeleteFailureRestores | entrypoints/content/components/StickyNotesContainer.tsx:258-265 | With unique ids, a failed delete leaves a permutation of the original notes (the restored note last, every field intact), and the render set is again the page's notes. |
| Container.DeleteFailureRendersIffOnPage | entrypoints/content/components/StickyNotesContainer.tsx:262-265 | Whatever the ids, the note restored by a failed delete is rendered if and only if its URL is the page URL. |
| Container.Logout | entrypoints/content/components/StickyNotesContainer.tsx:216-221 | Logout empties the notes, the render set, the URL and the boards, and changes nothing else. |
| Container.Login | entrypoints/content/components/StickyNotesContainer.tsx:289-292 | After a failed notes fetch both lists are unchanged. After a successful one the notes are the fetched records, one note per record in order, and the render set is the page's notes. The boards are the fetched boards, or unchanged when that fetch fails. Nothing else changes. |
| Container.UrlChanged | entrypoints/content/components/StickyNotesContainer.tsx:367-370 | The URL becomes the message's URL, or "". A change to a non-empty URL makes the render set that URL's notes. An empty or unchanged URL leaves the render set alone. Notes never change. |
| Container.LogoutThenNavigateShowsNothing | entrypoints/content/components/StickyNotesContainer.tsx:216-221 | After a logout nothing renders, whatever URL arrives next. |
| Container.SettingsUpdated | entrypoints/content/components/StickyNotesContainer.tsx:332-336 | A message carrying the setting sets it. A message without it changes nothing. |
| Container.MiddleIsVisibleCentre | entrypoints/content/components/StickyNotesContainer.tsx:295-305 | A note asked for at the "middle" lands inside the visible part of the page, as far from its left edge as from its right and from its top as from its bottom. |
| Container.CreateNearRightClick | entrypoints/content/components/StickyNotesContainer.tsx:294-319 | After a right-click at (x, y), a `CREATE_STICKY` that names no position asks for the note at (x - 10, y - 10), whatever the text, the outcome and the viewport. |
| Container.CreateSticky | entrypoints/content/components/StickyNotesContainer.tsx:294-319 | The response's success is the remote outcome. The request uses the chosen position and the message text, with "" when the text is absent. |
| Container.RightClick | entrypoints/content/components/StickyNotesContainer.tsx:356-361 | A right-click records its page coordinates and changes nothing else. |
| Container.ExcludedIgnoresCase | entrypoints/content/components/StickyNotesContainer.tsx:30-33 | Exclusion does not depend on letter case. |
| Container.LowerChar | entrypoints/content/components/StickyNotesContainer.tsx:31 | Lower-casing a capital gives the same letter in lower case, any other character is unchanged, and no capital remains. |
| Container.Lower | entrypoints/content/components/StickyNotesContainer.tsx:31 | Lower-casing keeps the length, lower-cases each character in place, and leaves no capital. |
| Container.SettingControlsButton | entrypoints/content/components/StickyNotesContainer.tsx:332-374 | Once a setting arrives, the create button shows exactly when it is on and the host is not the app's own. On the app's own site the button never shows. |
| Container.Mount | entrypoints/content/components/StickyNotesContainer.tsx:343-353 | Mounting sets the URL to the page URL and turns the button setting off only when it was stored as false. The notes and boards are loaded as for a login: replaced by the fetched ones, or kept when a fetch fails. Nothing else changes. |
| Debounce.Step | entrypoints/content/components/Note.tsx:158-179 | A call replaces what waited for its key and sends nothing. An expiry sends what waited for its key, if anything, and empties that slot. The slots of other keys never change. |
| Debounce.Run | entrypoints/content/components/Note.tsx:158-179 | A run sends at most one write per event. |
| Debounce.RunSendsOnlyAccounted | entrypoints/content/components/Note.tsx:158-179 | Nothing is sent from nowhere. Each write is for a key whose timer expired during the run, and carries a payload that was waiting already or that a call during the run supplied. |
| Debounce.RunAppend | entrypoints/content/components/Note.tsx:158-179 | Running two event sequences in turn is running their concatenation, for both the waiting payloads and the writes sent. |
| Debounce.CallsOnlyArm | entrypoints/content/components/Note.tsx:158-179 | Calls alone send nothing, and the slot then holds the last call's payload. |
| Debounce.BurstSendsLast | entrypoints/content/components/Note.tsx:158-179 | A burst of calls followed by the timer sends exactly one write, carrying the last payload, and empties the slot. |
| Debounce.IdleExpireSendsNothing | entrypoints/content/components/Note.tsx:158-179 | A timer firing on an empty slot sends nothing. |
| Debounce.TwoKeysBothSent | entrypoints/content/components/Note.tsx:158-179 | Calls on two different keys are not coalesced: when both timers fire, both payloads are sent, in timer order, and nothing waits afterwards. |
| Debounce.KeysAreIndependent | entrypoints/content/components/Note.tsx:158-179 | What is sent for one key depends only on that key's events, so each debounced function coalesces only its own calls. |
| Debounce.Trailing | entrypoints/content/components/Note.tsx:158-179 | A non-empty call sequence fires at least one write. The last write carries the last call's payload and fires one window after it. |
| Debounce.BurstFiresOnce | entrypoints/content/components/Note.tsx:158-179 | Calls whose gaps are all shorter than the window give exactly one write, one window after the last call, with its payload. |
| Debounce.SpacedCallsAllFire | entrypoints/content/components/Note.tsx:158-179 | Calls at least a window apart each give their own write, one window after the call. |
| Debounce.ThreeQuickCalls | entrypoints/content/components/Note.tsx:177 | Calls at 0, 200 and 400 ms with the 1000 ms window give one write, at 1400 ms, with the third payload. |
| Debounce.TimedMatchesSlots | entrypoints/content/components/Note.tsx:158-179 | The timed view and the slot machine send the same payloads, in the same order. |
| NoteView.InitialContent | entrypoints/content/components/Note.tsx:139-155 | A string becomes a "doc" with one paragraph whose text is exactly that string, and a missing text gives "". An editor document keeps its blocks under a "doc" root. |
| NoteView.InitialContentIdempotent | entrypoints/content/components/Note.tsx:139-155 | Converting a converted document changes nothing. |
| NoteView.CreatedNoteOpensWithItsText | entrypoints/content/components/Note.tsx:139-155 | A note created from text t opens in an editor whose text is exactly t. |
| NoteView.Mount | entrypoints/content/components/Note.tsx:79-99 | A mounted note shows the parent's position, colour and size, is not dragging, has its board menu closed, and starts the first colour generation of this mounting. |
| NoteView.SizelessNoteShowsSmall | entrypoints/content/components/Note.tsx:99 | A note stored without a size shows small, and its first toggle asks for large. |
| NoteView.Recolor | entrypoints/content/components/Note.tsx:236-264 | Setting the local colour to a different value starts a later colour generation. The same colour changes nothing, and nothing but the colour and generation ever changes. |
| NoteView.ParentChanged | entrypoints/content/components/Note.tsx:84-95 | The local position follows the parent's only while not dragging. The size resyncs when the parent's size changes, and so does the colour (lines 262-264). A new colour generation starts exactly when the local colour changes. Everything else is kept. |
| NoteView.DragStart | entrypoints/content/components/Note.tsx:299-301 | A drag start sets the dragging flag and changes nothing else. |
| NoteView.DragStop | entrypoints/content/components/Note.tsx:86-90 | When dragging stops, the position effect runs and the local position becomes the parent's. Nothing else changes. |
| NoteView.DebouncedWrite | entrypoints/content/components/Note.tsx:158-179 | A call goes to the debounce instance made for this note, this mounting and the current colour generation. It carries the given content and position and that instance's colour. |
| NoteView.Fire | entrypoints/content/components/Note.tsx:159-177 | A write that fires sends the note's id, the page URL at firing time, the called position and content, and the instance's colour. It sends an empty title and no board or size. |
| NoteView.Drag | entrypoints/content/components/Note.tsx:207-216 | A drag sets the local position and reports that same position to the parent under the note's id. It schedules a write carrying that position on the current instance. |
| NoteView.EditorChanged | entrypoints/content/components/Note.tsx:201-204 | An edit schedules a write of the new document at the current local position, on the instance of the current colour generation, so it never joins a write waiting in an earlier instance. |
| NoteView.DragAll | entrypoints/content/components/Note.tsx:207-216 | A run of drags schedules one write per event, each carrying its position, all on one instance. The note ends at the last position, in the same colour generation. |
| NoteView.DragBurstWritesLastPosition | entrypoints/content/components/Note.tsx:158-216 | A continuous drag followed by the timer sends exactly one write. It carries the drag's last position and the URL of the page shown when it fires. |
| NoteView.RecolorRoundTripKeepsBothEdits | entrypoints/content/components/Note.tsx:158-179 | After a failed colour change brings the colour back, an edit made before the change and one made after it go to different instances, and both are sent. |
| NoteView.WaitingWriteCarriesOldColor | entrypoints/content/components/Note.tsx:158-179 | A write still waiting when a colour change succeeds fires with the old colour, and later calls go to a different instance. |
| NoteView.Toggle | entrypoints/content/components/Note.tsx:267-268 | The toggled size always differs from the current one. |
| NoteView.ToggleInvolution | entrypoints/content/components/Note.tsx:267-268 | Toggling twice gives back the size. |
| NoteView.ToggleSize | entrypoints/content/components/Note.tsx:266-290 | The request carries the other size. Success shows it and reloads. Failure restores the size held before the toggle and reloads nothing. |
| NoteView.ChangeColor | entrypoints/content/components/Note.tsx:236-259 | The request carries the new colour and the parent's text. Success shows the new colour and reloads. Failure reverts to the parent's colour. A real colour change starts a new generation, even when a failure brings the colour back. Nothing else local changes. |
| NoteView.ColorFailureRestores | entrypoints/content/components/Note.tsx:254-258 | When the local colour was in sync with the parent's, a failed change shows the previous colour again, and everything else but the generation is as before. |
| NoteView.SelectBoard | entrypoints/content/components/Note.tsx:115-136 | The request carries the board, the page URL, the editor's document, the local position and colour, an empty title and no size. The board is stored, the notes reload and the menu closes only on success. On failure nothing changes. |
| NoteView.SelectBoardOnlyAddsBoard | entrypoints/content/components/Note.tsx:115-136 | A board selection sends exactly what a debounced write fired at that moment would send, plus the board, and on success stores the board it sent. |
| NoteView.DragAgreesWithContainer | entrypoints/content/components/Note.tsx:207-216 | After the container applies a drag's report, the dragged note sits at the new position in the render set, and the render set is still the page's notes. When the drag stops, the note's local position equals the container's. |
| Popup.SelectAfterLoad | entrypoints/popup/App.tsx:65-82 | With boards, the selection is the stored id when it names a listed board, else the first board, which is then stored. With no boards it is null and null is stored. So the selection is null iff there are no boards, and otherwise always names a listed board. |
| Popup.SelectAfterLoadStable | entrypoints/popup/App.tsx:66-77 | Loading the same boards again with the resulting selection stored keeps it and writes nothing. |
| Popup.NormaliseStored | entrypoints/popup/App.tsx:190-196 | `null` and the string "null" give null and are written back as null. Any other falsy value reads as null, and any other string is kept. |
| Popup.IsProUser | entrypoints/popup/App.tsx:153-157 | A user is pro exactly when they have a one-time full-access status, or a monthly subscription in the PAID lifecycle. |
| Popup.NotProCases | entrypoints/popup/App.tsx:152-166 | No status, a free user, and an unpaid monthly subscriber are never pro, so "new board" leads them to the pricing page. A one-time purchaser always is pro. |
| Popup.RedirectRoundTrip | entrypoints/popup/App.tsx:130-134 | Reading the board back from a redirect link gives the id it was built from, so distinct boards get distinct links. |
| Popup.LoadBoards | entrypoints/popup/App.tsx:50-91 | Success shows the boards, profile and payment status, marks the code valid, stores it and settles the selection. Failure marks the code invalid and clears boards, profile and status but keeps the selection. Loading ends either way. |
| Popup.Logout | entrypoints/popup/App.tsx:104-123 | Logout resets the code, validity, boards, selection, profile, payment status and image-error flag. It returns the cleared storage, with no code, no stored selection and no button setting. |
| Popup.LoggedOutIsNotPro | entrypoints/popup/App.tsx:104-166 | After a logout, "new board" leads to the pricing page. |
| Popup.ReopenAfterLogout | entrypoints/popup/App.tsx:104-123 | A popup opened after a logout reads the cleared storage. It starts no load, shows no selection, rewrites nothing, shows the floating button, and keeps its own code. |
| Popup.BoardClick | entrypoints/popup/App.tsx:125-128 | The clicked board becomes the selection and is stored, and nothing else changes. |
| Popup.Open | entrypoints/popup/App.tsx:182-199 | A stored non-empty code is taken as valid and starts a load. The selection is normalised, and the button setting is on unless stored false. |
| Popup.CodeChanged | entrypoints/popup/App.tsx:202-214 | Only a new non-empty code in local storage is taken as valid and starts a load. Anything else leaves the state unchanged. |
| Strings.IndexOf | src/pages/Content/utils/imageUtils.ts:2 | The index found is an occurrence with none before it, and there is none exactly when the text does not contain the pattern. |
| Strings.Split | src/pages/Content/utils/imageUtils.ts:4 | A split has at least one piece, and no piece contains the separator. |
| Strings.JoinSplit | src/pages/Content/utils/imageUtils.ts:4 | Joining the pieces of a split with the separator gives back the original string. |
| Strings.SplitHead | src/pages/Content/utils/imageUtils.ts:6 | The first piece of a split is the text before the first separator. |
| Strings.BeforeFirst | src/pages/Content/utils/imageUtils.ts:6 | The text before the first separator is a prefix that holds no separator, and is followed in the input by the separator unless it is the whole input. |
| Strings.JoinSplitTail | src/pages/Content/utils/imageUtils.ts:4 | `split(c).slice(1).join(c)` is the text after the first separator. |
| Strings.AfterFirst | src/pages/Content/utils/imageUtils.ts:4 | With a separator present, the result is the text after the first one. Without one, it is empty. |
| CloudinaryRegex.CaptureAt | entrypoints/content/utils/imageUtils.ts:7 | At a start position the reported match is a match, and no match there has a different digit run or a longer group. No match is reported exactly when none exists there. |
| CloudinaryRegex.FirstMatch | entrypoints/content/utils/imageUtils.ts:7 | The reported match starts no later than any other match, and is the longest at its start. No match is reported only when none exists. |
| CloudinaryRegex.ExtractPublicId | entrypoints/content/utils/imageUtils.ts:1-17 | An empty URL and a URL without 'cloudinary.com' give null, so a result means a non-empty Cloudinary URL. |
| CloudinaryRegex.NullIffNoMatch | entrypoints/content/utils/imageUtils.ts:6-12 | On a Cloudinary URL the result is null exactly when the pattern `/v<digits>/<group>.` matches nowhere. |
| CloudinaryRegex.ReportsLeftmostLongest | entrypoints/content/utils/imageUtils.ts:7-8 | A result is the group of the leftmost match, and among matches at that start the one whose group runs to the last '.' before the next '/'. |
| CloudinaryRegex.GroupShape | entrypoints/content/utils/imageUtils.ts:7 | The group of any match is non-empty, holds no '/', and is followed in the URL by '.'. |
| CloudinaryRegex.PublicIdShape | entrypoints/content/utils/imageUtils.ts:7 | A public id is non-empty, contains no '/', and is followed in the URL by '.'. |
| CloudinaryRegex.LeftmostLongestIsReported | entrypoints/content/utils/imageUtils.ts:7-8 | On a Cloudinary URL, the leftmost and then longest match determines the result. |
| CloudinaryRegex.DottedNameKeepsInnerDots | entrypoints/content/utils/imageUtils.ts:7 | After any Cloudinary host, '/v1/abc.def.jpg' gives 'abc.def'. |
| CloudinarySplit.AfterUpload | src/pages/Content/utils/imageUtils.ts:2 | The segment is the text after the first '/upload/', up to the next '/upload/' or the end, and contains no '/upload/'. |
| CloudinarySplit.ExtractPublicIdAsWritten | src/pages/Content/utils/imageUtils.ts:1-8 | The result never contains '.'. |
| CloudinarySplit.AsWrittenCharacterised | src/pages/Content/utils/imageUtils.ts:3-6 | The result is the text before the first '.' of: the segment after its first '/' when the segment contains a 'v' anywhere, or else the whole segment. |
| CloudinarySplit.PlainSegmentIsId | src/pages/Content/utils/imageUtils.ts:3-6 | A segment with no 'v' and no '.' is the result itself. |
| CloudinarySplit.SingleComponentWithVIsEmpty | src/pages/Content/utils/imageUtils.ts:3-6 | A segment with a 'v' and no '/' (for example 'vid.png') gives the empty string. |
| CloudinarySplit.VacationLosesItsName | src/pages/Content/utils/imageUtils.ts:3-6 | As written, '.../upload/vacation.jpg' gives "". |
| CloudinarySplit.ExtractPublicId | src/pages/Content/utils/imageUtils.ts:1-8 | The corrected extractor never returns text containing '.'. |
| CloudinarySplit.VersionIsDropped | src/pages/Content/utils/imageUtils.ts:3-5 | For a segment 'v<digits>/rest', the corrected result is the text of rest before its first '.'. |
| CloudinarySplit.UnversionedKeepsWholeName | src/pages/Content/utils/imageUtils.ts:3-6 | For a segment without a leading version, the corrected result is the text of the whole segment before its first '.'. |
| CloudinarySplit.VacationKeepsItsName | src/pages/Content/utils/imageUtils.ts:3-6 | The corrected extractor gives 'vacation' for '.../upload/vacation.jpg'. |
| CloudinarySplit.CorrectionAgreesOnVersionedUrls | src/pages/Content/utils/imageUtils.ts:3-6 | On versioned segments the corrected and as-written extractors agree. |
| DraggableIcon.ClampAxis | src/pages/Content/components/DraggableIcon.tsx:62-63 | The clamped value is at least the low bound, and at most the high bound when the bounds are ordered. A value already within them is returned unchanged. |
| DraggableIcon.Constrain | src/pages/Content/components/DraggableIcon.tsx:60-65 | x is at least left and y at least top, x is at most right when left is at most right, and likewise y and bottom. A position inside the bounds is unchanged. |
| DraggableIcon.ConstrainIdempotent | src/pages/Content/components/DraggableIcon.tsx:60-65 | Clamping twice is clamping once, for any bounds. |
| DraggableIcon.ClampedIconIsVisible | src/pages/Content/components/DraggableIcon.tsx:44-65 | When the icon fits in the window, a clamped icon lies wholly inside the window. |
| DraggableIcon.FirstBoundsUpdate | src/pages/Content/components/DraggableIcon.tsx:29-83 | With no stored position the icon starts at (20, 20), and where the window has room the first bounds update moves and writes nothing. A stored position outside the window is pulled inside it and written back. |
| DraggableIcon.StorageChanged | src/pages/Content/components/DraggableIcon.tsx:36-40 | A change in another tab sets the position to the new stored value and changes nothing else. |
| DraggableIcon.UpdateBounds | src/pages/Content/components/DraggableIcon.tsx:69-83 | The new bounds are stored. State and storage are written exactly when clamping moved the position, and then with the clamped position. Otherwise the position is kept. |
| DraggableIcon.UpdateBoundsSettles | src/pages/Content/components/DraggableIcon.tsx:69-83 | After an update the icon is inside the bounds, and a second update with the same bounds writes nothing. |
| DraggableIcon.DragStart | src/pages/Content/components/DraggableIcon.tsx:122-125 | A drag start clears the dragging flag and records the start point. |
| DraggableIcon.Drag | src/pages/Content/components/DraggableIcon.tsx:127-140 | The flag turns on exactly when it was on or the pointer is more than 5 pixels from the start on x or on y. The icon moves to the pointer, and the position is stored. |
| DraggableIcon.DragPath | src/pages/Content/components/DraggableIcon.tsx:127-140 | A run of drag events leaves the icon at the last pointer position, and keeps the start point and bounds. |
| DraggableIcon.DragStopTimer | src/pages/Content/components/DraggableIcon.tsx:142-148 | The delayed reset clears the flag and the start point. |
| DraggableIcon.ClickAgreesWithContainer | src/pages/Content/components/DraggableIcon.tsx:116-118 | The click places the note where the newer container's "middle" request does. |
| DraggableIcon.JitterIsAClick | src/pages/Content/components/DraggableIcon.tsx:122-135 | A press whose pointer never moves more than 5 pixels on either axis from the start stays a click, and the click creates a note. |
| DraggableIcon.DragStaysADrag | src/pages/Content/components/DraggableIcon.tsx:127-135 | Once past the threshold, later drag events keep the flag on, and the click creates nothing. |
| DraggableIcon.StopTimerReenablesClick | src/pages/Content/components/DraggableIcon.tsx:142-148 | After the reset timer, a click creates a note. |
| LegacyContainer.ContextMenu | src/pages/Content/components/StickyNotesContainer.tsx:19-24 | A right-click records its client coordinates and leaves the notes alone. |
| LegacyContainer.FirstNotePosition | src/pages/Content/components/StickyNotesContainer.tsx:14-49 | The list starts empty with the last click at (0, 0). So the first note, before any right-click, is the only note and lands at (-10, -10); after a right-click at (x, y) it lands at (x - 10, y - 10). |
| LegacyContainer.Decimal | src/pages/Content/components/StickyNotesContainer.tsx:39 | A numeral is a non-empty string of digits, with a single digit exactly for numbers below 10. |
| LegacyContainer.DecimalInjective | src/pages/Content/components/StickyNotesContainer.tsx:39 | Different numbers have different numerals. |
| LegacyContainer.NoteId | src/pages/Content/components/StickyNotesContainer.tsx:39 | Every generated id starts with "note-" and has more after it. |
| LegacyContainer.NoteIdInjective | src/pages/Content/components/StickyNotesContainer.tsx:39 | Notes created at different milliseconds get different ids. |
| LegacyContainer.CreateSticky | src/pages/Content/components/StickyNotesContainer.tsx:37-49 | Exactly one note is appended and earlier notes are unchanged. Its id is "note-" plus the time, its position is 10 pixels up and left of the last right-click, and its text is the message's, or '' when missing. The response is always success. |
| LegacyContainer.Close | src/pages/Content/components/StickyNotesContainer.tsx:56-58 | No note with the id remains. Every other note remains, in its order and with its multiplicity, and nothing new appears. |
| LegacyContainer.CloseAbsentIsNoop | src/pages/Content/components/StickyNotesContainer.tsx:56-58 | Closing an id no note has changes nothing. |
| LegacyContainer.CloseUniqueRemovesOne | src/pages/Content/components/StickyNotesContainer.tsx:56-58 | Closing the one note with an id removes exactly it and keeps the others in order. |
| LegacyContainer.CreateThenCloseRestores | src/pages/Content/components/StickyNotesContainer.tsx:37-58 | Creating a note and closing it again restores the list when no earlier note has the same id. |

## Left out

- Remote calls (`createNote`, `updateNote`, `deleteNote`, `fetchNotes`, `fetchBoards`, profile and payment fetches) are not modelled. Each is only a success/failure `Outcome` or a fetched value; the HTTP layer is not part of this model.
- `chrome.storage`, `chrome.runtime` and `chrome.tabs` messaging are not modelled. Values read from storage are parameters and writes are returned as values.
- Sounds, focus handling, the editor itself, image upload and `NewStickyButton`'s percent-string geometry are left out. They are I/O or floating-point layout with no state decision to state.
- Timers are not modelled as such:
  - the 1000 ms debounce appears as explicit `Expire` events, or as call times in the timed view;
  - `DraggableIcon` has a 100 ms bounds delay and a 10 ms flag reset, which appear as separate transitions.
- React batching and concurrent handlers are not modelled. Each handler is one sequential step, and an effect runs when a dependency changes value.
- Container.LoadBoards: a fetch that resolves to `undefined` makes the source store `undefined` as the board list. The model has no such value and treats it as an empty listing.
- Container.Lower: `toLowerCase` is modelled for ASCII letters only. The excluded host names are ASCII.
- Container.BeginCreate: the create writes the string 'small' as the size, while `Note.tsx` compares against `INoteSize.SMALL`. The enum module is not part of this model, so 'small' is taken to be that enum's value.
- Debounce.Trailing: a gap of exactly the window counts as quiet, so the earlier call fires. lodash's behaviour at the exact boundary depends on timer ordering.
- DraggableIcon.Drag: `react-draggable` also clamps the drag itself to the bounds. That library is not part of this model, so the pointer position arrives already clamped or not, as the caller gives it.
- LegacyContainer.CreateSticky: `Date.now()` is a parameter. Two creates in the same millisecond would share an id, and the round-trip lemma requires a fresh id.
- Colours are the six values the note's colour menu offers. A stored colour outside them is not modelled.
- The regular-expression extractor's `try`/`catch` is not modelled separately. The model is a total function, and nothing in it can throw, so the `catch` branch that returns null is unreachable.
- The split extractor has no model for a URL without '/upload/'. The code reads a property of `undefined` there and throws, so such URLs are excluded by a precondition.
- `BASE_URL` is the development value "http://localhost:3008", since `IS_PRODUCTION` is false in constants.ts.
- The popup's `handleSettingsToggle`, image-error handling and the welcome page are not modelled. They only write a flag and send a message, and `SETTINGS_UPDATED` is modelled on the receiving side.

## Findings

| source | as written | input that shows it | evidently intended | confidence | as-written member | corrected member |
|---|---|---|---|---|---|---|
| src/pages/Content/utils/imageUtils.ts:3-5 | The first '/'-separated component of the segment after '/upload/' is dropped whenever the segment contains a 'v' anywhere. | `https://res.cloudinary.com/demo/image/upload/vacation.jpg` gives "". 'avatar.png' also gives "". | Drop the first component only when it is a version, 'v' followed by digits, the shape the newer extractor's `/v\d+/` looks for. Then 'vacation.jpg' gives 'vacation' (VacationKeepsItsName), and versioned URLs are unchanged (CorrectionAgreesOnVersionedUrls). | not executed | CloudinarySplit.VacationLosesItsName | CloudinarySplit.ExtractPublicId |
