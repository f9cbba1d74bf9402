/** The record types shared by the content script and the popup: the sticky
    note, its rich-text document, boards, positions and the outcome of a call
    to the remote store. */
module Types {

  datatype Option<+T> = None | Some(value: T) {
    /** The wrapped value, or `default` when there is none (JavaScript's `v || d`
        on a value that is only ever absent or present). */
    function GetOr(default: T): T {
      match this
      case Some(v) => v
      case None => default
    }
  }

  /** What a remote call (create, update, delete, fetch) did: it either
      resolved or threw. The HTTP client itself is outside the model. */
  datatype Outcome = Succeeded | Failed

  /** A point in page-document coordinates. Browser coordinates are doubles;
      they are modelled as exact reals. */
  datatype Position = Position(x: real, y: real)

  /** The viewport facts event handlers read from `window`. */
  datatype Viewport = Viewport(innerWidth: real, innerHeight: real, scrollY: real)

  /** The six note colours the colour menu offers. */
  datatype Color = GREEN | BLUE | RED | YELLOW | PURPLE | GRAY

  /** The two note sizes (the `INoteSize` enum). */
  datatype NoteSize = Small | Large

  /** Image attributes of an inline node. */
  datatype Attrs = Attrs(src: Option<string>, alt: Option<string>, title: Option<string>)

  /** A leaf of the rich-text tree: a text run or an image. */
  datatype Inline = Inline(kind: string, text: Option<string>, attrs: Option<Attrs>)

  /** A block of the rich-text tree (a paragraph, a list, ...). */
  datatype Block = Block(kind: string, inlines: Option<seq<Inline>>)

  /** The editor's JSON document (`TipTapContent`). */
  datatype Doc = Doc(kind: string, blocks: seq<Block>)

  /** A note's `text` field: either a plain string or an editor document. */
  datatype NoteText = Plain(s: string) | Rich(doc: Doc)

  /** A note as the content script holds it. `boardId` is null for a note on no
      board; `size` is absent on notes stored before sizes existed. */
  datatype StickyNote = StickyNote(
    id: string,
    websiteUrl: string,
    boardId: Option<string>,
    position: Position,
    text: NoteText,
    color: Color,
    size: Option<NoteSize>)

  /** A board as the server lists it (`_id`, `boardName`). */
  datatype ServerBoard = ServerBoard(id: string, boardName: string)

  /** The document an editor starts from when it is seeded with plain text:
      one paragraph holding one text run. */
  function SeedDoc(text: string): Doc {
    Doc("doc", [Block("paragraph", Some([Inline("text", Some(text), None)]))])
  }

  /** The text of a list of inline nodes, concatenated. */
  function InlinesText(xs: seq<Inline>): string {
    if |xs| == 0 then ""
    else xs[0].text.GetOr("") + InlinesText(xs[1..])
  }

  /** The text of a document: its blocks' text runs, concatenated in order. */
  function DocText(blocks: seq<Block>): string {
    if |blocks| == 0 then ""
    else
      var first := match blocks[0].inlines case Some(xs) => InlinesText(xs) case None => "";
      first + DocText(blocks[1..])
  }

  /** A seeded document is a "doc" with exactly one paragraph holding exactly
      one text run, and its text is exactly the seed. */
  lemma SeedDocShape(text: string)
    ensures SeedDoc(text).kind == "doc" && |SeedDoc(text).blocks| == 1
    ensures SeedDoc(text).blocks[0].kind == "paragraph"
    ensures SeedDoc(text).blocks[0].inlines == Some([Inline("text", Some(text), None)])
    ensures DocText(SeedDoc(text).blocks) == text
  {
    var b := SeedDoc(text).blocks;
    assert b[1..] == [];
    assert InlinesText([Inline("text", Some(text), None)]) == text + InlinesText([]);
  }

  /** JavaScript truthiness of an optional string: absent and "" are falsy. */
  predicate Truthy(v: Option<string>) {
    v.Some? && v.value != ""
  }

  /** `v || null` for an optional string read from storage. */
  function OrNull(v: Option<string>): (r: Option<string>)
    ensures r.Some? <==> Truthy(v)
    ensures r.Some? ==> r == v
  {
    if Truthy(v) then v else None
  }

  /** `v || null` normalises: it never yields the empty string, applying it
      again changes nothing, and a truthy value passes through unchanged. */
  lemma OrNullNormalises(v: Option<string>)
    ensures OrNull(v) != Some("")
    ensures OrNull(OrNull(v)) == OrNull(v)
    ensures Truthy(v) ==> OrNull(v) == v
  {
  }

  /** `stored !== false`: a boolean setting that is on unless it was stored as
      exactly `false` (an absent value means on). */
  function FlagDefaultOn(stored: Option<bool>): (on: bool)
    ensures !on <==> stored == Some(false)
  {
    match stored
    case Some(b) => b
    case None => true
  }
}
