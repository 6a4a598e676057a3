/** The typed document tree of `src/structs_model` and the `init_index` operations that give
    each object its `index`: the number of characters it spans. Every object owns its children
    outright (a Rust `Vec` or `Option` of values, never shared), so an `init_index(&mut self)`
    call is described by a function from the object before the call to the object after it
    (`CharIndexed`, `ParaIndexed`, ...), and each of the source's loops by a method proved equal
    to that function (`CharInitIndex`, `ParaInitIndex`, ...). */
module StructsModel {
  import opened Wrappers

  // ---------------------------------------------------------------- the objects

  datatype VerseObject = VerseObject(
    index: nat, marker: string, number: string,
    altnumber: Option<string>, pubnumber: Option<string>)
  {
    /** `get_index`: the index as stored, not recomputed. */
    function GetIndex(): (r: nat)
      ensures r == index
    {
      index
    }
  }

  datatype ChapterObject = ChapterObject(
    index: nat, marker: string, number: string,
    altnumber: Option<string>, pubnumber: Option<string>)

  datatype FigureObject = FigureObject(
    index: nat, marker: string, content: Option<seq<string>>,
    file: Option<string>, size: Option<string>, ref: Option<string>)

  datatype MilestoneObject = MilestoneObject(
    index: nat, marker: string, who: Option<string>,
    additionalProperties: Option<map<string, string>>)

  /** `InParaObject`: what a paragraph, char, note or table cell holds. */
  datatype InParaObject =
    | Verse(verse: VerseObject)
    | Char(chr: CharMarkerObject)
    | Milestone(ms: MilestoneObject)
    | Figure(fig: FigureObject)
    | Note(nt: NoteObject)
    | String(st: string)

  /** `Option<Vec<InParaObject>>`, the content of chars, notes, paragraphs and cells. */
  datatype InParaContent = Absent | Present(items: seq<InParaObject>)

  datatype CharMarkerObject = CharMarkerObject(
    index: nat, marker: string, content: InParaContent,
    linkId: Option<string>, linkHref: Option<string>,
    srcloc: Option<string>, strong: Option<string>)

  datatype NoteObject = NoteObject(
    index: nat, marker: string, content: InParaContent, caller: Option<string>)

  datatype ParaMarkerObject = ParaMarkerObject(
    index: nat, marker: string, content: InParaContent)

  datatype SidebarObject = SidebarObject(
    index: nat, marker: string, content: Option<seq<ParaMarkerObject>>,
    category: Option<string>)

  /** A table cell, by the one field the row and table walks read. */
  datatype CellObject = CellObject(content: InParaContent)

  datatype RowObject = RowObject(index: nat, marker: string, content: Option<seq<CellObject>>)

  datatype TableObject = TableObject(index: nat, marker: string, content: Option<seq<RowObject>>)

  datatype BookObject = BookObject(
    index: nat, marker: string, code: string, content: Option<seq<string>>)
  {
    /** `get`: the object itself. */
    function Get(): (r: BookObject)
      ensures r == this
    {
      this
    }
  }

  /** `Content`: a top-level entry of the document. */
  datatype Content =
    | Book(book: BookObject)
    | Chapter(chapter: ChapterObject)
    | Para(para: ParaMarkerObject)
    | Table(table: TableObject)
    | Sidebar(sidebar: SidebarObject)

  /** The document root; `add_book` and `set_version` update it in place. */
  class Root {
    var rootType: string
    var version: string
    var content: seq<Content>

    constructor (rootType: string, version: string, content: seq<Content>)
      ensures this.rootType == rootType && this.version == version && this.content == content
    {
      this.rootType := rootType;
      this.version := version;
      this.content := content;
    }

    /** `add_book`: one `Book` entry more, at the end. */
    method AddBook(book: BookObject)
      modifies this
      ensures content == old(content) + [Book(book)]
      ensures rootType == old(rootType) && version == old(version)
    {
      content := content + [Book(book)];
    }

    /** `set_version`: the version becomes the argument, whatever it was before. */
    method SetVersion(newVersion: string)
      modifies this
      ensures version == newVersion
      ensures rootType == old(rootType) && content == old(content)
    {
      version := newVersion;
    }
  }

  // ---------------------------------------------------------------- sums

  /** `iter().flatten()` over an `Option<Vec<_>>`: the items, or none. */
  function Flatten<T>(o: Option<seq<T>>): seq<T>
  {
    if o.Some? then o.value else []
  }

  function Items(content: InParaContent): seq<InParaObject>
  {
    if content.Present? then content.items else []
  }

  /** `f(xs[0]) + ... + f(xs[|xs| - 1])`, accumulated from the left as `tot_len` is. */
  function SumOf<T>(xs: seq<T>, f: T -> nat): nat
  {
    if xs == [] then 0 else SumOf(xs[..|xs| - 1], f) + f(xs[|xs| - 1])
  }

  lemma {:induction false} SumOfSnoc<T>(xs: seq<T>, x: T, f: T -> nat)
    ensures SumOf(xs + [x], f) == SumOf(xs, f) + f(x)
  {
    assert (xs + [x])[..|xs|] == xs;
  }

  /** What a child adds to `tot_len`: a string its number of characters, any other child its
      `index` field as it stands when it is read. */
  function Weight(o: InParaObject): nat
  {
    match o
    case Verse(v) => v.index
    case Char(c) => c.index
    case Milestone(ms) => ms.index
    case Figure(fig) => fig.index
    case Note(nt) => nt.index
    case String(st) => |st|
  }

  /** The total contribution of some in-paragraph content. */
  function Length(content: InParaContent): nat
  {
    SumOf(Items(content), Weight)
  }

  function CharCount(s: string): nat
  {
    |s|
  }

  // ---------------------------------------------------------------- leaf objects

  /** `VerseObject::init_index`. */
  function VerseIndexed(v: VerseObject): (r: VerseObject)
    ensures r.index == |v.number|
    ensures r.(index := v.index) == v
  {
    v.(index := |v.number|)
  }

  /** `ChapterObject::init_index`. */
  function ChapterIndexed(c: ChapterObject): (r: ChapterObject)
    ensures r.index == |c.number|
    ensures r.(index := c.index) == c
  {
    c.(index := |c.number|)
  }

  /** `FigureObject::init_index`. */
  function FigureIndexed(fig: FigureObject): (r: FigureObject)
    ensures r.index == 0
    ensures r.(index := fig.index) == fig
  {
    fig.(index := 0)
  }

  /** `MilestoneObject::init_index`. */
  function MilestoneIndexed(ms: MilestoneObject): (r: MilestoneObject)
    ensures r.index == 0
    ensures r.(index := ms.index) == ms
  {
    ms.(index := 0)
  }

  /** The leaf indexes depend on nothing but the verse or chapter number, so a second
      `init_index` changes nothing. */
  lemma LeavesIdempotent(v: VerseObject, c: ChapterObject, fig: FigureObject, ms: MilestoneObject)
    ensures VerseIndexed(VerseIndexed(v)) == VerseIndexed(v)
    ensures ChapterIndexed(ChapterIndexed(c)) == ChapterIndexed(c)
    ensures FigureIndexed(FigureIndexed(fig)) == FigureIndexed(fig)
    ensures MilestoneIndexed(MilestoneIndexed(ms)) == MilestoneIndexed(ms)
  {
  }

  /** `BookObject::init_index`: the total number of characters of the content strings. */
  function BookIndexed(b: BookObject): (r: BookObject)
    ensures r.index == SumOf(Flatten(b.content), CharCount)
    ensures r.(index := b.index) == b
  {
    b.(index := SumOf(Flatten(b.content), CharCount))
  }

  /** The book's index depends on nothing but its strings, so a second `init_index` changes
      nothing. */
  lemma BookIdempotent(b: BookObject)
    ensures BookIndexed(BookIndexed(b)) == BookIndexed(b)
  {
  }

  // ---------------------------------------------------------------- chars and notes

  /** What the loop of `CharMarkerObject::init_index` does to one child: every structured
      child is re-initialised, strings are left as they are. */
  function CharChild(o: InParaObject): (r: InParaObject)
    ensures o.String? ==> r == o && Weight(r) == |o.st|
    ensures o.Verse? ==> r.Verse? && Weight(r) == |o.verse.number|
    ensures o.Milestone? || o.Figure? ==> Weight(r) == 0
    ensures o.Char? ==> r == Char(CharIndexed(o.chr))
    ensures o.Note? ==> r == Note(NoteIndexed(o.nt))
  {
    match o
    case Verse(v) => Verse(VerseIndexed(v))
    case Char(c) => Char(CharIndexed(c))
    case Milestone(ms) => Milestone(MilestoneIndexed(ms))
    case Figure(fig) => Figure(FigureIndexed(fig))
    case Note(nt) => Note(NoteIndexed(nt))
    case String(_) => o
  }

  /** What the loops of paragraphs, notes, sidebars, rows and tables do to one child: verses and
      chars are re-initialised; milestones, figures, notes and strings are read as they are. */
  function ParaChild(o: InParaObject): (r: InParaObject)
    ensures o.Verse? ==> r.Verse? && Weight(r) == |o.verse.number|
    ensures o.Char? ==> r == Char(CharIndexed(o.chr))
    ensures !o.Verse? && !o.Char? ==> r == o
  {
    match o
    case Verse(v) => Verse(VerseIndexed(v))
    case Char(c) => Char(CharIndexed(c))
    case _ => o
  }

  function CharChildren(content: InParaContent): (r: InParaContent)
    ensures r.Present? == content.Present?
    ensures |Items(r)| == |Items(content)|
    ensures forall k :: 0 <= k < |Items(content)| ==> Items(r)[k] == CharChild(Items(content)[k])
  {
    match content
    case Absent => Absent
    case Present(xs) => Present(seq(|xs|, k requires 0 <= k < |xs| => CharChild(xs[k])))
  }

  function ParaChildren(content: InParaContent): (r: InParaContent)
    ensures r.Present? == content.Present?
    ensures |Items(r)| == |Items(content)|
    ensures forall k :: 0 <= k < |Items(content)| ==> Items(r)[k] == ParaChild(Items(content)[k])
  {
    match content
    case Absent => Absent
    case Present(xs) => Present(seq(|xs|, k requires 0 <= k < |xs| => ParaChild(xs[k])))
  }

  /** `CharMarkerObject::init_index`: every child re-initialised, then the index set to the sum
      of the children's contributions; nothing else changes. */
  function CharIndexed(c: CharMarkerObject): (r: CharMarkerObject)
    ensures r.content == CharChildren(c.content)
    ensures r.index == Length(r.content)
    ensures r.(index := c.index, content := c.content) == c
  {
    var content := CharChildren(c.content);
    c.(content := content, index := Length(content))
  }

  /** `NoteObject::init_index`: verse and char children re-initialised, the others read as
      stored, then the index set to the sum; nothing else changes. */
  function NoteIndexed(n: NoteObject): (r: NoteObject)
    ensures r.content == ParaChildren(n.content)
    ensures r.index == Length(r.content)
    ensures r.(index := n.index, content := n.content) == n
  {
    var content := ParaChildren(n.content);
    n.(content := content, index := Length(content))
  }

  // ---------------------------------------------------------------- paragraphs and sidebars

  /** `ParaMarkerObject::init_index`: a "b" paragraph without content counts 1 and nothing is
      walked; otherwise the content is walked as a note's is, with no extra 1 for "b". */
  function ParaIndexed(p: ParaMarkerObject): (r: ParaMarkerObject)
    ensures p.marker == "b" && p.content.Absent? ==> r == p.(index := 1)
    ensures !(p.marker == "b" && p.content.Absent?) ==>
      r.content == ParaChildren(p.content) && r.index == Length(r.content)
    ensures r.marker == p.marker
  {
    if p.marker == "b" && p.content.Absent? then
      p.(index := 1)
    else
      var content := ParaChildren(p.content);
      p.(content := content, index := Length(content))
  }

  /** A paragraph as the sidebar leaves it: its content walked, its own index untouched. */
  function ParaWalked(p: ParaMarkerObject): (r: ParaMarkerObject)
    ensures r.content == ParaChildren(p.content)
    ensures r.(content := p.content) == p
  {
    p.(content := ParaChildren(p.content))
  }

  function ParaLength(p: ParaMarkerObject): nat
  {
    Length(p.content)
  }

  function Bonus(marker: string): nat
  {
    if marker == "b" then 1 else 0
  }

  /** `SidebarObject::init_index`: 1 for a "b" sidebar, plus the contributions of every
      paragraph's content; the paragraphs' own `init_index` is never called. */
  function SidebarIndexed(s: SidebarObject): (r: SidebarObject)
    ensures r.content.Some? == s.content.Some?
    ensures |Flatten(r.content)| == |Flatten(s.content)|
    ensures forall k :: 0 <= k < |Flatten(s.content)| ==>
      Flatten(r.content)[k] == ParaWalked(Flatten(s.content)[k])
    ensures r.index == Bonus(s.marker) + SumOf(Flatten(r.content), ParaLength)
    ensures r.marker == s.marker && r.category == s.category
  {
    match s.content
    case None => s.(index := Bonus(s.marker))
    case Some(ps) =>
      var ps' := seq(|ps|, k requires 0 <= k < |ps| => ParaWalked(ps[k]));
      s.(content := Some(ps'), index := Bonus(s.marker) + SumOf(ps', ParaLength))
  }

  // ---------------------------------------------------------------- rows and tables

  function CellWalked(cell: CellObject): (r: CellObject)
    ensures r.content == ParaChildren(cell.content)
  {
    cell.(content := ParaChildren(cell.content))
  }

  function CellLength(cell: CellObject): nat
  {
    Length(cell.content)
  }

  /** The cells of a row after the walk shared by rows and tables: each cell's content walked,
      the cells themselves not re-indexed. */
  function CellsWalked(cells: Option<seq<CellObject>>): (r: Option<seq<CellObject>>)
    ensures r.Some? == cells.Some?
    ensures |Flatten(r)| == |Flatten(cells)|
    ensures forall k :: 0 <= k < |Flatten(cells)| ==> Flatten(r)[k] == CellWalked(Flatten(cells)[k])
  {
    match cells
    case None => None
    case Some(cs) => Some(seq(|cs|, k requires 0 <= k < |cs| => CellWalked(cs[k])))
  }

  function CellsLength(cells: Option<seq<CellObject>>): nat
  {
    SumOf(Flatten(cells), CellLength)
  }

  /** `RowObject::init_index`: the contributions of every cell's content, in order. */
  function RowIndexed(row: RowObject): (r: RowObject)
    ensures r.content == CellsWalked(row.content)
    ensures r.index == CellsLength(r.content)
    ensures r.marker == row.marker
  {
    var cells := CellsWalked(row.content);
    row.(content := cells, index := CellsLength(cells))
  }

  /** A row as the table leaves it: its cells walked, its own index untouched. */
  function RowWalked(row: RowObject): (r: RowObject)
    ensures r.content == CellsWalked(row.content)
    ensures r.(content := row.content) == row
  {
    row.(content := CellsWalked(row.content))
  }

  function RowLength(row: RowObject): nat
  {
    CellsLength(row.content)
  }

  /** `TableObject::init_index`: the contributions of rows, then cells, then content, in order;
      the rows' own `init_index` is never called. */
  function TableIndexed(t: TableObject): (r: TableObject)
    ensures r.content.Some? == t.content.Some?
    ensures |Flatten(r.content)| == |Flatten(t.content)|
    ensures forall k :: 0 <= k < |Flatten(t.content)| ==>
      Flatten(r.content)[k] == RowWalked(Flatten(t.content)[k])
    ensures r.index == SumOf(Flatten(r.content), RowLength)
    ensures r.marker == t.marker
  {
    match t.content
    case None => t.(index := 0)
    case Some(rows) =>
      var rows' := seq(|rows|, k requires 0 <= k < |rows| => RowWalked(rows[k]));
      t.(content := Some(rows'), index := SumOf(rows', RowLength))
  }

  // ---------------------------------------------------------------- what the walks compute

  /** `f` over `ys` sums to what `g` over `xs` does when the two agree item by item. */
  lemma {:induction false} SumOfPointwise<A, B>(xs: seq<A>, g: A -> nat, ys: seq<B>, f: B -> nat)
    requires |xs| == |ys|
    requires forall k :: 0 <= k < |xs| ==> f(ys[k]) == g(xs[k])
    ensures SumOf(ys, f) == SumOf(xs, g)
    decreases |xs|
  {
    if xs != [] {
      SumOfPointwise(xs[..|xs| - 1], g, ys[..|ys| - 1], f);
    }
  }

  /** What a paragraph adds to its sidebar: what its own `init_index` would give it, except
      that a "b" paragraph without content adds 0, not 1. */
  function ParaShare(p: ParaMarkerObject): nat
  {
    if p.marker == "b" && p.content.Absent? then 0 else ParaIndexed(p).index
  }

  /** The sidebar's index in terms of its paragraphs: 1 for a "b" sidebar plus each
      paragraph's share, the paragraph-level "b" rule not applied. */
  lemma {:induction false} SidebarByParagraphs(s: SidebarObject)
    ensures SidebarIndexed(s).index == Bonus(s.marker) + SumOf(Flatten(s.content), ParaShare)
  {
    var ps := Flatten(s.content);
    var ps' := Flatten(SidebarIndexed(s).content);
    SumOfPointwise(ps, ParaShare, ps', ParaLength);
  }

  /** A sidebar made of one "b" paragraph without content counts 0, although that paragraph's
      own `init_index` gives it 1. */
  lemma {:induction false} SidebarSkipsBlankParagraph(marker: string)
    requires marker != "b"
    ensures var p := ParaMarkerObject(0, "b", Absent);
      ParaIndexed(p).index == 1
      && SidebarIndexed(SidebarObject(0, marker, Some([p]), None)).index == 0
  {
    var p := ParaMarkerObject(0, "b", Absent);
    SidebarByParagraphs(SidebarObject(0, marker, Some([p]), None));
  }

  /** The table's index is the sum of what each row's own `init_index` would give it, although
      the rows keep their old indexes. */
  lemma {:induction false} TableByRows(t: TableObject)
    ensures TableIndexed(t).index == SumOf(Flatten(t.content), (row: RowObject) => RowIndexed(row).index)
  {
    var rows := Flatten(t.content);
    var rows' := Flatten(TableIndexed(t).content);
    SumOfPointwise(rows, (row: RowObject) => RowIndexed(row).index, rows', RowLength);
  }

  /** Without content nothing is summed: a char, note, row, table or book gets 0, a paragraph
      other than "b" gets 0, and a sidebar gets 1 for "b" and 0 otherwise. */
  lemma NoContentCountsZero(c: CharMarkerObject, n: NoteObject, p: ParaMarkerObject,
                            s: SidebarObject, row: RowObject, t: TableObject, b: BookObject)
    requires c.content.Absent? && n.content.Absent? && p.content.Absent? && p.marker != "b"
    requires s.content.None? && row.content.None? && t.content.None? && b.content.None?
    ensures CharIndexed(c).index == 0 && NoteIndexed(n).index == 0 && ParaIndexed(p).index == 0
    ensures SidebarIndexed(s).index == if s.marker == "b" then 1 else 0
    ensures RowIndexed(row).index == 0 && TableIndexed(t).index == 0 && BookIndexed(b).index == 0
  {
  }

  // ---------------------------------------------------------------- only indexes change

  /** The object with every index in it, its own and its descendants', set to 0. */
  function Shape(o: InParaObject): InParaObject
  {
    match o
    case Verse(v) => Verse(v.(index := 0))
    case Char(c) => Char(c.(index := 0, content := ContentShape(c.content)))
    case Milestone(ms) => Milestone(ms.(index := 0))
    case Figure(fig) => Figure(fig.(index := 0))
    case Note(nt) => Note(nt.(index := 0, content := ContentShape(nt.content)))
    case String(_) => o
  }

  function ContentShape(content: InParaContent): InParaContent
  {
    match content
    case Absent => Absent
    case Present(xs) => Present(seq(|xs|, k requires 0 <= k < |xs| => Shape(xs[k])))
  }

  lemma {:induction false} ChildKeepsShape(o: InParaObject)
    ensures Shape(CharChild(o)) == Shape(o)
    ensures Shape(ParaChild(o)) == Shape(o)
  {
    match o
    case Char(c) => ChildrenKeepShape(c.content);
    case Note(nt) => ChildrenKeepShape(nt.content);
    case _ =>
  }

  /** Walking content changes indexes and nothing else, however deep. */
  lemma {:induction false} ChildrenKeepShape(content: InParaContent)
    ensures ContentShape(CharChildren(content)) == ContentShape(content)
    ensures ContentShape(ParaChildren(content)) == ContentShape(content)
  {
    match content
    case Absent =>
    case Present(xs) =>
      forall k | 0 <= k < |xs|
        ensures Shape(CharChild(xs[k])) == Shape(xs[k]) && Shape(ParaChild(xs[k])) == Shape(xs[k])
      {
        ChildKeepsShape(xs[k]);
      }
      assert Items(ContentShape(CharChildren(content))) == Items(ContentShape(content));
      assert Items(ContentShape(ParaChildren(content))) == Items(ContentShape(content));
  }

  /** `init_index` on a char, note or paragraph changes indexes only, its own and its
      descendants'. */
  lemma {:induction false} OnlyIndexesChange(c: CharMarkerObject, n: NoteObject, p: ParaMarkerObject)
    ensures Shape(Char(CharIndexed(c))) == Shape(Char(c))
    ensures Shape(Note(NoteIndexed(n))) == Shape(Note(n))
    ensures ContentShape(ParaIndexed(p).content) == ContentShape(p.content)
  {
    ChildrenKeepShape(c.content);
    ChildrenKeepShape(n.content);
    ChildrenKeepShape(p.content);
  }

  // ---------------------------------------------------------------- idempotence

  lemma {:induction false} ChildIdempotent(o: InParaObject)
    ensures CharChild(CharChild(o)) == CharChild(o)
    ensures ParaChild(ParaChild(o)) == ParaChild(o)
  {
    match o
    case Char(c) => ChildrenIdempotent(c.content);
    case Note(nt) => ChildrenIdempotent(nt.content);
    case _ =>
  }

  /** Walking content a second time changes nothing. */
  lemma {:induction false} ChildrenIdempotent(content: InParaContent)
    ensures CharChildren(CharChildren(content)) == CharChildren(content)
    ensures ParaChildren(ParaChildren(content)) == ParaChildren(content)
  {
    match content
    case Absent =>
    case Present(xs) =>
      forall k | 0 <= k < |xs|
        ensures CharChild(CharChild(xs[k])) == CharChild(xs[k])
        ensures ParaChild(ParaChild(xs[k])) == ParaChild(xs[k])
      {
        ChildIdempotent(xs[k]);
      }
      assert Items(CharChildren(CharChildren(content))) == Items(CharChildren(content));
      assert Items(ParaChildren(ParaChildren(content))) == Items(ParaChildren(content));
  }

  /** A second `init_index` on a char, note or paragraph changes nothing. */
  lemma {:induction false} InParaIdempotent(c: CharMarkerObject, n: NoteObject, p: ParaMarkerObject)
    ensures CharIndexed(CharIndexed(c)) == CharIndexed(c)
    ensures NoteIndexed(NoteIndexed(n)) == NoteIndexed(n)
    ensures ParaIndexed(ParaIndexed(p)) == ParaIndexed(p)
  {
    ChildrenIdempotent(c.content);
    ChildrenIdempotent(n.content);
    ChildrenIdempotent(p.content);
  }

  /** A second `init_index` on a sidebar changes nothing. */
  lemma {:induction false} SidebarIdempotent(s: SidebarObject)
    ensures SidebarIndexed(SidebarIndexed(s)) == SidebarIndexed(s)
  {
    var ps := Flatten(SidebarIndexed(s).content);
    forall k | 0 <= k < |ps| ensures ParaWalked(ps[k]) == ps[k] {
      ChildrenIdempotent(Flatten(s.content)[k].content);
    }
    assert Flatten(SidebarIndexed(SidebarIndexed(s)).content) == ps;
  }

  lemma {:induction false} CellsIdempotent(cells: Option<seq<CellObject>>)
    ensures CellsWalked(CellsWalked(cells)) == CellsWalked(cells)
  {
    var cs := Flatten(CellsWalked(cells));
    forall k | 0 <= k < |cs| ensures CellWalked(cs[k]) == cs[k] {
      ChildrenIdempotent(Flatten(cells)[k].content);
    }
    assert Flatten(CellsWalked(CellsWalked(cells))) == cs;
  }

  /** A second `init_index` on a row or a table changes nothing. */
  lemma {:induction false} TableIdempotent(row: RowObject, t: TableObject)
    ensures RowIndexed(RowIndexed(row)) == RowIndexed(row)
    ensures TableIndexed(TableIndexed(t)) == TableIndexed(t)
  {
    CellsIdempotent(row.content);
    var rows := Flatten(TableIndexed(t).content);
    forall k | 0 <= k < |rows| ensures RowWalked(rows[k]) == rows[k] {
      CellsIdempotent(Flatten(t.content)[k].content);
    }
    assert Flatten(TableIndexed(TableIndexed(t)).content) == rows;
  }

  // ---------------------------------------------------------------- the loops

  /** One pass of a content loop: the child appended and `tot_len` grown by its contribution. */
  lemma ChildStep(ys: seq<InParaObject>, y: InParaObject, len: nat)
    requires len == Weight(y)
    ensures SumOf(ys + [y], Weight) == SumOf(ys, Weight) + len
  {
    SumOfSnoc(ys, y, Weight);
  }

  /** One pass of the sidebar's loop over paragraphs. */
  lemma ParaStep(ps': seq<ParaMarkerObject>, p: ParaMarkerObject, content: InParaContent, len: nat)
    requires content == ParaChildren(p.content) && len == Length(content)
    ensures p.(content := content) == ParaWalked(p)
    ensures SumOf(ps' + [ParaWalked(p)], ParaLength) == SumOf(ps', ParaLength) + len
  {
    SumOfSnoc(ps', ParaWalked(p), ParaLength);
  }

  /** One pass of the loop over a row's cells. */
  lemma CellStep(cs': seq<CellObject>, cell: CellObject, content: InParaContent, len: nat)
    requires content == ParaChildren(cell.content) && len == Length(content)
    ensures cell.(content := content) == CellWalked(cell)
    ensures SumOf(cs' + [CellWalked(cell)], CellLength) == SumOf(cs', CellLength) + len
  {
    SumOfSnoc(cs', CellWalked(cell), CellLength);
  }

  /** One pass of the table's loop over rows. */
  lemma RowStep(rows': seq<RowObject>, row: RowObject, cells: Option<seq<CellObject>>, len: nat)
    requires cells == CellsWalked(row.content) && len == CellsLength(cells)
    ensures row.(content := cells) == RowWalked(row)
    ensures SumOf(rows' + [RowWalked(row)], RowLength) == SumOf(rows', RowLength) + len
  {
    SumOfSnoc(rows', RowWalked(row), RowLength);
  }

  /** One pass of the loop of `CharMarkerObject::init_index`: the child after it and what it
      adds to `tot_len`. */
  method CharChildInitIndex(o: InParaObject) returns (r: InParaObject, len: nat)
    ensures r == CharChild(o) && len == Weight(r)
  {
    match o
    case String(st) =>
      r, len := o, |st|;
    case Verse(v) =>
      var v' := VerseIndexed(v);
      r, len := Verse(v'), v'.index;
    case Char(c) =>
      var c' := CharInitIndex(c);
      r, len := Char(c'), c'.index;
    case Milestone(ms) =>
      var ms' := MilestoneIndexed(ms);
      r, len := Milestone(ms'), ms'.index;
    case Figure(fig) =>
      var fig' := FigureIndexed(fig);
      r, len := Figure(fig'), fig'.index;
    case Note(nt) =>
      var nt' := NoteInitIndex(nt);
      r, len := Note(nt'), nt'.index;
  }

  /** One pass of the loops of paragraphs, notes, sidebars, rows and tables. */
  method ParaChildInitIndex(o: InParaObject) returns (r: InParaObject, len: nat)
    ensures r == ParaChild(o) && len == Weight(r)
  {
    match o
    case String(st) =>
      r, len := o, |st|;
    case Verse(v) =>
      var v' := VerseIndexed(v);
      r, len := Verse(v'), v'.index;
    case Char(c) =>
      var c' := CharInitIndex(c);
      r, len := Char(c'), c'.index;
    case Milestone(ms) =>
      r, len := o, ms.index;
    case Figure(fig) =>
      r, len := o, fig.index;
    case Note(nt) =>
      r, len := o, nt.index;
  }

  /** The loop of `CharMarkerObject::init_index`: the content after it and `tot_len`. */
  method CharChildrenInitIndex(content: InParaContent) returns (r: InParaContent, totLen: nat)
    ensures r == CharChildren(content) && totLen == Length(r)
  {
    match content
    case Absent =>
      r, totLen := Absent, 0;
    case Present(xs) =>
      var ys: seq<InParaObject> := [];
      totLen := 0;
      for i := 0 to |xs|
        invariant |ys| == i
        invariant forall k :: 0 <= k < i ==> ys[k] == CharChild(xs[k])
        invariant totLen == SumOf(ys, Weight)
      {
        var y, len := CharChildInitIndex(xs[i]);
        ChildStep(ys, y, len);
        ys, totLen := ys + [y], totLen + len;
      }
      assert ys == Items(CharChildren(content));
      r := Present(ys);
  }

  /** The content loop shared by paragraphs, notes, sidebars, rows and tables. */
  method ParaChildrenInitIndex(content: InParaContent) returns (r: InParaContent, totLen: nat)
    ensures r == ParaChildren(content) && totLen == Length(r)
  {
    match content
    case Absent =>
      r, totLen := Absent, 0;
    case Present(xs) =>
      var ys: seq<InParaObject> := [];
      totLen := 0;
      for i := 0 to |xs|
        invariant |ys| == i
        invariant forall k :: 0 <= k < i ==> ys[k] == ParaChild(xs[k])
        invariant totLen == SumOf(ys, Weight)
      {
        var y, len := ParaChildInitIndex(xs[i]);
        ChildStep(ys, y, len);
        ys, totLen := ys + [y], totLen + len;
      }
      assert ys == Items(ParaChildren(content));
      r := Present(ys);
  }

  /** `CharMarkerObject::init_index`. */
  method CharInitIndex(c: CharMarkerObject) returns (r: CharMarkerObject)
    ensures r == CharIndexed(c)
  {
    var content, totLen := CharChildrenInitIndex(c.content);
    r := c.(content := content, index := totLen);
  }

  /** `NoteObject::init_index`. */
  method NoteInitIndex(n: NoteObject) returns (r: NoteObject)
    ensures r == NoteIndexed(n)
  {
    var content, totLen := ParaChildrenInitIndex(n.content);
    r := n.(content := content, index := totLen);
  }

  /** `ParaMarkerObject::init_index`. */
  method ParaInitIndex(p: ParaMarkerObject) returns (r: ParaMarkerObject)
    ensures r == ParaIndexed(p)
  {
    if p.marker == "b" && p.content.Absent? {
      return p.(index := 1);
    }
    var content, totLen := ParaChildrenInitIndex(p.content);
    r := p.(content := content, index := totLen);
  }

  /** `SidebarObject::init_index`. */
  method SidebarInitIndex(s: SidebarObject) returns (r: SidebarObject)
    ensures r == SidebarIndexed(s)
  {
    var totLen := 0;
    if s.marker == "b" {
      totLen := totLen + 1;
    }
    match s.content
    case None =>
      r := s.(index := totLen);
    case Some(ps) =>
      var ps', total := ParasInitIndex(ps, totLen);
      assert ps' == Flatten(SidebarIndexed(s).content);
      r := s.(content := Some(ps'), index := total);
  }

  /** The sidebar's loop over its paragraphs, `tot_len` starting at `start`. */
  method ParasInitIndex(ps: seq<ParaMarkerObject>, start: nat) returns (ps': seq<ParaMarkerObject>, totLen: nat)
    ensures |ps'| == |ps| && forall k :: 0 <= k < |ps| ==> ps'[k] == ParaWalked(ps[k])
    ensures totLen == start + SumOf(ps', ParaLength)
  {
    ps', totLen := [], start;
    for i := 0 to |ps|
      invariant |ps'| == i
      invariant forall k :: 0 <= k < i ==> ps'[k] == ParaWalked(ps[k])
      invariant totLen == start + SumOf(ps', ParaLength)
    {
      var content, len := ParaChildrenInitIndex(ps[i].content);
      ParaStep(ps', ps[i], content, len);
      ps', totLen := ps' + [ps[i].(content := content)], totLen + len;
    }
  }

  /** The loop over cells shared by rows and tables. */
  method CellsInitIndex(cells: Option<seq<CellObject>>) returns (r: Option<seq<CellObject>>, totLen: nat)
    ensures r == CellsWalked(cells) && totLen == CellsLength(r)
  {
    match cells
    case None =>
      r, totLen := None, 0;
    case Some(cs) =>
      var cs';
      cs', totLen := CellSeqInitIndex(cs);
      assert cs' == Flatten(CellsWalked(cells));
      r := Some(cs');
  }

  method CellSeqInitIndex(cs: seq<CellObject>) returns (cs': seq<CellObject>, totLen: nat)
    ensures |cs'| == |cs| && forall k :: 0 <= k < |cs| ==> cs'[k] == CellWalked(cs[k])
    ensures totLen == SumOf(cs', CellLength)
  {
    cs', totLen := [], 0;
    for i := 0 to |cs|
      invariant |cs'| == i
      invariant forall k :: 0 <= k < i ==> cs'[k] == CellWalked(cs[k])
      invariant totLen == SumOf(cs', CellLength)
    {
      var content, len := ParaChildrenInitIndex(cs[i].content);
      CellStep(cs', cs[i], content, len);
      cs', totLen := cs' + [cs[i].(content := content)], totLen + len;
    }
  }

  /** `RowObject::init_index`. */
  method RowInitIndex(row: RowObject) returns (r: RowObject)
    ensures r == RowIndexed(row)
  {
    var cells, totLen := CellsInitIndex(row.content);
    r := row.(content := cells, index := totLen);
  }

  /** `TableObject::init_index`. */
  method TableInitIndex(t: TableObject) returns (r: TableObject)
    ensures r == TableIndexed(t)
  {
    match t.content
    case None =>
      r := t.(index := 0);
    case Some(rows) =>
      var rows', totLen := RowsInitIndex(rows);
      assert rows' == Flatten(TableIndexed(t).content);
      r := t.(content := Some(rows'), index := totLen);
  }

  /** The table's loop over its rows. */
  method RowsInitIndex(rows: seq<RowObject>) returns (rows': seq<RowObject>, totLen: nat)
    ensures |rows'| == |rows| && forall k :: 0 <= k < |rows| ==> rows'[k] == RowWalked(rows[k])
    ensures totLen == SumOf(rows', RowLength)
  {
    rows', totLen := [], 0;
    for i := 0 to |rows|
      invariant |rows'| == i
      invariant forall k :: 0 <= k < i ==> rows'[k] == RowWalked(rows[k])
      invariant totLen == SumOf(rows', RowLength)
    {
      var cells, len := CellsInitIndex(rows[i].content);
      RowStep(rows', rows[i], cells, len);
      rows', totLen := rows' + [rows[i].(content := cells)], totLen + len;
    }
  }

  /** `BookObject::init_index`. */
  method BookInitIndex(b: BookObject) returns (r: BookObject)
    ensures r == BookIndexed(b)
  {
    var strs := Flatten(b.content);
    var totLen := 0;
    for i := 0 to |strs|
      invariant totLen == SumOf(strs[..i], CharCount)
    {
      assert strs[..i + 1][..i] == strs[..i];
      totLen := totLen + |strs[i]|;
    }
    assert strs[..|strs|] == strs;
    r := b.(index := totLen);
  }
}
