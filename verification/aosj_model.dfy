/** The operations of the `AosjModel` interface as `AosjStringModel` implements them, stated on a
    value snapshot of the builder. The builder assembles the USJ (JSON) text of a document out of
    string fragments: `stackInParas` holds one frame per open book, paragraph, character span or
    note, each frame the fragments written so far; a finished top-level item is joined and moved
    to `paras`. `parentEls` is the stack of elements the readers have entered. */
module AosjModel {
  import opened Wrappers
  import opened Strings
  import SM = SortedMap

  /** An element being read: its tag name and attributes (aosj_string/Element.rs). */
  datatype Element = Element(tagName: string, attributes: SM.SortedMap<string>)

  datatype State = State(
    rootAttributes: SM.SortedMap<string>,
    paras: seq<string>,
    currentPara: string,
    stackInParas: seq<seq<string>>,
    charMarkerStack: seq<string>,
    noteStack: seq<string>,
    parentEls: seq<Element>)

  /** A frame is never empty and holds no empty fragment. */
  predicate FrameOk(frame: seq<string>)
  {
    |frame| > 0 && forall j :: 0 <= j < |frame| ==> |frame[j]| > 0
  }

  /** Every open frame is well formed: the invariant that makes the closing operations safe. */
  predicate FramesOk(m: State)
  {
    forall i :: 0 <= i < |m.stackInParas| ==> FrameOk(m.stackInParas[i])
  }

  function New(): (r: State)
    ensures r.paras == [] && r.stackInParas == [] && r.parentEls == []
    ensures !SM.ContainsKey(r.rootAttributes, "version")
    ensures FramesOk(r)
  {
    State([], [], "", [], [], [], [])
  }

  /* ---------- fragments ---------- */

  function BookOpening(attributes: string): string
  {
    "{ \"type\": \"book\", " + attributes + ", \"content\": ["
  }

  function ParaOpening(attributes: string): string
  {
    "{ \"type\": \"para\"," + attributes + ", \"content\": [ "
  }

  function CharOpening(attributes: string): string
  {
    "{ \"type\": \"char\", " + attributes + ", \"content\": ["
  }

  function NoteOpening(attributes: string): string
  {
    "{ \"type\": \"note\", " + attributes + ", \"content\": ["
  }

  /** The text buffer as a content item that more items may follow. */
  function TextItem(txt: seq<string>): string
  {
    "\"" + Join(txt, "") + "\","
  }

  /** The text buffer as the last item of a closing span. */
  function LastText(txt: seq<string>): string
  {
    "\"" + Join(txt, "") + "\""
  }

  function ChapterEntry(attributes: string): string
  {
    "{ \"type\": \"chapter\", " + attributes + " }"
  }

  function VerseItem(attributes: string): string
  {
    "{ \"type\": \"verse\", " + attributes + " },"
  }

  function MilestoneItem(attributes: string): string
  {
    "{ \"type\": \"ms\", " + attributes + " },"
  }

  const TopClose: string := " ] }"
  const SpanClose: string := " ] },"

  /* ---------- interface operations ---------- */

  /** `push_element`: exactly one element is appended to `parentEls`; nothing else changes. */
  function PushElement(m: State, attributes: SM.SortedMap<string>, tagName: string): (r: State)
    ensures |r.parentEls| == |m.parentEls| + 1
    ensures r.parentEls[..|m.parentEls|] == m.parentEls
    ensures r.parentEls[|m.parentEls|] == Element(tagName, attributes)
    ensures r.(parentEls := m.parentEls) == m
  {
    m.(parentEls := m.parentEls + [Element(tagName, attributes)])
  }

  /** `model.parent_els().pop()`, which the readers call through the accessor: the last element
      goes, and an empty stack stays empty (`Vec::pop` returns `None`). */
  function PopParentEl(m: State): (r: State)
    ensures |m.parentEls| > 0 ==> |r.parentEls| == |m.parentEls| - 1
    ensures |m.parentEls| == 0 ==> r.parentEls == []
    ensures r.parentEls <= m.parentEls
    ensures r.(parentEls := m.parentEls) == m
  {
    if |m.parentEls| == 0 then m else m.(parentEls := m.parentEls[..|m.parentEls| - 1])
  }

  /* ---------- validate_attributes ---------- */

  /** The position of the first key, in key order, that is not in `allowed` (the length when
      every key is allowed). */
  function FirstUnexpected(attributes: seq<(string, string)>, allowed: set<string>): (i: nat)
    ensures i <= |attributes|
    ensures forall j :: 0 <= j < i ==> attributes[j].0 in allowed
    ensures i < |attributes| ==> attributes[i].0 !in allowed
  {
    if |attributes| == 0 || attributes[0].0 !in allowed then 0
    else 1 + FirstUnexpected(attributes[1..], allowed)
  }

  function MissingMessage(key: string): string
  {
    "Missing required attribute '" + key + "'"
  }

  /** Every tag's message names 'para', whichever tag is being validated. */
  function UnexpectedMessage(key: string): string
  {
    "Unexpected attribute '" + key + "' in 'para'"
  }

  /** `Ok` when every key is allowed, otherwise the error naming the first key that is not. */
  function CheckAllowed(attributes: SM.SortedMap<string>, allowed: set<string>): (r: Result<(), string>)
    ensures r.Success? <==> SM.Keys(attributes) <= allowed
  {
    var i := FirstUnexpected(attributes, allowed);
    if i < |attributes| then Failure(UnexpectedMessage(attributes[i].0))
    else Success(())
  }

  /** The missing-key error when `key` is absent, otherwise the outcome of the checks after it. */
  function Require(attributes: SM.SortedMap<string>, key: string, rest: Result<(), string>)
    : (r: Result<(), string>)
    ensures r.Success? <==> key in SM.Keys(attributes) && rest.Success?
  {
    if !SM.ContainsKey(attributes, key) then Failure(MissingMessage(key)) else rest
  }

  /** `validate_attributes`: "para" needs type and marker and allows type, content, marker and
      sid; "book" needs type, marker and code and allows type, content, marker and code;
      "chapter" needs type, marker and number and allows type, marker, number, sid, altnumber and
      pubnumber; "char" needs type and marker and allows type, content, marker, link_id and
      link_href; any other tag name is accepted whatever its attributes. */
  function ValidateAttributes(tagName: string, attributes: SM.SortedMap<string>): (r: Result<(), string>)
    ensures tagName == "para" ==>
      (r.Success? <==> {"type", "marker"} <= SM.Keys(attributes) <= {"type", "content", "marker", "sid"})
    ensures tagName == "book" ==>
      (r.Success? <==> {"type", "marker", "code"} <= SM.Keys(attributes) <= {"type", "content", "marker", "code"})
    ensures tagName == "chapter" ==>
      (r.Success? <==> {"type", "marker", "number"} <= SM.Keys(attributes) <=
                         {"type", "marker", "number", "sid", "altnumber", "pubnumber"})
    ensures tagName == "char" ==>
      (r.Success? <==> {"type", "marker"} <= SM.Keys(attributes) <=
                         {"type", "content", "marker", "link_id", "link_href"})
    ensures tagName !in {"para", "book", "chapter", "char"} ==> r.Success?
  {
    if tagName == "para" then
      Require(attributes, "type", Require(attributes, "marker",
        CheckAllowed(attributes, {"type", "content", "marker", "sid"})))
    else if tagName == "book" then
      Require(attributes, "type", Require(attributes, "marker", Require(attributes, "code",
        CheckAllowed(attributes, {"type", "content", "marker", "code"}))))
    else if tagName == "chapter" then
      Require(attributes, "type", Require(attributes, "marker", Require(attributes, "number",
        CheckAllowed(attributes, {"type", "marker", "number", "sid", "altnumber", "pubnumber"}))))
    else if tagName == "char" then
      Require(attributes, "type", Require(attributes, "marker",
        CheckAllowed(attributes, {"type", "content", "marker", "link_id", "link_href"})))
    else
      Success(())
  }

  /* ---------- get_attributes ---------- */

  predicate Skipped(key: string)
  {
    key == "sid" || key == "vid" || key == "eid"
  }

  function RenameKey(key: string): string
  {
    if key == "style" then "marker" else key
  }

  function AttributeEntry(key: string, value: string): string
  {
    "\"" + RenameKey(key) + "\": \"" + value + "\""
  }

  /** The rendered entries of the attributes in iteration (key) order, skipped keys left out. */
  function AttributeEntries(attributes: seq<(string, string)>): (r: seq<string>)
    ensures |r| <= |attributes|
    ensures |attributes| == 1 && !Skipped(attributes[0].0) ==>
      r == [AttributeEntry(attributes[0].0, attributes[0].1)]
    ensures |attributes| == 1 && Skipped(attributes[0].0) ==> r == []
  {
    if |attributes| == 0 then []
    else
      var rest := AttributeEntries(attributes[1..]);
      if Skipped(attributes[0].0) then rest
      else [AttributeEntry(attributes[0].0, attributes[0].1)] + rest
  }

  /** The entries of two consecutive runs of attributes are the entries of the first run
      followed by those of the second: entries come out in the order of the keys. */
  lemma {:induction false} AttributeEntriesAppend(a: seq<(string, string)>, b: seq<(string, string)>)
    ensures AttributeEntries(a + b) == AttributeEntries(a) + AttributeEntries(b)
  {
    if |a| > 0 {
      assert (a + b)[1..] == a[1..] + b;
      AttributeEntriesAppend(a[1..], b);
    } else {
      assert a + b == b;
    }
  }

  /** `get_attributes`: the attributes of the innermost parent element as `"key": "value"`
      entries joined by ", "; empty when there is no parent element. */
  function GetAttributes(m: State): (r: string)
    ensures |m.parentEls| == 0 ==> r == ""
    ensures |m.parentEls| > 0 ==>
      r == Join(AttributeEntries(m.parentEls[|m.parentEls| - 1].attributes), ", ")
  {
    if |m.parentEls| == 0 then ""
    else Join(AttributeEntries(m.parentEls[|m.parentEls| - 1].attributes), ", ")
  }

  /* ---------- stack operations ---------- */

  /** `add_root_metadata`: the version is recorded; nothing else changes. */
  function AddRootMetadata(m: State, version: string): (r: State)
    ensures SM.Get(r.rootAttributes, "version") == Some(version)
    ensures forall k :: k != "version" ==> SM.Get(r.rootAttributes, k) == SM.Get(m.rootAttributes, k)
    ensures r.(rootAttributes := m.rootAttributes) == m
  {
    m.(rootAttributes := SM.Insert(m.rootAttributes, "version", version))
  }

  /** Pushes a new frame holding the single opening fragment. */
  function PushFrame(m: State, opening: string): (r: State)
    ensures |r.stackInParas| == |m.stackInParas| + 1
    ensures r.stackInParas[..|m.stackInParas|] == m.stackInParas
    ensures r.stackInParas[|m.stackInParas|] == [opening]
    ensures r.(stackInParas := m.stackInParas) == m
    ensures FramesOk(m) && |opening| > 0 ==> FramesOk(r)
  {
    m.(stackInParas := m.stackInParas + [[opening]])
  }

  /** Appends one fragment to the top frame. */
  function AppendToTop(m: State, fragment: string): (r: State)
    requires |m.stackInParas| > 0
    ensures |r.stackInParas| == |m.stackInParas|
    ensures r.stackInParas[..|m.stackInParas| - 1] == m.stackInParas[..|m.stackInParas| - 1]
    ensures Top(r) == Top(m) + [fragment]
    ensures r.(stackInParas := m.stackInParas) == m
    ensures FramesOk(m) && |fragment| > 0 ==> FramesOk(r)
  {
    var n := |m.stackInParas|;
    m.(stackInParas := m.stackInParas[..n - 1] + [m.stackInParas[n - 1] + [fragment]])
  }

  function Top(m: State): seq<string>
    requires |m.stackInParas| > 0
  {
    m.stackInParas[|m.stackInParas| - 1]
  }

  function StartBook(m: State, attributes: string): (r: State)
    ensures |r.stackInParas| == |m.stackInParas| + 1
    ensures r.stackInParas[..|m.stackInParas|] == m.stackInParas
    ensures Top(r) == [BookOpening(attributes)]
    ensures r.(stackInParas := m.stackInParas) == m
    ensures FramesOk(m) ==> FramesOk(r)
  {
    PushFrame(m, BookOpening(attributes))
  }

  function StartNewPara(m: State, attributes: string): (r: State)
    ensures |r.stackInParas| == |m.stackInParas| + 1
    ensures r.stackInParas[..|m.stackInParas|] == m.stackInParas
    ensures Top(r) == [ParaOpening(attributes)]
    ensures r.(stackInParas := m.stackInParas) == m
    ensures FramesOk(m) ==> FramesOk(r)
  {
    PushFrame(m, ParaOpening(attributes))
  }

  function StartAddCharMarker(m: State, attributes: string): (r: State)
    ensures |r.stackInParas| == |m.stackInParas| + 1
    ensures r.stackInParas[..|m.stackInParas|] == m.stackInParas
    ensures Top(r) == [CharOpening(attributes)]
    ensures r.(stackInParas := m.stackInParas) == m
    ensures FramesOk(m) ==> FramesOk(r)
  {
    PushFrame(m, CharOpening(attributes))
  }

  function StartAddNote(m: State, attributes: string): (r: State)
    ensures |r.stackInParas| == |m.stackInParas| + 1
    ensures r.stackInParas[..|m.stackInParas|] == m.stackInParas
    ensures Top(r) == [NoteOpening(attributes)]
    ensures r.(stackInParas := m.stackInParas) == m
    ensures FramesOk(m) ==> FramesOk(r)
  {
    PushFrame(m, NoteOpening(attributes))
  }

  /** `add_string_to_in_para` panics exactly when the buffer holds text and no frame is open. */
  predicate CanAddString(m: State, txt: seq<string>)
  {
    |txt| == 0 || |m.stackInParas| > 0
  }

  /** `add_string_to_in_para`: nothing happens for an empty buffer; otherwise the buffer becomes
      one text fragment at the end of the top frame. The depth never changes. */
  function AddStringToInPara(m: State, txt: seq<string>): (r: State)
    requires CanAddString(m, txt)
    ensures |txt| == 0 ==> r == m
    ensures |r.stackInParas| == |m.stackInParas|
    ensures |txt| > 0 ==> Top(r) == Top(m) + [TextItem(txt)]
    ensures |txt| > 0 ==> r.stackInParas[..|m.stackInParas| - 1] == m.stackInParas[..|m.stackInParas| - 1]
    ensures r.(stackInParas := m.stackInParas) == m
    ensures FramesOk(m) ==> FramesOk(r)
  {
    if |txt| == 0 then m else AppendToTop(m, TextItem(txt))
  }

  /** `add_chapter`: one entry at the end of `paras`; the frames are not touched. */
  function AddChapter(m: State, attributes: string): (r: State)
    ensures r.paras == m.paras + [ChapterEntry(attributes)]
    ensures r.(paras := m.paras) == m
  {
    m.(paras := m.paras + [ChapterEntry(attributes)])
  }

  /** `add_verse_to_in_para`: one verse fragment at the end of the top frame (which must exist). */
  function AddVerseToInPara(m: State, attributes: string): (r: State)
    requires |m.stackInParas| > 0
    ensures |r.stackInParas| == |m.stackInParas|
    ensures Top(r) == Top(m) + [VerseItem(attributes)]
    ensures r.(stackInParas := m.stackInParas) == m
    ensures FramesOk(m) ==> FramesOk(r)
  {
    AppendToTop(m, VerseItem(attributes))
  }

  /** `add_milestone`: one milestone fragment at the end of the top frame (which must exist). */
  function AddMilestone(m: State, attributes: string): (r: State)
    requires |m.stackInParas| > 0
    ensures |r.stackInParas| == |m.stackInParas|
    ensures Top(r) == Top(m) + [MilestoneItem(attributes)]
    ensures r.(stackInParas := m.stackInParas) == m
    ensures FramesOk(m) ==> FramesOk(r)
  {
    AppendToTop(m, MilestoneItem(attributes))
  }

  /** Drops one trailing comma, as `String::pop` followed by pushing the character back when it
      is not a comma. */
  function DropTrailingComma(s: string): (r: string)
    requires |s| > 0
    ensures s[|s| - 1] == ',' ==> s == r + ","
    ensures s[|s| - 1] != ',' ==> r == s
  {
    if s[|s| - 1] == ',' then s[..|s| - 1] else s
  }

  /** The frame with the trailing comma of its last fragment dropped and `closing` appended. */
  function CloseFrame(frame: seq<string>, closing: string): (r: seq<string>)
    requires |frame| > 0 && |frame[|frame| - 1]| > 0
    ensures |r| == |frame| + 1
    ensures r[..|frame| - 1] == frame[..|frame| - 1]
    ensures r[|frame| - 1] == DropTrailingComma(frame[|frame| - 1])
    ensures r[|frame|] == closing
  {
    frame[..|frame| - 1] + [DropTrailingComma(frame[|frame| - 1]), closing]
  }

  /** `end_new_para` and `end_book` panic unless a frame is open whose last fragment is a
      non-empty string. */
  predicate CanCloseTop(m: State)
  {
    |m.stackInParas| > 0 && |Top(m)| > 0 && |Top(m)[|Top(m)| - 1]| > 0
  }

  function FinishTopFrame(m: State): (r: State)
    requires CanCloseTop(m)
  {
    m.(paras := m.paras + [Join(CloseFrame(Top(m), TopClose), " ")], stackInParas := [])
  }

  /** `end_new_para`: the top frame, its last trailing comma dropped and " ] }" appended, is
      joined with spaces into one new entry of `paras`, and every frame is discarded. */
  function EndNewPara(m: State): (r: State)
    requires CanCloseTop(m)
    ensures FramesOk(r)
    ensures r.paras == m.paras + [Join(CloseFrame(Top(m), TopClose), " ")]
    ensures r.stackInParas == []
    ensures r.(paras := m.paras, stackInParas := m.stackInParas) == m
  {
    FinishTopFrame(m)
  }

  /** `end_book`: the same closing as `end_new_para`. */
  function EndBook(m: State): (r: State)
    requires CanCloseTop(m)
    ensures FramesOk(r)
    ensures |r.paras| == |m.paras| + 1 && r.paras[..|m.paras|] == m.paras
    ensures r.paras[|m.paras|] == Join(CloseFrame(Top(m), TopClose), " ")
    ensures r.stackInParas == []
    ensures r.(paras := m.paras, stackInParas := m.stackInParas) == m
  {
    FinishTopFrame(m)
  }

  /** `end_add_char_marker` and `end_add_note` panic unless two frames are open and, when the
      buffer is empty, the top frame ends with a non-empty fragment. */
  predicate CanEndSpan(m: State, txt: seq<string>)
  {
    |m.stackInParas| >= 2 && (|txt| > 0 || (|Top(m)| > 0 && |Top(m)[|Top(m)| - 1]| > 0))
  }

  /** The top frame after the buffer has been flushed into it as its last item. */
  function FlushedTop(m: State, txt: seq<string>): (r: seq<string>)
    requires CanEndSpan(m, txt)
    ensures |r| > 0 && |r[|r| - 1]| > 0
  {
    if |txt| > 0 then Top(m) + [LastText(txt)] else Top(m)
  }

  /** The closed span as one fragment of the frame below it. */
  function ClosedSpan(m: State, txt: seq<string>): string
    requires CanEndSpan(m, txt)
  {
    Join(CloseFrame(FlushedTop(m, txt), SpanClose), " ")
  }

  lemma ClosedSpanNonEmpty(m: State, txt: seq<string>)
    requires CanEndSpan(m, txt)
    ensures |ClosedSpan(m, txt)| > 0
  {
    var closed := CloseFrame(FlushedTop(m, txt), SpanClose);
    JoinCoversLast(closed, " ");
  }

  function EndSpan(m: State, txt: seq<string>): (r: State)
    requires CanEndSpan(m, txt)
    ensures FramesOk(m) ==> FramesOk(r)
  {
    ClosedSpanNonEmpty(m, txt);
    var n := |m.stackInParas|;
    m.(stackInParas := m.stackInParas[..n - 2] + [m.stackInParas[n - 2] + [ClosedSpan(m, txt)]])
  }

  /** `end_add_char_marker`: the buffer is flushed into the span's frame, which is closed with
      " ] }," and merged, as one fragment, into the frame below; the depth drops by exactly one
      and the frames further down are untouched. */
  function EndAddCharMarker(m: State, txt: seq<string>): (r: State)
    requires CanEndSpan(m, txt)
    ensures FramesOk(m) ==> FramesOk(r)
    ensures |r.stackInParas| == |m.stackInParas| - 1
    ensures r.stackInParas[..|r.stackInParas| - 1] == m.stackInParas[..|m.stackInParas| - 2]
    ensures Top(r) == m.stackInParas[|m.stackInParas| - 2] + [ClosedSpan(m, txt)]
    ensures r.(stackInParas := m.stackInParas) == m
  {
    EndSpan(m, txt)
  }

  /** `end_add_note`: the same closing as `end_add_char_marker`. */
  function EndAddNote(m: State, txt: seq<string>): (r: State)
    requires CanEndSpan(m, txt)
    ensures FramesOk(m) ==> FramesOk(r)
    ensures |r.stackInParas| == |m.stackInParas| - 1
    ensures r.stackInParas[..|r.stackInParas| - 1] == m.stackInParas[..|m.stackInParas| - 2]
    ensures Top(r) == m.stackInParas[|m.stackInParas| - 2] + [ClosedSpan(m, txt)]
    ensures r.(stackInParas := m.stackInParas) == m
  {
    EndSpan(m, txt)
  }

  /** `assemble_model` panics unless a version was recorded. */
  predicate CanAssemble(m: State)
  {
    SM.ContainsKey(m.rootAttributes, "version")
  }

  /** `assemble_model`: the document's JSON text, the version first and then the finished
      top-level items in order, comma-separated. */
  function AssembleModel(m: State): (r: string)
    requires CanAssemble(m)
    ensures var head := DocumentHead(SM.Get(m.rootAttributes, "version").value);
      && |r| >= |head| + 2 && r[..|head|] == head && r[|r| - 2..] == "]}"
      && (|m.paras| == 0 ==> r == head + "]}")
      && (|m.paras| == 1 ==> r == head + m.paras[0] + "]}")
  {
    var model := "{";
    var model := model + " \"version\": \"" + SM.Get(m.rootAttributes, "version").value + "\",";
    var model := model + " \"content\": [" + Join(m.paras, ",") + "]";
    var r := model + "}";
    AssembledParts(SM.Get(m.rootAttributes, "version").value, Join(m.paras, ","), r);
    r
  }

  /** What a document prints before its first finished item. */
  function DocumentHead(version: string): string
  {
    "{ \"version\": \"" + version + "\", \"content\": ["
  }

  lemma AssembledParts(version: string, items: string, r: string)
    requires r == "{" + " \"version\": \"" + version + "\"," + " \"content\": [" + items + "]" + "}"
    ensures r == DocumentHead(version) + items + "]}"
  {
    assert "{" + " \"version\": \"" == "{ \"version\": \"";
    assert "\"," + " \"content\": [" == "\", \"content\": [";
    assert "]" + "}" == "]}";
  }

  /** Finishing one more item before assembling inserts it, after a comma when items were
      already there, just before the closing `]}`. */
  lemma AssembleOneMore(m: State, item: string)
    requires CanAssemble(m)
    ensures var r := AssembleModel(m);
      AssembleModel(m.(paras := m.paras + [item])) ==
      r[..|r| - 2] + (if |m.paras| > 0 then "," else "") + item + "]}"
  {
    var head := DocumentHead(SM.Get(m.rootAttributes, "version").value);
    var r := AssembleModel(m);
    var m' := m.(paras := m.paras + [item]);
    assert r == head + Join(m.paras, ",") + "]}" by {
      AssembledParts(SM.Get(m.rootAttributes, "version").value, Join(m.paras, ","), r);
    }
    assert r[..|r| - 2] == head + Join(m.paras, ",");
    AssembledParts(SM.Get(m'.rootAttributes, "version").value, Join(m'.paras, ","), AssembleModel(m'));
    if |m.paras| > 0 {
      JoinAppend(m.paras, item, ",");
    } else {
      assert m'.paras == [item];
    }
  }

  /** With well-formed frames the closing operations can fail only for want of frames: closing
      the outermost frame needs one open frame and closing a span needs two. */
  lemma {:induction false} ClosingNeedsOnlyDepth(m: State, txt: seq<string>)
    requires FramesOk(m)
    ensures CanCloseTop(m) <==> |m.stackInParas| > 0
    ensures CanEndSpan(m, txt) <==> |m.stackInParas| >= 2
  {
    if |m.stackInParas| > 0 {
      assert FrameOk(m.stackInParas[|m.stackInParas| - 1]);
    }
  }

  /** Only a recorded version lets `assemble_model` through: a new builder cannot be
      assembled, and one that `add_root_metadata` gave a version can. */
  lemma AssemblyNeedsVersion(m: State, version: string)
    ensures !CanAssemble(New())
    ensures CanAssemble(AddRootMetadata(m, version))
  {
  }

  /** Once a book or a para is open, `add_string_to_in_para` takes any buffer; with no frame
      open it takes only an empty one. */
  lemma OpenFrameAcceptsText(m: State, attributes: string, txt: seq<string>)
    ensures CanAddString(StartBook(m, attributes), txt)
    ensures CanAddString(StartNewPara(m, attributes), txt)
    ensures |m.stackInParas| == 0 ==> (CanAddString(m, txt) <==> |txt| == 0)
  {
  }

  /** A joined list of strings is at least as long as its last part. */
  lemma {:induction false} JoinCoversLast(parts: seq<string>, sep: string)
    requires |parts| > 0
    ensures |Join(parts, sep)| >= |parts[|parts| - 1]|
    decreases |parts|
  {
    if |parts| > 1 {
      JoinCoversLast(parts[1..], sep);
      assert parts[1..][|parts[1..]| - 1] == parts[|parts| - 1];
      assert Join(parts, sep) == parts[0] + sep + Join(parts[1..], sep);
    }
  }

  /* ---------- properties of operation sequences ---------- */

  /** A paragraph opened, given one run of text and closed becomes one well-formed entry: the
      trailing comma after the text item is dropped, so no comma precedes " ] }". */
  lemma {:induction false} ParaWithTextIsOneEntry(m: State, attributes: string, txt: seq<string>)
    requires |txt| > 0
    ensures var r := EndNewPara(AddStringToInPara(StartNewPara(m, attributes), txt));
      && r.paras == m.paras + [ParaOpening(attributes) + " " + LastText(txt) + " " + TopClose]
      && r.stackInParas == []
  {
    var m1 := StartNewPara(m, attributes);
    var m2 := AddStringToInPara(m1, txt);
    assert Top(m2) == [ParaOpening(attributes), TextItem(txt)];
    assert TextItem(txt) == LastText(txt) + ",";
    assert DropTrailingComma(TextItem(txt)) == LastText(txt);
    var closed := CloseFrame(Top(m2), TopClose);
    assert closed == [ParaOpening(attributes), LastText(txt), TopClose];
    JoinThree(ParaOpening(attributes), LastText(txt), TopClose, " ");
  }

  lemma JoinThree(a: string, b: string, c: string, sep: string)
    ensures Join([a, b, c], sep) == a + sep + b + sep + c
  {
    assert [a, b, c][1..] == [b, c];
    assert [b, c][1..] == [c];
  }

  /** A character span opened inside an open frame and closed on a non-empty buffer leaves the
      depth as it was and adds exactly one fragment, the whole span, to the enclosing frame. */
  lemma {:induction false} CharSpanRoundTrip(m: State, attributes: string, txt: seq<string>)
    requires |m.stackInParas| > 0 && |txt| > 0
    ensures var r := EndAddCharMarker(StartAddCharMarker(m, attributes), txt);
      && |r.stackInParas| == |m.stackInParas|
      && r.stackInParas[..|m.stackInParas| - 1] == m.stackInParas[..|m.stackInParas| - 1]
      && Top(r) == Top(m) + [CharOpening(attributes) + " " + LastText(txt) + " " + SpanClose]
      && r.paras == m.paras && r.parentEls == m.parentEls
  {
    var m1 := StartAddCharMarker(m, attributes);
    assert CanEndSpan(m1, txt);
    assert FlushedTop(m1, txt) == [CharOpening(attributes), LastText(txt)];
    var last := LastText(txt);
    assert last[|last| - 1] == '"';
    assert DropTrailingComma(last) == last;
    var closed := CloseFrame(FlushedTop(m1, txt), SpanClose);
    assert closed == [CharOpening(attributes), LastText(txt), SpanClose];
    assert Join(closed, " ") == CharOpening(attributes) + " " + LastText(txt) + " " + SpanClose;
    assert m1.stackInParas[|m1.stackInParas| - 2] == Top(m);
  }
}
