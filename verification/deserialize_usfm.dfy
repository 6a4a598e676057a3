/** The token-driven reader of src/deserialize_usfm.rs (`deserialize_from_file`, from the text
    on): a loop over the tokens that keeps the reader state `current_state`, the flag `in_para`,
    the text buffer `txt` and the pending `attributes`, and drives the builder. `Step` states what
    one token does and `RunFrom` what a run of tokens does; `DeserializeFromString` is the loop,
    proved to compute `Deserialize`. A builder call that would panic (`unwrap` on `None`) ends
    the run with `Failure(Panic)`. The character classes `\d` and white space are parameters. */
module DeserializeUsfm {
  import opened Wrappers
  import opened Strings
  import SM = SortedMap
  import M = AosjModel
  import opened UsfmLexer
  import B = AosjString

  /** `current_state`: "", "usfm", "book", "char", "para", "c" or "verse". */
  datatype Mode = Blank | Usfm | Book | Char | Para | C | Verse

  datatype ReaderState = ReaderState(
    model: M.State,
    attributes: SM.SortedMap<string>,
    txt: seq<string>,
    mode: Mode,
    inPara: bool)

  function Init(): ReaderState
  {
    ReaderState(M.New(), [], [], Blank, false)
  }

  /** WordLike, LineSpace and Punctuation are the text tokens; all others carry a marker. */
  predicate IsText(t: TokenType)
  {
    t.WordLike? || t.LineSpace? || t.Punctuation?
  }

  /** A token's marker: its value trimmed, with every backslash removed. */
  function Marker(value: string, isWhitespace: char -> bool): (r: string)
    ensures '\\' !in r
    ensures |r| <= |value|
    ensures '\\' !in value && (forall i :: 0 <= i < |value| ==> !isWhitespace(value[i])) ==> r == value
  {
    var trimmed := Trim(value, isWhitespace);
    assert |trimmed| <= |value| by { TrimShorter(value, isWhitespace); }
    RemoveChar(trimmed, '\\')
  }

  /** A marker is a slice of the value with only white space around it and none at its ends,
      with the backslashes removed from it and every other character kept in order. */
  lemma MarkerIsTrimmedValue(value: string, isWhitespace: char -> bool)
    ensures exists i, j ::
      && 0 <= i <= j <= |value|
      && (forall k :: 0 <= k < i ==> isWhitespace(value[k]))
      && (forall k :: j <= k < |value| ==> isWhitespace(value[k]))
      && (i < j ==> !isWhitespace(value[i]) && !isWhitespace(value[j - 1]))
      && Marker(value, isWhitespace) == RemoveChar(value[i..j], '\\')
  {
    var t := Trim(value, isWhitespace);
    var i := RunLength(value, isWhitespace);
    var j := i + |t|;
    assert t == value[i..j];
    if i < j {
      assert value[i] == t[0] && value[j - 1] == t[|t| - 1];
    }
  }

  lemma TrimShorter(s: string, isSpace: char -> bool)
    ensures |Trim(s, isSpace)| <= |s|
  {
  }

  /** A start tag's value is a backslash, the marker name and trailing white space (`\p `);
      its marker is the name alone. */
  lemma MarkerOfTag(name: string, space: string, isWhitespace: char -> bool)
    requires |name| > 0 && '\\' !in name && !isWhitespace('\\')
    requires forall i :: 0 <= i < |name| ==> !isWhitespace(name[i])
    requires forall i :: 0 <= i < |space| ==> isWhitespace(space[i])
    ensures Marker("\\" + name + space, isWhitespace) == name
  {
    var value := "\\" + name + space;
    var head := "\\" + name;
    assert value == head + space;
    assert RunLength(value, isWhitespace) == 0 by { assert value[0] == '\\'; }
    var t := Trim(value, isWhitespace);
    assert t == value[..|t|];
    assert value[|head| - 1] == name[|name| - 1];
    assert forall i :: |head| <= i < |value| ==> value[i] == space[i - |head|];
    assert t == head;
    RemoveCharAppend("\\", name, '\\');
  }

  /** The attributes of a chapter or verse: the marker and, when the token holds a digit, the
      first run of digits as the number. */
  function NumberedAttributes(marker: string, value: string, isDigit: char -> bool): (r: SM.SortedMap<string>)
    ensures SM.Get(r, "marker") == Some(marker)
    ensures SM.Get(r, "number") == FirstRun(value, isDigit)
    ensures SM.Keys(r) <= {"marker", "number"}
  {
    var a := SM.Insert([], "marker", marker);
    match FirstRun(value, isDigit)
    case Some(n) => SM.Insert(a, "number", n)
    case None => a
  }

  /** Pushes a "para" element with the pending attributes and opens a paragraph with them. */
  function OpenPara(s: ReaderState): (r: ReaderState)
    ensures |r.model.stackInParas| == |s.model.stackInParas| + 1
    ensures r.model.parentEls == s.model.parentEls + [M.Element("para", s.attributes)]
    ensures r.model.paras == s.model.paras
    ensures r.(model := s.model) == s
  {
    var m1 := M.PushElement(s.model, s.attributes, "para");
    s.(model := M.StartNewPara(m1, M.GetAttributes(m1)))
  }

  /** Pushes a "char" element with the given attributes and opens a character span with them. */
  function OpenChar(s: ReaderState, attributes: SM.SortedMap<string>): (r: ReaderState)
    ensures |r.model.stackInParas| == |s.model.stackInParas| + 1
    ensures r.model.parentEls == s.model.parentEls + [M.Element("char", attributes)]
    ensures r.model.paras == s.model.paras
    ensures r.(model := s.model) == s
  {
    var m1 := M.PushElement(s.model, attributes, "char");
    s.(model := M.StartAddCharMarker(m1, M.GetAttributes(m1)))
  }

  /** `add_string_to_in_para` then `end_new_para`: the buffer ends empty and one entry is
      finished, or the run panics. */
  function FlushAndEndPara(s: ReaderState): (r: Result<ReaderState, string>)
    ensures r.Failure? ==> r.error == Panic
    ensures r.Failure? <==> !M.CanAddString(s.model, s.txt) || !M.CanCloseTop(M.AddStringToInPara(s.model, s.txt))
    ensures r.Success? ==>
      && r.value.txt == [] && r.value.model.stackInParas == []
      && |r.value.model.paras| == |s.model.paras| + 1
      && r.value.mode == s.mode && r.value.inPara == s.inPara && r.value.attributes == s.attributes
  {
    if !M.CanAddString(s.model, s.txt) then Failure(Panic)
    else
      var m1 := M.AddStringToInPara(s.model, s.txt);
      if !M.CanCloseTop(m1) then Failure(Panic)
      else Success(s.(model := M.EndNewPara(m1), txt := []))
  }

  predicate IsCharMarker(marker: string)
  {
    marker == "bd" || marker == "qs" || marker == "w" || marker == "+it"
  }

  /** A start tag. `\usfm` and `\id` only change the state; `\bd`, `\qs`, `\w` and `\+it` open a
      character span with the pending attributes plus the marker, then clear them; any other
      marker closes a paragraph that holds text or else opens one, and is then recorded as the
      pending marker of the next paragraph. */
  function StepStartTag(s: ReaderState, marker: string): (r: Result<ReaderState, string>)
    ensures marker == "usfm" ==> r == Success(s.(mode := Usfm))
    ensures marker == "id" ==>
      r == Success(s.(mode := Book, attributes := SM.Insert(s.attributes, "marker", "id")))
    ensures IsCharMarker(marker) ==>
      && r.Success? && r.value.mode == Char && r.value.attributes == []
      && |r.value.model.stackInParas| == |s.model.stackInParas| + 1
      && r.value.model.parentEls ==
           s.model.parentEls + [M.Element("char", SM.Insert(s.attributes, "marker", marker))]
      && r.value.txt == s.txt && r.value.inPara == s.inPara
    ensures marker != "usfm" && marker != "id" && !IsCharMarker(marker) ==>
      (r.Failure? ==> r.error == Panic && s.inPara && |s.txt| > 0) &&
      (r.Success? ==>
        && r.value.mode == Para && r.value.inPara
        && SM.Get(r.value.attributes, "marker") == Some(marker)
        && (s.inPara && |s.txt| > 0 ==> r.value.txt == [] && r.value.model.stackInParas == [])
        && (!(s.inPara && |s.txt| > 0) ==>
              r.value.model.parentEls == s.model.parentEls + [M.Element("para", s.attributes)]))
    ensures marker != "usfm" && marker != "id" && !IsCharMarker(marker) && s.inPara && |s.txt| > 0 ==>
      && (r.Failure? <==> FlushAndEndPara(s).Failure?)
      && (r.Success? ==>
            && |r.value.model.paras| == |s.model.paras| + 1
            && r.value == FlushAndEndPara(s).value.(mode := Para, attributes := SM.Insert(s.attributes, "marker", marker)))
    ensures marker != "usfm" && marker != "id" && !IsCharMarker(marker) && !(s.inPara && |s.txt| > 0) ==>
      && r == Success(OpenPara(s).(inPara := true, mode := Para, attributes := SM.Insert(s.attributes, "marker", marker)))
      && |r.value.model.stackInParas| == |s.model.stackInParas| + 1
      && r.value.model.paras == s.model.paras
  {
    if marker == "usfm" then Success(s.(mode := Usfm))
    else if marker == "id" then Success(s.(mode := Book, attributes := SM.Insert(s.attributes, "marker", marker)))
    else if IsCharMarker(marker) then
      var s1 := OpenChar(s, SM.Insert(s.attributes, "marker", marker));
      Success(s1.(mode := Char, attributes := []))
    else
      var s1 := if s.inPara && |s.txt| > 0 then FlushAndEndPara(s) else Success(OpenPara(s).(inPara := true));
      match s1
      case Failure(e) => Failure(e)
      case Success(s2) => Success(s2.(mode := Para, attributes := SM.Insert(s2.attributes, "marker", marker)))
  }

  /** A chapter token: exactly one chapter entry, marked "c" and numbered with the first digit
      run of the token, whatever attributes were pending; none are pending afterwards. */
  function StepChapter(s: ReaderState, value: string, isDigit: char -> bool): (r: ReaderState)
    ensures r.model.paras ==
      s.model.paras + [M.ChapterEntry(Join(M.AttributeEntries(NumberedAttributes("c", value, isDigit)), ", "))]
    ensures r.model.parentEls == s.model.parentEls + [M.Element("chapter", NumberedAttributes("c", value, isDigit))]
    ensures r.model.stackInParas == s.model.stackInParas
    ensures r.attributes == [] && r.mode == C && r.txt == s.txt && r.inPara == s.inPara
  {
    var m1 := M.PushElement(s.model, NumberedAttributes("c", value, isDigit), "chapter");
    s.(model := M.AddChapter(m1, M.GetAttributes(m1)), attributes := [], mode := C)
  }

  /** A verses token: one verse item, marked "v" and numbered with the first digit run, at the
      end of the open frame; a panic when no frame is open. */
  function StepVerse(s: ReaderState, value: string, isDigit: char -> bool): (r: Result<ReaderState, string>)
    ensures r.Failure? <==> |s.model.stackInParas| == 0
    ensures r.Failure? ==> r.error == Panic
    ensures r.Success? ==>
      && |r.value.model.stackInParas| == |s.model.stackInParas|
      && M.Top(r.value.model) ==
           M.Top(s.model) + [M.VerseItem(Join(M.AttributeEntries(NumberedAttributes("v", value, isDigit)), ", "))]
      && r.value.model.paras == s.model.paras
      && r.value.attributes == [] && r.value.mode == Verse && r.value.txt == s.txt && r.value.inPara == s.inPara
  {
    var attributes := NumberedAttributes("v", value, isDigit);
    var m1 := M.PushElement(s.model, attributes, "verse");
    assert m1.stackInParas == s.model.stackInParas && m1.paras == s.model.paras;
    assert M.GetAttributes(m1) == Join(M.AttributeEntries(attributes), ", ");
    if |m1.stackInParas| == 0 then Failure(Panic)
    else
      var m2 := M.AddVerseToInPara(m1, M.GetAttributes(m1));
      assert M.Top(m1) == M.Top(s.model) && m2.paras == s.model.paras;
      Success(s.(model := m2, attributes := [], mode := Verse))
  }

  /** End of line. In state "book" the buffer is flushed, the book closed and the state reset;
      in state "usfm" the joined buffer becomes the version and the buffer is emptied; otherwise,
      inside a paragraph, an empty buffer opens a new paragraph and a non-empty one closes the
      current paragraph. `in_para` is never changed. */
  function StepEol(s: ReaderState): (r: Result<ReaderState, string>)
    ensures r.Failure? ==> r.error == Panic
    ensures r.Success? ==> r.value.inPara == s.inPara
    ensures s.mode == Book && r.Success? ==>
      r.value.mode == Blank && r.value.txt == [] && r.value.model.stackInParas == [] &&
      |r.value.model.paras| == |s.model.paras| + 1
    ensures s.mode == Usfm ==>
      r.Success? && r.value.txt == [] &&
      SM.Get(r.value.model.rootAttributes, "version") == Some(Join(s.txt, "")) &&
      r.value.model.paras == s.model.paras && r.value.model.stackInParas == s.model.stackInParas
    ensures s.mode != Book && s.mode != Usfm && !s.inPara ==> r == Success(s)
    ensures s.mode != Book && s.mode != Usfm && s.inPara && |s.txt| == 0 ==> r == Success(OpenPara(s))
    ensures s.mode != Book && s.mode != Usfm && s.inPara && |s.txt| > 0 ==> r == FlushAndEndPara(s)
    ensures s.mode == Book ==>
      (r.Failure? <==> !M.CanAddString(s.model, s.txt) || !M.CanCloseTop(M.AddStringToInPara(s.model, s.txt)))
  {
    match s.mode
    case Book =>
      if !M.CanAddString(s.model, s.txt) then Failure(Panic)
      else
        var m1 := M.AddStringToInPara(s.model, s.txt);
        if !M.CanCloseTop(m1) then Failure(Panic)
        else Success(s.(model := M.EndBook(m1), txt := [], mode := Blank))
    case Usfm =>
      Success(s.(model := M.AddRootMetadata(s.model, Join(s.txt, "")), txt := []))
    case _ =>
      if |s.txt| == 0 && s.inPara then Success(OpenPara(s))
      else if s.inPara then FlushAndEndPara(s)
      else Success(s)
  }

  /** An end tag closes the character span and consumes the buffer only in state "char", where
      the state stays "char"; in every other state it has no effect. */
  function StepEndTag(s: ReaderState): (r: Result<ReaderState, string>)
    ensures s.mode != Char ==> r == Success(s)
    ensures s.mode == Char ==> (r.Success? <==> M.CanEndSpan(s.model, s.txt))
    ensures r.Failure? ==> r.error == Panic
    ensures s.mode == Char && r.Success? ==>
      && r.value.txt == [] && r.value.mode == Char
      && |r.value.model.stackInParas| == |s.model.stackInParas| - 1
      && r.value.model.parentEls == s.model.parentEls
  {
    if s.mode == Char then
      if !M.CanEndSpan(s.model, s.txt) then Failure(Panic)
      else Success(s.(model := M.EndAddCharMarker(s.model, s.txt), txt := []))
    else Success(s)
  }

  /** A text token. The first word after `\id` (buffer empty, state "book") becomes the book
      code and opens the book, and is not buffered; the first word in state "para" opens a
      paragraph and is buffered; the first word in state "char" opens a character span and is
      dropped; every other text token is appended to the buffer verbatim. */
  function StepText(s: ReaderState, e: TokenEvent): (r: ReaderState)
    requires IsText(e.tokenType)
    ensures e.tokenType == WordLike && s.mode == Book && |s.txt| == 0 ==>
      && r.txt == [] && r.attributes == []
      && r.model.parentEls == s.model.parentEls + [M.Element("book", SM.Insert(s.attributes, "code", e.value))]
      && |r.model.stackInParas| == |s.model.stackInParas| + 1
    ensures e.tokenType == WordLike && s.mode == Para && |s.txt| == 0 ==>
      r.txt == [e.value] && |r.model.stackInParas| == |s.model.stackInParas| + 1
    ensures e.tokenType == WordLike && s.mode == Char && |s.txt| == 0 ==>
      r.txt == [] && |r.model.stackInParas| == |s.model.stackInParas| + 1
    ensures !(e.tokenType == WordLike && s.mode in {Book, Para, Char} && |s.txt| == 0) ==>
      r == s.(txt := s.txt + [e.value])
    ensures r.mode == s.mode && r.inPara == s.inPara
  {
    if e.tokenType == WordLike && s.mode == Book && |s.txt| == 0 then
      var a := SM.Insert(s.attributes, "code", e.value);
      var m1 := M.PushElement(s.model, a, "book");
      s.(model := M.StartBook(m1, M.GetAttributes(m1)), attributes := [])
    else if e.tokenType == WordLike && s.mode == Para && |s.txt| == 0 then
      OpenPara(s).(txt := [e.value])
    else if e.tokenType == WordLike && s.mode == Char && |s.txt| == 0 then
      OpenChar(s, s.attributes)
    else
      s.(txt := s.txt + [e.value])
  }

  /** One token. Tokens that are neither text nor a start tag, chapter, verses, end-of-line or
      end tag (attributes, milestones, `\cp`, bare slashes, `~`, `//`, unknown characters) have no
      effect. */
  function Step(s: ReaderState, e: TokenEvent, isDigit: char -> bool, isWhitespace: char -> bool)
    : (r: Result<ReaderState, string>)
    ensures r.Failure? ==> r.error == Panic
    ensures r.Success? && s.inPara ==> r.value.inPara
    ensures NoEffect(e.tokenType) ==> r == Success(s)
  {
    if IsText(e.tokenType) then Success(StepText(s, e))
    else
      var marker := Marker(e.value, isWhitespace);
      match e.tokenType
      case StartTag => StepStartTag(s, marker)
      case Chapter => Success(StepChapter(s, e.value, isDigit))
      case Verses => StepVerse(s, e.value, isDigit)
      case Eol => StepEol(s)
      case EndTag => StepEndTag(s)
      case _ => Success(s)
  }

  /** Attribute, DefaultAttribute, EmptyMilestone, StartMilestoneTag, EndMilestoneMarker,
      PubChapter, BareSlash, NoBreakSpace, SoftLineBreak and Unknown. */
  predicate NoEffect(t: TokenType)
  {
    !IsText(t) && !t.StartTag? && !t.Chapter? && !t.Verses? && !t.Eol? && !t.EndTag?
  }

  /** The tokens from `s` on, stopping at the first panic. */
  function RunFrom(s: ReaderState, events: seq<TokenEvent>, isDigit: char -> bool, isWhitespace: char -> bool)
    : (r: Result<ReaderState, string>)
    ensures r.Failure? ==> r.error == Panic
    decreases |events|
  {
    if |events| == 0 then Success(s)
    else
      match Step(s, events[0], isDigit, isWhitespace)
      case Failure(e) => Failure(e)
      case Success(s1) => RunFrom(s1, events[1..], isDigit, isWhitespace)
  }

  /** At the end of the input a paragraph is flushed and closed exactly when `in_para` holds;
      then the document is assembled, which panics when no version was read. */
  function Finish(s: ReaderState): (r: Result<string, string>)
    ensures r.Failure? ==> r.error == Panic
    ensures !s.inPara ==>
      (r.Success? <==> M.CanAssemble(s.model)) && (r.Success? ==> r.value == M.AssembleModel(s.model))
    ensures s.inPara ==>
      (r.Success? <==> FlushAndEndPara(s).Success? && M.CanAssemble(FlushAndEndPara(s).value.model)) &&
      (r.Success? ==> r.value == M.AssembleModel(FlushAndEndPara(s).value.model))
  {
    var s1 := if s.inPara then FlushAndEndPara(s) else Success(s);
    match s1
    case Failure(e) => Failure(e)
    case Success(s2) =>
      if !M.CanAssemble(s2.model) then Failure(Panic) else Success(M.AssembleModel(s2.model))
  }

  /** The whole reader over a token sequence. */
  function Deserialize(events: seq<TokenEvent>, isDigit: char -> bool, isWhitespace: char -> bool)
    : (r: Result<string, string>)
    ensures r.Failure? ==> r.error == Panic
    ensures r.Success? ==>
      && RunFrom(Init(), events, isDigit, isWhitespace).Success?
      && exists m :: M.CanAssemble(m) && r.value == M.AssembleModel(m)
  {
    match RunFrom(Init(), events, isDigit, isWhitespace)
    case Failure(e) => Failure(e)
    case Success(s) =>
      var r := Finish(s);
      if r.Success? then
        var m := if s.inPara then FlushAndEndPara(s).value.model else s.model;
        assert M.CanAssemble(m) && r.value == M.AssembleModel(m);
        r
      else r
  }

  /** A text without tokens records no version, so `assemble_model` panics on it. */
  lemma EmptyTextPanics(isDigit: char -> bool, isWhitespace: char -> bool)
    ensures Deserialize([], isDigit, isWhitespace) == Failure(Panic)
  {
    assert RunFrom(Init(), [], isDigit, isWhitespace) == Success(Init());
    assert !M.CanAssemble(Init().model);
  }

  /* ---------- properties of runs ---------- */

  /** `in_para` is only ever set: once true it stays true for the rest of the run. */
  lemma {:induction false} InParaStaysSet(s: ReaderState, events: seq<TokenEvent>,
                                          isDigit: char -> bool, isWhitespace: char -> bool)
    requires s.inPara
    requires RunFrom(s, events, isDigit, isWhitespace).Success?
    ensures RunFrom(s, events, isDigit, isWhitespace).value.inPara
    decreases |events|
  {
    if |events| > 0 {
      var s1 := Step(s, events[0], isDigit, isWhitespace);
      InParaStaysSet(s1.value, events[1..], isDigit, isWhitespace);
    }
  }

  /** A run of text tokens in a state where none of the special first-word cases applies
      appends the token values to the buffer verbatim and changes nothing else. */
  lemma {:induction false} TextIsBuffered(s: ReaderState, events: seq<TokenEvent>,
                                          isDigit: char -> bool, isWhitespace: char -> bool)
    requires |s.txt| > 0 || s.mode !in {Book, Para, Char}
    requires forall i :: 0 <= i < |events| ==> IsText(events[i].tokenType)
    ensures RunFrom(s, events, isDigit, isWhitespace) ==
      Success(s.(txt := s.txt + seq(|events|, i requires 0 <= i < |events| => events[i].value)))
    decreases |events|
  {
    var values := seq(|events|, i requires 0 <= i < |events| => events[i].value);
    if |events| == 0 {
      assert values == [];
      assert s.txt + values == s.txt;
    } else {
      var s1 := s.(txt := s.txt + [events[0].value]);
      assert IsText(events[0].tokenType);
      assert StepText(s, events[0]) == s1;
      assert Step(s, events[0], isDigit, isWhitespace) == Success(s1);
      assert RunFrom(s, events, isDigit, isWhitespace) == RunFrom(s1, events[1..], isDigit, isWhitespace);
      assert |s1.txt| > 0;
      assert forall i :: 0 <= i < |events[1..]| ==> events[1..][i] == events[i + 1];
      TextIsBuffered(s1, events[1..], isDigit, isWhitespace);
      var rest := seq(|events[1..]|, i requires 0 <= i < |events[1..]| => events[1..][i].value);
      assert values == [events[0].value] + rest;
      assert s1.txt + rest == s.txt + values;
    }
  }

  lemma RunFromTwo(s: ReaderState, a: TokenEvent, b: TokenEvent, s1: ReaderState,
                   isDigit: char -> bool, isWhitespace: char -> bool)
    requires Step(s, a, isDigit, isWhitespace) == Success(s1)
    ensures RunFrom(s, [a, b], isDigit, isWhitespace) == RunFrom(s1, [b], isDigit, isWhitespace)
    ensures RunFrom(s1, [b], isDigit, isWhitespace) == Step(s1, b, isDigit, isWhitespace)
  {
    assert [a, b][1..] == [b];
    assert [b][1..] == [];
  }

  /** A start tag is handled by the start-tag arm on its marker. */
  lemma StepOnStartTag(s: ReaderState, e: TokenEvent, isDigit: char -> bool, isWhitespace: char -> bool)
    requires e.tokenType == StartTag
    ensures Step(s, e, isDigit, isWhitespace) == StepStartTag(s, Marker(e.value, isWhitespace))
  {
    assert !IsText(e.tokenType);
  }

  /** `\id` followed by a word with an empty buffer: the word is the book code of a new book
      frame and is not added to the buffer. */
  lemma IdThenWordStartsBook(s: ReaderState, id: TokenEvent, word: TokenEvent,
                             isDigit: char -> bool, isWhitespace: char -> bool)
    requires id.tokenType == StartTag && Marker(id.value, isWhitespace) == "id"
    requires word.tokenType == WordLike && |s.txt| == 0
    ensures var r := RunFrom(s, [id, word], isDigit, isWhitespace);
      && r.Success? && r.value.txt == [] && r.value.attributes == [] && r.value.mode == Book
      && |r.value.model.stackInParas| == |s.model.stackInParas| + 1
      && M.Top(r.value.model) ==
           [M.BookOpening(M.GetAttributes(M.PushElement(s.model,
              SM.Insert(SM.Insert(s.attributes, "marker", "id"), "code", word.value), "book")))]
  {
    var s1 := s.(mode := Book, attributes := SM.Insert(s.attributes, "marker", "id"));
    StepOnStartTag(s, id, isDigit, isWhitespace);
    RunFromTwo(s, id, word, s1, isDigit, isWhitespace);
    assert Step(s1, word, isDigit, isWhitespace) == Success(StepText(s1, word));
  }

  /** A start tag `\bd` followed by a word with an empty buffer opens two character spans and
      the word is lost: the char arm for a first word fires in state "char" as well. */
  lemma CharFirstWordOpensSecondSpan(s: ReaderState, tag: TokenEvent, word: TokenEvent,
                                     isDigit: char -> bool, isWhitespace: char -> bool)
    requires tag.tokenType == StartTag && Marker(tag.value, isWhitespace) == "bd"
    requires word.tokenType == WordLike && |s.txt| == 0
    ensures var r := RunFrom(s, [tag, word], isDigit, isWhitespace);
      && r.Success? && r.value.txt == [] && r.value.mode == Char
      && |r.value.model.stackInParas| == |s.model.stackInParas| + 2
  {
    var s1 := StepStartTag(s, "bd").value;
    StepOnStartTag(s, tag, isDigit, isWhitespace);
    RunFromTwo(s, tag, word, s1, isDigit, isWhitespace);
    assert Step(s1, word, isDigit, isWhitespace) == Success(StepText(s1, word));
  }

  /** `\v 1-2`: a verse range records only its first number. */
  lemma VerseRangeRecordsFirstNumber(isDigit: char -> bool)
    requires forall c :: isDigit(c) <==> '0' <= c <= '9'
    ensures SM.Get(NumberedAttributes("v", "\\v 1-2", isDigit), "number") == Some("1")
  {
    FirstRunOfVerseRange(isDigit);
  }

  lemma FirstRunOfVerseRange(isDigit: char -> bool)
    requires forall c :: isDigit(c) <==> '0' <= c <= '9'
    ensures FirstRun("\\v 1-2", isDigit) == Some("1")
  {
    var v := "\\v 1-2";
    assert !isDigit(v[0]) && !isDigit(v[1]) && !isDigit(v[2]) && isDigit(v[3]) && !isDigit(v[4]);
    var k := RunStart(v, isDigit);
    assert k == 3;
    var n := RunLength(v[3..], isDigit);
    assert v[3..][0] == '1' && v[3..][1] == '-';
    assert n == 1;
    assert v[3..4] == "1";
  }

  /* ---------- the reader loop ---------- */

  function Current(model: M.State, attributes: SM.SortedMap<string>, txt: seq<string>, mode: Mode, inPara: bool)
    : ReaderState
  {
    ReaderState(model, attributes, txt, mode, inPara)
  }

  /** Pushes an element and opens a paragraph on the builder with its attributes. */
  method OpenParaOn(model: B.AosjStringModel, attributes: SM.SortedMap<string>)
    modifies model
    ensures model.Snapshot() == OpenPara(ReaderState(old(model.Snapshot()), attributes, [], Blank, false)).model
  {
    model.PushElement(attributes, "para");
    var rendered := model.GetAttributes();
    model.StartNewPara(rendered);
  }

  /** Pushes an element and opens a character span on the builder with its attributes. */
  method OpenCharOn(model: B.AosjStringModel, attributes: SM.SortedMap<string>)
    modifies model
    ensures model.Snapshot() == OpenChar(ReaderState(old(model.Snapshot()), [], [], Blank, false), attributes).model
  {
    model.PushElement(attributes, "char");
    var rendered := model.GetAttributes();
    model.StartAddCharMarker(rendered);
  }

  /** `add_string_to_in_para` then `end_new_para` on the builder, or a panic. */
  method FlushAndEndParaOn(model: B.AosjStringModel, txt: seq<string>) returns (panicked: bool)
    modifies model
    ensures var r := FlushAndEndPara(ReaderState(old(model.Snapshot()), [], txt, Blank, false));
      panicked == r.Failure? && (!panicked ==> model.Snapshot() == r.value.model)
  {
    if !(|txt| == 0 || |model.stackInParas| > 0) {
      return true;
    }
    var cleared := model.AddStringToInPara(txt);
    if !M.CanCloseTop(model.Snapshot()) {
      return true;
    }
    model.EndNewPara();
    return false;
  }

  method StartTagArm(model: B.AosjStringModel, marker: string, s0: ReaderState)
    returns (panicked: bool, attributes: SM.SortedMap<string>, txt: seq<string>, mode: Mode, inPara: bool)
    requires s0.model == model.Snapshot()
    modifies model
    ensures var r := StepStartTag(s0, marker);
      panicked == r.Failure? && (!panicked ==> r.value == Current(model.Snapshot(), attributes, txt, mode, inPara))
  {
    attributes, txt, mode, inPara := s0.attributes, s0.txt, s0.mode, s0.inPara;
    panicked := false;
    if marker == "usfm" {
      mode := Usfm;
    } else if marker == "id" {
      mode := Book;
      attributes := SM.Insert(attributes, "marker", marker);
    } else if marker == "bd" || marker == "qs" || marker == "w" || marker == "+it" {
      mode := Char;
      attributes := SM.Insert(attributes, "marker", marker);
      OpenCharOn(model, attributes);
      attributes := [];
    } else {
      if inPara && |txt| != 0 {
        panicked := FlushAndEndParaOn(model, txt);
        if panicked {
          return;
        }
        txt := [];
      } else {
        OpenParaOn(model, attributes);
        inPara := true;
      }
      mode := Para;
      attributes := SM.Insert(attributes, "marker", marker);
    }
  }

  method ChapterArm(model: B.AosjStringModel, value: string, isDigit: char -> bool, s0: ReaderState)
    returns (attributes: SM.SortedMap<string>, mode: Mode)
    requires s0.model == model.Snapshot()
    modifies model
    ensures StepChapter(s0, value, isDigit) == Current(model.Snapshot(), attributes, s0.txt, mode, s0.inPara)
  {
    attributes := [];
    mode := C;
    attributes := SM.Insert(attributes, "marker", "c");
    var num := FirstRun(value, isDigit);
    if num.Some? {
      attributes := SM.Insert(attributes, "number", num.value);
    }
    model.PushElement(attributes, "chapter");
    var rendered := model.GetAttributes();
    model.AddChapter(rendered);
    attributes := [];
  }

  method VerseArm(model: B.AosjStringModel, value: string, isDigit: char -> bool, s0: ReaderState)
    returns (panicked: bool, attributes: SM.SortedMap<string>, mode: Mode)
    requires s0.model == model.Snapshot()
    modifies model
    ensures var r := StepVerse(s0, value, isDigit);
      panicked == r.Failure? && (!panicked ==> r.value == Current(model.Snapshot(), attributes, s0.txt, mode, s0.inPara))
  {
    attributes := [];
    mode := Verse;
    attributes := SM.Insert(attributes, "marker", "v");
    var num := FirstRun(value, isDigit);
    if num.Some? {
      attributes := SM.Insert(attributes, "number", num.value);
    }
    model.PushElement(attributes, "verse");
    if |model.stackInParas| == 0 {
      return true, attributes, mode;
    }
    var rendered := model.GetAttributes();
    model.AddVerseToInPara(rendered);
    attributes := [];
    panicked := false;
  }

  method EolArm(model: B.AosjStringModel, s0: ReaderState)
    returns (panicked: bool, txt: seq<string>, mode: Mode)
    requires s0.model == model.Snapshot()
    modifies model
    ensures var r := StepEol(s0);
      panicked == r.Failure? &&
      (!panicked ==> r.value == Current(model.Snapshot(), s0.attributes, txt, mode, s0.inPara))
  {
    txt, mode := s0.txt, s0.mode;
    panicked := false;
    if mode == Book {
      if !(|txt| == 0 || |model.stackInParas| > 0) {
        return true, txt, mode;
      }
      txt := model.AddStringToInPara(txt);
      if !M.CanCloseTop(model.Snapshot()) {
        return true, txt, mode;
      }
      model.EndBook();
      txt := [];
      mode := Blank;
    } else if mode == Usfm {
      model.AddRootMetadata(Join(txt, ""));
      txt := [];
    } else {
      if |txt| == 0 && s0.inPara {
        OpenParaOn(model, s0.attributes);
      } else if s0.inPara {
        panicked := FlushAndEndParaOn(model, txt);
        if panicked {
          return;
        }
        txt := [];
      }
    }
  }

  method EndTagArm(model: B.AosjStringModel, s0: ReaderState) returns (panicked: bool, txt: seq<string>)
    requires s0.model == model.Snapshot()
    modifies model
    ensures var r := StepEndTag(s0);
      panicked == r.Failure? && (!panicked ==> r.value == Current(model.Snapshot(), s0.attributes, txt, s0.mode, s0.inPara))
  {
    txt := s0.txt;
    panicked := false;
    if s0.mode == Char {
      if !M.CanEndSpan(model.Snapshot(), txt) {
        return true, txt;
      }
      txt := model.EndAddCharMarker(txt);
      txt := [];
    }
  }

  method TextArm(model: B.AosjStringModel, event: TokenEvent, s0: ReaderState)
    returns (attributes: SM.SortedMap<string>, txt: seq<string>)
    requires IsText(event.tokenType) && s0.model == model.Snapshot()
    modifies model
    ensures StepText(s0, event) == Current(model.Snapshot(), attributes, txt, s0.mode, s0.inPara)
  {
    attributes, txt := s0.attributes, s0.txt;
    if event.tokenType == WordLike && s0.mode == Book && |txt| == 0 {
      attributes := SM.Insert(attributes, "code", event.value);
      model.PushElement(attributes, "book");
      var rendered := model.GetAttributes();
      model.StartBook(rendered);
      attributes := [];
    } else if event.tokenType == WordLike && s0.mode == Para && |txt| == 0 {
      OpenParaOn(model, attributes);
      txt := txt + [event.value];
    } else if event.tokenType == WordLike && s0.mode == Char && |txt| == 0 {
      OpenCharOn(model, attributes);
    } else {
      txt := txt + [event.value];
    }
  }

  /** One turn of the loop: the marker is computed for non-text tokens and the matching arm runs. */
  method StepOn(model: B.AosjStringModel, event: TokenEvent, s0: ReaderState, isDigit: char -> bool, isWhitespace: char -> bool)
    returns (panicked: bool, attributes: SM.SortedMap<string>, txt: seq<string>, currentState: Mode, inPara: bool)
    requires s0.model == model.Snapshot()
    modifies model
    ensures var r := Step(s0, event, isDigit, isWhitespace);
      panicked == r.Failure? &&
      (!panicked ==> r.value == Current(model.Snapshot(), attributes, txt, currentState, inPara))
  {
    if !IsText(event.tokenType) {
      panicked, attributes, txt, currentState, inPara := MarkerTokenOn(model, event, s0, isDigit, isWhitespace);
    } else {
      assert Step(s0, event, isDigit, isWhitespace) == Success(StepText(s0, event));
      attributes, txt := TextArm(model, event, s0);
      panicked, currentState, inPara := false, s0.mode, s0.inPara;
    }
  }

  /** The arms of the loop for the tokens that carry a marker. */
  method MarkerTokenOn(model: B.AosjStringModel, event: TokenEvent, s0: ReaderState, isDigit: char -> bool, isWhitespace: char -> bool)
    returns (panicked: bool, attributes: SM.SortedMap<string>, txt: seq<string>, currentState: Mode, inPara: bool)
    requires s0.model == model.Snapshot() && !IsText(event.tokenType)
    modifies model
    ensures var r := Step(s0, event, isDigit, isWhitespace);
      panicked == r.Failure? &&
      (!panicked ==> r.value == Current(model.Snapshot(), attributes, txt, currentState, inPara))
  {
    attributes, txt, currentState, inPara := s0.attributes, s0.txt, s0.mode, s0.inPara;
    panicked := false;
    ghost var r := Step(s0, event, isDigit, isWhitespace);
    var marker := Marker(event.value, isWhitespace);
    match event.tokenType {
      case StartTag =>
        assert r == StepStartTag(s0, marker);
        panicked, attributes, txt, currentState, inPara := StartTagArm(model, marker, s0);
      case Chapter =>
        assert r == Success(StepChapter(s0, event.value, isDigit));
        attributes, currentState := ChapterArm(model, event.value, isDigit, s0);
      case Verses =>
        assert r == StepVerse(s0, event.value, isDigit);
        panicked, attributes, currentState := VerseArm(model, event.value, isDigit, s0);
      case Eol =>
        assert r == StepEol(s0);
        panicked, txt, currentState := EolArm(model, s0);
      case EndTag =>
        assert r == StepEndTag(s0);
        panicked, txt := EndTagArm(model, s0);
      case _ =>
    }
  }

  lemma RunFromUnfold(s: ReaderState, events: seq<TokenEvent>, i: nat, isDigit: char -> bool, isWhitespace: char -> bool)
    requires i < |events|
    ensures RunFrom(s, events[i..], isDigit, isWhitespace) ==
      match Step(s, events[i], isDigit, isWhitespace)
      case Failure(e) => Failure(e)
      case Success(s1) => RunFrom(s1, events[i + 1..], isDigit, isWhitespace)
  {
    assert events[i..][0] == events[i];
    assert events[i..][1..] == events[i + 1..];
  }

  /** The reader loop over the tokens of a text, proved to compute `Deserialize`. */
  method DeserializeFromString(search: (TokenType, string) -> Option<string>, caps: seq<string>,
                               isDigit: char -> bool, isWhitespace: char -> bool)
    returns (r: Result<string, string>)
    ensures r == Deserialize(ClassifyAll(search, caps), isDigit, isWhitespace)
  {
    var events := LexingRegex(search, caps);
    var model := new B.AosjStringModel();
    var attributes: SM.SortedMap<string> := [];
    var txt: seq<string> := [];
    var currentState := Blank;
    var inPara := false;
    var i := 0;
    while i < |events|
      invariant 0 <= i <= |events|
      invariant RunFrom(Current(model.Snapshot(), attributes, txt, currentState, inPara), events[i..], isDigit, isWhitespace)
        == RunFrom(Init(), events, isDigit, isWhitespace)
    {
      var event := events[i];
      var s0 := Current(model.Snapshot(), attributes, txt, currentState, inPara);
      RunFromUnfold(s0, events, i, isDigit, isWhitespace);
      var panicked;
      panicked, attributes, txt, currentState, inPara := StepOn(model, event, s0, isDigit, isWhitespace);
      if panicked {
        return Failure(Panic);
      }
      i := i + 1;
    }
    if inPara {
      var panicked := FlushAndEndParaOn(model, txt);
      if panicked {
        return Failure(Panic);
      }
    }
    if !M.CanAssemble(model.Snapshot()) {
      return Failure(Panic);
    }
    var assembled := model.AssembleModel();
    r := Success(assembled);
  }
}
