/** The USX reader of src/deserialize_usx.rs: a loop over the XML reader's events that drives
    the builder. The reader is abstracted as the sequence of events it yields, each start or
    empty element already carrying its name and attributes; running out of events is the
    reader's end of file. `Drive` states what a run of events does, `Deserialize` what the
    loop prints; `DeserializeFromEvents` is the loop itself, proved to compute `Deserialize`.
    A builder call that would panic (`unwrap` on `None`) ends the run with a panic. */
module DeserializeUsx {
  import opened Wrappers
  import opened Strings
  import SM = SortedMap
  import M = AosjModel
  import B = AosjString

  /** The events of the reader. `Text` holds the unescaped text, `None` when unescaping fails;
      `Other` is every event the loop ignores (declarations, comments, CDATA, ...). */
  datatype XmlEvent =
    | Start(name: string, attributes: SM.SortedMap<string>)
    | Empty(name: string, attributes: SM.SortedMap<string>)
    | Text(unescaped: Option<string>)
    | End
    | Eof
    | Err(message: string)
    | Other

  /** What a run ends with: the line printed at end of file, the reader's error printed, or a
      panic. */
  datatype Outcome = Printed(line: string) | ReportedError(line: string) | Panicked

  /** The loop's state: the builder and the text buffer `txt`. */
  datatype UsxState = UsxState(model: M.State, txt: seq<string>)

  function Init(): UsxState
  {
    UsxState(M.New(), [])
  }

  /** The rendered attributes of an element once it is the innermost parent. */
  function Rendered(attributes: SM.SortedMap<string>): string
  {
    Join(M.AttributeEntries(attributes), ", ")
  }

  /** The element names whose start opens a frame. */
  predicate Opens(name: string)
  {
    name == "para" || name == "book" || name == "char" || name == "note"
  }

  /** The first fragment of the frame a start element opens. */
  function Opening(name: string, attributes: string): string
    requires Opens(name)
  {
    if name == "para" then M.ParaOpening(attributes)
    else if name == "book" then M.BookOpening(attributes)
    else if name == "char" then M.CharOpening(attributes)
    else M.NoteOpening(attributes)
  }

  /** `model.add_string_to_in_para(&mut txt)`: the buffer becomes one text item of the top frame
      and is emptied; a panic when it holds text and no frame is open. */
  function Flush(s: UsxState): (r: Result<UsxState, string>)
    ensures r.Failure? <==> |s.txt| > 0 && |s.model.stackInParas| == 0
    ensures r.Failure? ==> r.error == Panic
    ensures r.Success? ==> r.value.txt == [] && r.value.model == M.AddStringToInPara(s.model, s.txt)
  {
    if !M.CanAddString(s.model, s.txt) then Failure(Panic)
    else Success(UsxState(M.AddStringToInPara(s.model, s.txt), []))
  }

  /** A start event: the pending text is flushed first, then the element is pushed; a `usx`
      element records its version (a panic when it has none), and a para, book, char or note
      opens its frame. The element stays entered until its end event. */
  function StartElement(s: UsxState, name: string, attributes: SM.SortedMap<string>): (r: Result<UsxState, string>)
    ensures r.Failure? ==> r.error == Panic
    ensures r.Success? <==> Flush(s).Success? && (name == "usx" ==> SM.ContainsKey(attributes, "version"))
    ensures r.Success? ==>
      var flushed := Flush(s).value.model;
      && r.value.txt == []
      && r.value.model.parentEls == s.model.parentEls + [M.Element(name, attributes)]
      && r.value.model.paras == s.model.paras
      && (Opens(name) ==>
            && |r.value.model.stackInParas| == |flushed.stackInParas| + 1
            && r.value.model.stackInParas[..|flushed.stackInParas|] == flushed.stackInParas
            && M.Top(r.value.model) == [Opening(name, Rendered(attributes))])
      && (!Opens(name) ==> r.value.model.stackInParas == flushed.stackInParas)
      && (name == "usx" ==> SM.Get(r.value.model.rootAttributes, "version") == SM.Get(attributes, "version"))
      && (name != "usx" ==> r.value.model.rootAttributes == s.model.rootAttributes)
  {
    match Flush(s)
    case Failure(e) => Failure(e)
    case Success(s1) =>
      var m := M.PushElement(s1.model, attributes, name);
      var a := M.GetAttributes(m);
      if name == "usx" then
        match SM.Get(attributes, "version")
        case None => Failure(Panic)
        case Some(version) => Success(s1.(model := M.AddRootMetadata(m, version)))
      else if name == "para" then Success(s1.(model := M.StartNewPara(m, a)))
      else if name == "book" then Success(s1.(model := M.StartBook(m, a)))
      else if name == "char" then Success(s1.(model := M.StartAddCharMarker(m, a)))
      else if name == "note" then Success(s1.(model := M.StartAddNote(m, a)))
      else Success(s1.(model := m))
  }

  /** An empty element: the pending text is flushed, the element is pushed and popped again; a
      verse or ms without an `eid` adds its item to the top frame (a panic when none is open), a
      chapter without an `eid` adds its chapter entry, anything else adds nothing. */
  function EmptyElement(s: UsxState, name: string, attributes: SM.SortedMap<string>): (r: Result<UsxState, string>)
    ensures r.Failure? ==> r.error == Panic
    ensures r.Success? <==>
      Flush(s).Success? &&
      ((name == "verse" || name == "ms") && !SM.ContainsKey(attributes, "eid") ==> |s.model.stackInParas| > 0)
    ensures r.Success? ==>
      var flushed := Flush(s).value.model;
      var a := Rendered(attributes);
      && r.value.txt == []
      && r.value.model.parentEls == s.model.parentEls
      && r.value.model.rootAttributes == s.model.rootAttributes
      && (if SM.ContainsKey(attributes, "eid") || (name != "verse" && name != "chapter" && name != "ms")
          then r.value.model.paras == s.model.paras && r.value.model.stackInParas == flushed.stackInParas
          else if name == "chapter"
          then r.value.model.paras == s.model.paras + [M.ChapterEntry(a)] &&
               r.value.model.stackInParas == flushed.stackInParas
          else
            && r.value.model.paras == s.model.paras
            && |r.value.model.stackInParas| == |flushed.stackInParas|
            && r.value.model.stackInParas[..|flushed.stackInParas| - 1] == flushed.stackInParas[..|flushed.stackInParas| - 1]
            && M.Top(r.value.model) == M.Top(flushed) + [if name == "verse" then M.VerseItem(a) else M.MilestoneItem(a)])
  {
    match Flush(s)
    case Failure(e) => Failure(e)
    case Success(s1) =>
      var m := M.PushElement(s1.model, attributes, name);
      var a := M.GetAttributes(m);
      var noEid := !SM.ContainsKey(attributes, "eid");
      if name == "verse" && noEid then
        if |m.stackInParas| == 0 then Failure(Panic)
        else Success(s1.(model := M.PopParentEl(M.AddVerseToInPara(m, a))))
      else if name == "chapter" && noEid then
        Success(s1.(model := M.PopParentEl(M.AddChapter(m, a))))
      else if name == "ms" && noEid then
        if |m.stackInParas| == 0 then Failure(Panic)
        else Success(s1.(model := M.PopParentEl(M.AddMilestone(m, a))))
      else Success(s1.(model := M.PopParentEl(m)))
  }

  /** A text event: the text is buffered only inside an element nested in another one (the
      text directly under the root is dropped); a panic when it cannot be unescaped. */
  function TextEvent(s: UsxState, text: Option<string>): (r: Result<UsxState, string>)
    ensures |s.model.parentEls| <= 1 ==> r == Success(s)
    ensures |s.model.parentEls| > 1 && text.None? ==> r == Failure(Panic)
    ensures |s.model.parentEls| > 1 && text.Some? ==>
      r.Success? && r.value.model == s.model && r.value.txt == s.txt + [text.value]
  {
    if |s.model.parentEls| > 1 then
      match text
      case None => Failure(Panic)
      case Some(t) => Success(s.(txt := s.txt + [t]))
    else Success(s)
  }

  /** The tag name of the innermost entered element. */
  function CurrentTag(m: M.State): string
    requires |m.parentEls| > 0
  {
    m.parentEls[|m.parentEls| - 1].tagName
  }

  /** An end event, dispatched on the innermost entered element (a panic when there is none): a
      para or book flushes the text and closes its frame into a new finished item; a char or
      note closes its span with the buffer into the frame below; then exactly one element is
      popped. */
  function EndElement(s: UsxState): (r: Result<UsxState, string>)
    ensures r.Failure? ==> r.error == Panic
    ensures |s.model.parentEls| == 0 ==> r.Failure?
    ensures r.Success? ==>
      && |s.model.parentEls| > 0
      && r.value.model.parentEls == s.model.parentEls[..|s.model.parentEls| - 1]
      && r.value.model.rootAttributes == s.model.rootAttributes
    ensures r.Success? && (CurrentTag(s.model) == "para" || CurrentTag(s.model) == "book") ==>
      && r.value.txt == [] && r.value.model.stackInParas == []
      && |r.value.model.paras| == |s.model.paras| + 1
      && r.value.model.paras[..|s.model.paras|] == s.model.paras
    ensures r.Success? && (CurrentTag(s.model) == "char" || CurrentTag(s.model) == "note") ==>
      && r.value.txt == [] && |s.model.stackInParas| >= 2
      && |r.value.model.stackInParas| == |s.model.stackInParas| - 1
      && r.value.model.stackInParas[..|s.model.stackInParas| - 2] == s.model.stackInParas[..|s.model.stackInParas| - 2]
      && r.value.model.paras == s.model.paras
    ensures r.Success? && !(CurrentTag(s.model) in {"para", "book", "char", "note"}) ==>
      r.value == s.(model := M.PopParentEl(s.model))
  {
    if |s.model.parentEls| == 0 then Failure(Panic)
    else
      var tag := CurrentTag(s.model);
      if tag == "para" || tag == "book" then
        match Flush(s)
        case Failure(e) => Failure(e)
        case Success(s1) =>
          if !M.CanCloseTop(s1.model) then Failure(Panic)
          else
            var m := if tag == "para" then M.EndNewPara(s1.model) else M.EndBook(s1.model);
            Success(s1.(model := M.PopParentEl(m)))
      else if tag == "char" || tag == "note" then
        if !M.CanEndSpan(s.model, s.txt) then Failure(Panic)
        else
          var m := if tag == "char" then M.EndAddCharMarker(s.model, s.txt) else M.EndAddNote(s.model, s.txt);
          Success(UsxState(M.PopParentEl(m), []))
      else Success(s.(model := M.PopParentEl(s.model)))
  }

  /** The events after which the loop goes on. */
  predicate Continues(e: XmlEvent)
  {
    !e.Eof? && !e.Err?
  }

  /** One pass of the loop for an event after which it goes on. */
  function Step(s: UsxState, e: XmlEvent): (r: Result<UsxState, string>)
    requires Continues(e)
    ensures r.Failure? ==> r.error == Panic
    ensures e.Other? ==> r == Success(s)
  {
    match e
    case Start(name, attributes) => StartElement(s, name, attributes)
    case Empty(name, attributes) => EmptyElement(s, name, attributes)
    case Text(text) => TextEvent(s, text)
    case End => EndElement(s)
    case Other => Success(s)
  }

  /** Why a run stopped: end of file (also when the events run out) or a reader error. */
  datatype Stop = AtEof | AtError(message: string)

  /** The loop over `events`: each event is handled in order until the first end of file or
      reader error; the state and the reason for stopping, or a panic. */
  function Drive(s: UsxState, events: seq<XmlEvent>): (r: Result<(UsxState, Stop), string>)
    ensures r.Failure? ==> r.error == Panic
    ensures (forall i :: 0 <= i < |events| ==> events[i].Other?) ==> r == Success((s, AtEof))
    decreases |events|
  {
    if |events| == 0 then Success((s, AtEof))
    else
      var e := events[0];
      if e.Eof? then Success((s, AtEof))
      else if e.Err? then Success((s, AtError(e.message)))
      else
        match Step(s, e)
        case Failure(err) => Failure(err)
        case Success(s1) =>
          assert forall i :: 0 <= i < |events| - 1 ==> events[1..][i] == events[i + 1];
          Drive(s1, events[1..])
  }

  /** `deserialize_from_file`: at end of file the assembled model is printed (a panic when no
      `usx` element gave a version); a reader error is printed instead. */
  function Deserialize(events: seq<XmlEvent>): (r: Outcome)
    ensures Drive(Init(), events).Failure? ==> r == Panicked
    ensures Drive(Init(), events).Success? && Drive(Init(), events).value.1.AtError? ==>
      r == ReportedError(Drive(Init(), events).value.1.message)
    ensures Drive(Init(), events).Success? && Drive(Init(), events).value.1.AtEof? ==>
      var m := Drive(Init(), events).value.0.model;
      r == if M.CanAssemble(m) then Printed(M.AssembleModel(m)) else Panicked
    ensures r.ReportedError? ==> exists i :: 0 <= i < |events| && events[i] == Err(r.line)
  {
    match Drive(Init(), events)
    case Failure(_) => Panicked
    case Success((s, stop)) =>
      match stop
      case AtError(message) =>
        DriveStopsAtError(Init(), events);
        ReportedError(message)
      case AtEof =>
        if !M.CanAssemble(s.model) then Panicked else Printed(M.AssembleModel(s.model))
  }

  /** Without a `usx` element no version is recorded, so reaching the end of the file panics
      in `assemble_model`, whatever other events came before. */
  lemma OnlyIgnoredEventsPanic(events: seq<XmlEvent>)
    requires forall i :: 0 <= i < |events| ==> events[i].Other?
    ensures Deserialize(events) == Panicked
    ensures Deserialize(events + [Eof]) == Panicked
  {
    assert Drive(Init(), events) == Success((Init(), AtEof));
    OtherEventsThenEof(Init(), events);
  }

  lemma {:induction false} OtherEventsThenEof(s: UsxState, events: seq<XmlEvent>)
    requires forall i :: 0 <= i < |events| ==> events[i].Other?
    ensures Drive(s, events + [Eof]) == Success((s, AtEof))
    decreases |events|
  {
    if |events| > 0 {
      assert (events + [Eof])[0] == events[0];
      assert (events + [Eof])[1..] == events[1..] + [Eof];
      OtherEventsThenEof(s, events[1..]);
    }
  }

  /** A run stops on a reader error only when that error is one of its events. */
  lemma {:induction false} DriveStopsAtError(s: UsxState, events: seq<XmlEvent>)
    requires Drive(s, events).Success? && Drive(s, events).value.1.AtError?
    ensures exists i :: 0 <= i < |events| && events[i] == Err(Drive(s, events).value.1.message)
    decreases |events|
  {
    var e := events[0];
    if !e.Err? {
      var s1 := Step(s, e).value;
      DriveStopsAtError(s1, events[1..]);
      var i :| 0 <= i < |events[1..]| && events[1..][i] == Err(Drive(s1, events[1..]).value.1.message);
      assert events[i + 1] == events[1..][i];
    }
  }

  /** Nothing after the first end of file or reader error is read. */
  lemma {:induction false} DriveIgnoresRest(s: UsxState, events: seq<XmlEvent>, rest: seq<XmlEvent>)
    requires exists i :: 0 <= i < |events| && !Continues(events[i])
    ensures Drive(s, events + rest) == Drive(s, events)
    decreases |events|
  {
    var e := events[0];
    assert (events + rest)[0] == e;
    if Continues(e) {
      var i :| 0 <= i < |events| && !Continues(events[i]);
      assert events[1..][i - 1] == events[i];
      assert (events + rest)[1..] == events[1..] + rest;
      match Step(s, e)
      case Failure(_) =>
      case Success(s1) => DriveIgnoresRest(s1, events[1..], rest);
    }
  }

  /** A paragraph read from its start, one text and its end becomes one finished item, the
      paragraph's opening, the text and the closing, with the paragraph element entered and left
      again. */
  lemma ParaRoundTrip(s: UsxState, attributes: SM.SortedMap<string>, text: string)
    requires |s.model.parentEls| > 0 && s.txt == []
    ensures var r := Drive(s, [Start("para", attributes), Text(Some(text)), End]);
      && r.Success? && r.value.1 == AtEof
      && r.value.0.txt == []
      && r.value.0.model.paras ==
           s.model.paras + [M.ParaOpening(Rendered(attributes)) + " " + M.LastText([text]) + " " + M.TopClose]
      && r.value.0.model.stackInParas == []
      && r.value.0.model.parentEls == s.model.parentEls
  {
    var m1 := M.PushElement(s.model, attributes, "para");
    ParaOpensAndReads(s, attributes, text);
    ParaCloses(m1, attributes, text);
    assert m1.parentEls[..|m1.parentEls| - 1] == s.model.parentEls;
  }

  /** The start of a paragraph and its text: the frame is opened and the text is buffered. */
  lemma ParaOpensAndReads(s: UsxState, attributes: SM.SortedMap<string>, text: string)
    requires |s.model.parentEls| > 0 && s.txt == []
    ensures Drive(s, [Start("para", attributes), Text(Some(text)), End])
         == Drive(UsxState(M.StartNewPara(M.PushElement(s.model, attributes, "para"), Rendered(attributes)), [text]), [End])
  {
    var m1 := M.PushElement(s.model, attributes, "para");
    var s1 := UsxState(M.StartNewPara(m1, Rendered(attributes)), []);
    ParaStart(s, attributes);
    assert [Start("para", attributes), Text(Some(text)), End] == [Start("para", attributes)] + [Text(Some(text)), End];
    DriveStep(s, Start("para", attributes), [Text(Some(text)), End]);
    TextThenEnd(s1, text);
  }

  /** Text inside an entered element is buffered before the end event is handled. */
  lemma TextThenEnd(s: UsxState, text: string)
    requires |s.model.parentEls| > 1 && s.txt == []
    ensures Drive(s, [Text(Some(text)), End]) == Drive(s.(txt := [text]), [End])
  {
    ParaText(s, text);
    assert [Text(Some(text)), End] == [Text(Some(text))] + [End];
    DriveStep(s, Text(Some(text)), [End]);
  }

  /** The end of a paragraph whose text is buffered: one finished item, and the paragraph element
      is left. */
  lemma ParaCloses(m1: M.State, attributes: SM.SortedMap<string>, text: string)
    requires |m1.parentEls| > 0 && m1.parentEls[|m1.parentEls| - 1] == M.Element("para", attributes)
    ensures var r := Drive(UsxState(M.StartNewPara(m1, Rendered(attributes)), [text]), [End]);
      && r.Success? && r.value.1 == AtEof
      && r.value.0.txt == []
      && r.value.0.model.paras ==
           m1.paras + [M.ParaOpening(Rendered(attributes)) + " " + M.LastText([text]) + " " + M.TopClose]
      && r.value.0.model.stackInParas == []
      && r.value.0.model.parentEls == m1.parentEls[..|m1.parentEls| - 1]
  {
    var s2 := UsxState(M.StartNewPara(m1, Rendered(attributes)), [text]);
    assert s2.model.parentEls[|s2.model.parentEls| - 1] == M.Element("para", attributes);
    ParaEnd(s2);
    assert [End] == [End] + [];
    DriveStep(s2, End, []);
    var closed := M.EndNewPara(M.AddStringToInPara(s2.model, [text]));
    assert closed.parentEls == m1.parentEls;
    M.ParaWithTextIsOneEntry(m1, Rendered(attributes), [text]);
  }

  /** One event after which the loop goes on, and then the rest. */
  lemma DriveStep(s: UsxState, e: XmlEvent, rest: seq<XmlEvent>)
    requires Continues(e) && Step(s, e).Success?
    ensures Drive(s, [e] + rest) == Drive(Step(s, e).value, rest)
  {
    assert ([e] + rest)[1..] == rest;
  }

  lemma ParaStart(s: UsxState, attributes: SM.SortedMap<string>)
    requires s.txt == []
    ensures StartElement(s, "para", attributes) ==
      Success(UsxState(M.StartNewPara(M.PushElement(s.model, attributes, "para"), Rendered(attributes)), []))
  {
    assert Flush(s) == Success(s);
  }

  lemma ParaText(s: UsxState, text: string)
    requires |s.model.parentEls| > 1 && s.txt == []
    ensures TextEvent(s, Some(text)) == Success(s.(txt := [text]))
  {
    assert s.txt + [text] == [text];
  }

  /** The end of a paragraph whose frame is open and whose buffer holds text. */
  lemma ParaEnd(s: UsxState)
    requires |s.model.parentEls| > 0 && CurrentTag(s.model) == "para"
    requires |s.model.stackInParas| > 0 && |s.txt| > 0
    ensures EndElement(s) == Success(UsxState(M.PopParentEl(M.EndNewPara(M.AddStringToInPara(s.model, s.txt))), []))
  {
    var s1 := Flush(s).value;
    assert M.CanCloseTop(s1.model) by {
      assert M.Top(s1.model) == M.Top(s.model) + [M.TextItem(s.txt)];
    }
  }

  /* ---------- the loop on an AosjStringModel ---------- */

  method StartOn(model: B.AosjStringModel, txt: seq<string>, name: string, attributes: SM.SortedMap<string>)
    returns (panicked: bool, txt': seq<string>)
    modifies model
    ensures var r := StartElement(UsxState(old(model.Snapshot()), txt), name, attributes);
      panicked == r.Failure? && (!panicked ==> UsxState(model.Snapshot(), txt') == r.value)
  {
    if !M.CanAddString(model.Snapshot(), txt) {
      return true, txt;
    }
    txt' := model.AddStringToInPara(txt);
    model.PushElement(attributes, name);
    if name == "usx" {
      var version := SM.Get(attributes, "version");
      if version.None? {
        return true, txt';
      }
      model.AddRootMetadata(version.value);
    } else if name == "para" {
      var a := model.GetAttributes();
      model.StartNewPara(a);
    } else if name == "book" {
      var a := model.GetAttributes();
      model.StartBook(a);
    } else if name == "char" {
      var a := model.GetAttributes();
      model.StartAddCharMarker(a);
    } else if name == "note" {
      var a := model.GetAttributes();
      model.StartAddNote(a);
    }
    panicked := false;
  }

  method EmptyOn(model: B.AosjStringModel, txt: seq<string>, name: string, attributes: SM.SortedMap<string>)
    returns (panicked: bool, txt': seq<string>)
    modifies model
    ensures var r := EmptyElement(UsxState(old(model.Snapshot()), txt), name, attributes);
      panicked == r.Failure? && (!panicked ==> UsxState(model.Snapshot(), txt') == r.value)
  {
    if !M.CanAddString(model.Snapshot(), txt) {
      return true, txt;
    }
    txt' := model.AddStringToInPara(txt);
    model.PushElement(attributes, name);
    var noEid := !SM.ContainsKey(attributes, "eid");
    if name == "verse" && noEid {
      if |model.stackInParas| == 0 {
        return true, txt';
      }
      var a := model.GetAttributes();
      model.AddVerseToInPara(a);
    } else if name == "chapter" && noEid {
      var a := model.GetAttributes();
      model.AddChapter(a);
    } else if name == "ms" && noEid {
      if |model.stackInParas| == 0 {
        return true, txt';
      }
      var a := model.GetAttributes();
      model.AddMilestone(a);
    }
    model.PopParentEl();
    panicked := false;
  }

  method EndOn(model: B.AosjStringModel, txt: seq<string>) returns (panicked: bool, txt': seq<string>)
    modifies model
    ensures var r := EndElement(UsxState(old(model.Snapshot()), txt));
      panicked == r.Failure? && (!panicked ==> UsxState(model.Snapshot(), txt') == r.value)
  {
    if |model.parentEls| == 0 {
      return true, txt;
    }
    var tag := model.parentEls[|model.parentEls| - 1].tagName;
    txt' := txt;
    if tag == "para" || tag == "book" {
      if !M.CanAddString(model.Snapshot(), txt') {
        return true, txt';
      }
      txt' := model.AddStringToInPara(txt');
      if !M.CanCloseTop(model.Snapshot()) {
        return true, txt';
      }
      if tag == "para" {
        model.EndNewPara();
      } else {
        model.EndBook();
      }
    } else if tag == "char" || tag == "note" {
      if !M.CanEndSpan(model.Snapshot(), txt') {
        return true, txt';
      }
      if tag == "char" {
        txt' := model.EndAddCharMarker(txt');
      } else {
        txt' := model.EndAddNote(txt');
      }
    }
    model.PopParentEl();
    panicked := false;
  }

  /** One pass of the loop for an event after which it goes on. */
  method StepOn(model: B.AosjStringModel, txt: seq<string>, e: XmlEvent) returns (panicked: bool, txt': seq<string>)
    requires Continues(e)
    modifies model
    ensures var r := Step(UsxState(old(model.Snapshot()), txt), e);
      panicked == r.Failure? && (!panicked ==> UsxState(model.Snapshot(), txt') == r.value)
  {
    match e {
      case Start(name, attributes) =>
        panicked, txt' := StartOn(model, txt, name, attributes);
      case Empty(name, attributes) =>
        panicked, txt' := EmptyOn(model, txt, name, attributes);
      case Text(text) =>
        panicked, txt' := false, txt;
        if |model.parentEls| > 1 {
          if text.None? {
            return true, txt;
          }
          txt' := txt + [text.value];
        }
      case End =>
        panicked, txt' := EndOn(model, txt);
      case Other =>
        panicked, txt' := false, txt;
    }
  }

  /** `deserialize_from_file` from the events on: the loop, stopped by end of file or a reader
      error, and the line it prints. */
  method DeserializeFromEvents(events: seq<XmlEvent>) returns (outcome: Outcome)
    ensures outcome == Deserialize(events)
  {
    var model := new B.AosjStringModel();
    var txt: seq<string> := [];
    var i := 0;
    while i < |events|
      invariant 0 <= i <= |events|
      invariant Drive(UsxState(model.Snapshot(), txt), events[i..]) == Drive(Init(), events)
    {
      var e := events[i];
      assert events[i..][0] == e && events[i..][1..] == events[i + 1..];
      if e.Eof? {
        break;
      }
      if e.Err? {
        return ReportedError(e.message);
      }
      var panicked;
      panicked, txt := StepOn(model, txt, e);
      if panicked {
        return Panicked;
      }
      i := i + 1;
    }
    if !M.CanAssemble(model.Snapshot()) {
      return Panicked;
    }
    var line := model.AssembleModel();
    return Printed(line);
  }

}
