/** `AosjStringModel`, the builder the three readers drive, as a class whose fields the methods
    update in place. Every method is proved to move the builder exactly as the corresponding
    operation of `AosjModel` moves its snapshot. */
module AosjString {
  import opened Wrappers
  import opened Strings
  import SM = SortedMap
  import M = AosjModel

  class AosjStringModel {
    var rootAttributes: SM.SortedMap<string>
    var paras: seq<string>
    var currentPara: string
    var stackInParas: seq<seq<string>>
    var charMarkerStack: seq<string>
    var noteStack: seq<string>
    var parentEls: seq<M.Element>

    /** The builder's fields as a value. */
    function Snapshot(): M.State
      reads this
    {
      M.State(rootAttributes, paras, currentPara, stackInParas, charMarkerStack, noteStack, parentEls)
    }

    constructor ()
      ensures Snapshot() == M.New()
    {
      rootAttributes := [];
      paras := [];
      currentPara := "";
      stackInParas := [];
      charMarkerStack := [];
      noteStack := [];
      parentEls := [];
    }

    method PushElement(attributes: SM.SortedMap<string>, tagName: string)
      modifies this
      ensures Snapshot() == M.PushElement(old(Snapshot()), attributes, tagName)
    {
      parentEls := parentEls + [M.Element(tagName, attributes)];
    }

    /** `parent_els().pop()`. */
    method PopParentEl()
      modifies this
      ensures Snapshot() == M.PopParentEl(old(Snapshot()))
    {
      if |parentEls| > 0 {
        parentEls := parentEls[..|parentEls| - 1];
      }
    }

    /** Scans the keys in order and reports the first one that is not allowed. */
    static method ScanKeys(attributes: SM.SortedMap<string>, allowed: set<string>) returns (r: Result<(), string>)
      ensures r == M.CheckAllowed(attributes, allowed)
    {
      var i := 0;
      while i < |attributes|
        invariant 0 <= i <= |attributes|
        invariant forall j :: 0 <= j < i ==> attributes[j].0 in allowed
      {
        var key := attributes[i].0;
        if key !in allowed {
          FirstUnexpectedIs(attributes, allowed, i);
          return Failure(M.UnexpectedMessage(key));
        }
        i := i + 1;
      }
      FirstUnexpectedIs(attributes, allowed, i);
      return Success(());
    }

    method ValidateAttributes(tagName: string, attributes: SM.SortedMap<string>) returns (r: Result<(), string>)
      ensures r == M.ValidateAttributes(tagName, attributes)
    {
      if tagName == "para" {
        if !SM.ContainsKey(attributes, "type") { return Failure(M.MissingMessage("type")); }
        if !SM.ContainsKey(attributes, "marker") { return Failure(M.MissingMessage("marker")); }
        r := ScanKeys(attributes, {"type", "content", "marker", "sid"});
      } else if tagName == "book" {
        if !SM.ContainsKey(attributes, "type") { return Failure(M.MissingMessage("type")); }
        if !SM.ContainsKey(attributes, "marker") { return Failure(M.MissingMessage("marker")); }
        if !SM.ContainsKey(attributes, "code") { return Failure(M.MissingMessage("code")); }
        r := ScanKeys(attributes, {"type", "content", "marker", "code"});
      } else if tagName == "chapter" {
        if !SM.ContainsKey(attributes, "type") { return Failure(M.MissingMessage("type")); }
        if !SM.ContainsKey(attributes, "marker") { return Failure(M.MissingMessage("marker")); }
        if !SM.ContainsKey(attributes, "number") { return Failure(M.MissingMessage("number")); }
        r := ScanKeys(attributes, {"type", "marker", "number", "sid", "altnumber", "pubnumber"});
      } else if tagName == "char" {
        if !SM.ContainsKey(attributes, "type") { return Failure(M.MissingMessage("type")); }
        if !SM.ContainsKey(attributes, "marker") { return Failure(M.MissingMessage("marker")); }
        r := ScanKeys(attributes, {"type", "content", "marker", "link_id", "link_href"});
      } else {
        r := Success(());
      }
    }

    /** `get_attributes`: walks the innermost parent element's attributes in key order. */
    method GetAttributes() returns (r: string)
      ensures r == M.GetAttributes(Snapshot())
    {
      var entries: seq<string> := [];
      if |parentEls| > 0 {
        var attributes := parentEls[|parentEls| - 1].attributes;
        var i := 0;
        while i < |attributes|
          invariant 0 <= i <= |attributes|
          invariant entries == M.AttributeEntries(attributes[..i])
        {
          var (key, value) := attributes[i];
          if key != "sid" && key != "vid" && key != "eid" {
            var goodKey := key;
            if key == "style" {
              goodKey := "marker";
            }
            entries := entries + ["\"" + goodKey + "\": \"" + value + "\""];
          }
          assert attributes[..i + 1] == attributes[..i] + [attributes[i]];
          M.AttributeEntriesAppend(attributes[..i], [attributes[i]]);
          i := i + 1;
        }
        assert attributes[..i] == attributes;
      }
      r := Join(entries, ", ");
    }

    method AddRootMetadata(version: string)
      modifies this
      ensures Snapshot() == M.AddRootMetadata(old(Snapshot()), version)
    {
      rootAttributes := SM.Insert(rootAttributes, "version", version);
    }

    method StartBook(attributes: string)
      modifies this
      ensures Snapshot() == M.StartBook(old(Snapshot()), attributes)
    {
      stackInParas := stackInParas + [[M.BookOpening(attributes)]];
    }

    /** Pops the top frame, drops the trailing comma of its last fragment, appends `closing`
        and returns the result, as `end_book`, `end_new_para`, `end_add_char_marker` and
        `end_add_note` each do inline. */
    method PopAndClose(closing: string) returns (closed: seq<string>)
      requires |stackInParas| > 0
      requires var top := stackInParas[|stackInParas| - 1]; |top| > 0 && |top[|top| - 1]| > 0
      modifies this
      ensures closed == M.CloseFrame(old(stackInParas[|stackInParas| - 1]), closing)
      ensures stackInParas == old(stackInParas[..|stackInParas| - 1])
      ensures Snapshot().(stackInParas := old(stackInParas)) == old(Snapshot())
    {
      var last := stackInParas[|stackInParas| - 1];
      stackInParas := stackInParas[..|stackInParas| - 1];
      var lastOfLast := last[|last| - 1];
      last := last[..|last| - 1];
      var ultimate := lastOfLast[|lastOfLast| - 1];
      lastOfLast := lastOfLast[..|lastOfLast| - 1];
      if ultimate != ',' {
        lastOfLast := lastOfLast + [ultimate];
      }
      assert lastOfLast == M.DropTrailingComma(old(stackInParas[|stackInParas| - 1])[|last|]);
      last := last + [lastOfLast];
      closed := last + [closing];
    }

    method EndBook()
      requires M.CanCloseTop(Snapshot())
      modifies this
      ensures Snapshot() == M.EndBook(old(Snapshot()))
    {
      var closed := PopAndClose(M.TopClose);
      paras := paras + [Join(closed, " ")];
      stackInParas := [];
    }

    method StartNewPara(attributes: string)
      modifies this
      ensures Snapshot() == M.StartNewPara(old(Snapshot()), attributes)
    {
      stackInParas := stackInParas + [[M.ParaOpening(attributes)]];
    }

    method EndNewPara()
      requires M.CanCloseTop(Snapshot())
      modifies this
      ensures Snapshot() == M.EndNewPara(old(Snapshot()))
    {
      var closed := PopAndClose(M.TopClose);
      paras := paras + [Join(closed, " ")];
      stackInParas := [];
    }

    /** `add_string_to_in_para`; the caller's buffer comes back cleared. */
    method AddStringToInPara(txt: seq<string>) returns (cleared: seq<string>)
      requires M.CanAddString(Snapshot(), txt)
      modifies this
      ensures Snapshot() == M.AddStringToInPara(old(Snapshot()), txt)
      ensures cleared == []
    {
      if |txt| != 0 {
        var last := stackInParas[|stackInParas| - 1];
        stackInParas := stackInParas[..|stackInParas| - 1];
        last := last + [M.TextItem(txt)];
        stackInParas := stackInParas + [last];
      }
      cleared := [];
    }

    method AddChapter(attributes: string)
      modifies this
      ensures Snapshot() == M.AddChapter(old(Snapshot()), attributes)
    {
      paras := paras + [M.ChapterEntry(attributes)];
    }

    method AddVerseToInPara(attributes: string)
      requires |stackInParas| > 0
      modifies this
      ensures Snapshot() == M.AddVerseToInPara(old(Snapshot()), attributes)
    {
      var last := stackInParas[|stackInParas| - 1];
      stackInParas := stackInParas[..|stackInParas| - 1];
      last := last + [M.VerseItem(attributes)];
      stackInParas := stackInParas + [last];
    }

    method AddMilestone(attributes: string)
      requires |stackInParas| > 0
      modifies this
      ensures Snapshot() == M.AddMilestone(old(Snapshot()), attributes)
    {
      var last := stackInParas[|stackInParas| - 1];
      stackInParas := stackInParas[..|stackInParas| - 1];
      last := last + [M.MilestoneItem(attributes)];
      stackInParas := stackInParas + [last];
    }

    method StartAddCharMarker(attributes: string)
      modifies this
      ensures Snapshot() == M.StartAddCharMarker(old(Snapshot()), attributes)
    {
      stackInParas := stackInParas + [[M.CharOpening(attributes)]];
    }

    /** The shared closing of `end_add_char_marker` and `end_add_note`. */
    method EndSpan(txt: seq<string>) returns (cleared: seq<string>)
      requires M.CanEndSpan(Snapshot(), txt)
      modifies this
      ensures Snapshot() == M.EndSpan(old(Snapshot()), txt)
      ensures cleared == []
    {
      ghost var m0 := Snapshot();
      if |txt| > 0 {
        var last := stackInParas[|stackInParas| - 1];
        stackInParas := stackInParas[..|stackInParas| - 1];
        last := last + [M.LastText(txt)];
        stackInParas := stackInParas + [last];
      }
      assert stackInParas[|stackInParas| - 1] == M.FlushedTop(m0, txt);
      assert stackInParas[..|stackInParas| - 1] == m0.stackInParas[..|m0.stackInParas| - 1];
      var element := PopAndClose(M.SpanClose);
      if |element| > 0 {
        var last := stackInParas[|stackInParas| - 1];
        stackInParas := stackInParas[..|stackInParas| - 1];
        last := last + [Join(element, " ")];
        stackInParas := stackInParas + [last];
      }
      cleared := [];
    }

    method EndAddCharMarker(txt: seq<string>) returns (cleared: seq<string>)
      requires M.CanEndSpan(Snapshot(), txt)
      modifies this
      ensures Snapshot() == M.EndAddCharMarker(old(Snapshot()), txt)
      ensures cleared == []
    {
      cleared := EndSpan(txt);
    }

    method StartAddNote(attributes: string)
      modifies this
      ensures Snapshot() == M.StartAddNote(old(Snapshot()), attributes)
    {
      stackInParas := stackInParas + [[M.NoteOpening(attributes)]];
    }

    method EndAddNote(txt: seq<string>) returns (cleared: seq<string>)
      requires M.CanEndSpan(Snapshot(), txt)
      modifies this
      ensures Snapshot() == M.EndAddNote(old(Snapshot()), txt)
      ensures cleared == []
    {
      cleared := EndSpan(txt);
    }

    method AssembleModel() returns (r: string)
      requires M.CanAssemble(Snapshot())
      ensures r == M.AssembleModel(Snapshot())
    {
      var model := "";
      model := model + "{";
      model := model + " \"version\": \"" + SM.Get(rootAttributes, "version").value + "\",";
      model := model + " \"content\": [" + Join(paras, ",") + "]";
      model := model + "}";
      r := model;
    }
  }

  /** The scan stopping at `i` agrees with the first unexpected key. */
  lemma {:induction false} FirstUnexpectedIs(attributes: seq<(string, string)>, allowed: set<string>, i: nat)
    requires i <= |attributes|
    requires forall j :: 0 <= j < i ==> attributes[j].0 in allowed
    requires i < |attributes| ==> attributes[i].0 !in allowed
    ensures M.FirstUnexpected(attributes, allowed) == i
  {
    if i > 0 {
      assert attributes[0].0 in allowed;
      FirstUnexpectedIs(attributes[1..], allowed, i - 1);
    }
  }
}
