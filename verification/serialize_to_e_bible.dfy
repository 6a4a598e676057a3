/** src/serialize_to_e_bible.rs: the eBible flavour of USFM output. The top-level walk writes
    a version line, a bare newline per book and per para and `\c N` per chapter; it never calls
    `write_content`, whose char arm differs from the USFM one in how it writes the attributes
    of a `w` word. */
module SerializeToEBible {
  import opened Wrappers
  import J = Json
  import U = SerializeToUsfm

  /** What a char writes between its children and its other attributes: only a `w` writes
      anything, `|default ` when it has a string default and otherwise ` | ` followed by its
      attributes as `key=value` with no separator. */
  function WordAttributes(v: J.Value): string
  {
    if J.GetStr(v, "marker") == Some("w") then
      if J.GetStr(v, "default").Some? then "|" + J.GetStr(v, "default").value + " "
      else " | " + U.Pairs(v.members, U.CharExtra, "")
    else ""
  }

  /** `write_content` of the eBible serializer. */
  function WriteContent(v: J.Value, inChar: bool): (r: Result<string, string>)
    decreases v, 1
    ensures r.Failure? ==> r.error == Panic
    ensures v.String? ==> r == Success(v.s)
    ensures !v.String? && J.Kind(v) != Some("verse") && J.Kind(v) != Some("char") && J.Kind(v) != Some("ms") ==>
      r == Success("")
    ensures J.Kind(v) == Some("verse") ==>
      r == if J.GetStr(v, "number").Some? then Success("\n\\v " + J.GetStr(v, "number").value + " ") else Failure(Panic)
    ensures J.Kind(v) == Some("char") ==> r == WriteChar(v, inChar)
    ensures J.Kind(v) == Some("ms") ==>
      r == if J.GetStr(v, "marker").Some?
           then Success("\\" + J.GetStr(v, "marker").value + U.MsAttributes(v.members, true) + "\\*")
           else Failure(Panic)
  {
    match v
    case String(s) => Success(s)
    case Object(members) =>
      (match J.Kind(v)
       case Some("verse") =>
         (match U.Required(v, "number")
          case Success(number) => Success("\n\\v " + number + " ")
          case Failure(e) => Failure(e))
       case Some("char") => WriteChar(v, inChar)
       case Some("ms") =>
         (match U.Required(v, "marker")
          case Success(marker) => Success("\\" + marker + U.MsAttributes(members, true) + "\\*")
          case Failure(e) => Failure(e))
       case _ => Success(""))
    case _ => Success("")
  }

  /** The char arm: its marker (`+` when nested), its children written as nested, the `w`
      attributes, every attribute but type, marker, content and default as `key=value `, and its
      closing marker. */
  function WriteChar(v: J.Value, inChar: bool): (r: Result<string, string>)
    requires v.Object?
    decreases v, 0, |J.Children(v)| + 1
    ensures r.Failure? ==> r.error == Panic
    ensures r.Success? <==> J.GetStr(v, "marker").Some? && WriteItems(v, 0, true).Success?
    ensures r.Success? ==>
      var marker := J.GetStr(v, "marker").value;
      r.value == U.CharOpen(marker, inChar)
                 + (WriteItems(v, 0, true).value + WordAttributes(v) + U.Pairs(v.members, U.CharExtra, " "))
                 + U.CharClose(marker, inChar)
    ensures r.Success? ==>
      var marker := J.GetStr(v, "marker").value;
      && |U.CharOpen(marker, inChar)| + |U.CharClose(marker, inChar)| <= |r.value|
      && r.value[..|U.CharOpen(marker, inChar)|] == U.CharOpen(marker, inChar)
      && r.value[|r.value| - |U.CharClose(marker, inChar)|..] == U.CharClose(marker, inChar)
  {
    match U.Required(v, "marker")
    case Success(marker) =>
      (match WriteItems(v, 0, true)
       case Success(body) =>
         var open, close := U.CharOpen(marker, inChar), U.CharClose(marker, inChar);
         var middle := body + WordAttributes(v) + U.Pairs(v.members, U.CharExtra, " ");
         U.Framed(open, middle, close);
         Success(open + middle + close)
       case Failure(e) => Failure(e))
    case Failure(e) => Failure(e)
  }

  /** The children of `v` from `i` on, each written in turn; the first panic stops the walk. */
  function WriteItems(v: J.Value, i: nat, inChar: bool): (r: Result<string, string>)
    requires i <= |J.Children(v)|
    decreases v, 0, |J.Children(v)| - i
    ensures r.Failure? ==> r.error == Panic
  {
    if i == |J.Children(v)| then Success("")
    else
      assert J.HasItems(v);
      match WriteContent(v.members[J.ContentIndex(v)].1.items[i], inChar)
      case Success(head) =>
        (match WriteItems(v, i + 1, inChar)
         case Success(tail) => Success(head + tail)
         case Failure(e) => Failure(e))
      case Failure(e) => Failure(e)
  }

  /** A `w` without a default writes its attributes twice: once after ` | ` with no separator,
      then once more as `key=value ` pairs. */
  lemma WordWithoutDefaultRepeatsAttributes(v: J.Value, inChar: bool)
    requires v.Object? && J.Kind(v) == Some("char") && J.GetStr(v, "marker") == Some("w")
    requires J.GetStr(v, "default").None? && WriteContent(v, inChar).Success?
    ensures WriteContent(v, inChar).value ==
      U.CharOpen("w", inChar)
      + (WriteItems(v, 0, true).value + (" | " + U.Pairs(v.members, U.CharExtra, ""))
         + U.Pairs(v.members, U.CharExtra, " "))
      + U.CharClose("w", inChar)
  {
    assert WordAttributes(v) == " | " + U.Pairs(v.members, U.CharExtra, "");
  }

  /** A char other than `w` writes no default, even when it has one. */
  lemma OtherCharsOmitDefault(v: J.Value, inChar: bool)
    requires v.Object? && J.Kind(v) == Some("char") && J.GetStr(v, "marker") != Some("w")
    requires WriteContent(v, inChar).Success?
    ensures var marker := J.GetStr(v, "marker").value;
      WriteContent(v, inChar).value ==
        U.CharOpen(marker, inChar) + (WriteItems(v, 0, true).value + "" + U.Pairs(v.members, U.CharExtra, " "))
        + U.CharClose(marker, inChar)
  {
  }

  /* ---------- agreement with the USFM serializer ---------- */

  /** No `w` word and no default anywhere in the subtree that `write_content` visits. */
  predicate Plain(v: J.Value)
    decreases v, 1
  {
    v.Object? && J.Kind(v) == Some("char") ==>
      J.GetStr(v, "marker") != Some("w") && J.GetStr(v, "default").None? && PlainFrom(v, 0)
  }

  predicate PlainFrom(v: J.Value, i: nat)
    requires i <= |J.Children(v)|
    decreases v, 0, |J.Children(v)| - i
  {
    i < |J.Children(v)| ==>
      assert J.HasItems(v);
      Plain(v.members[J.ContentIndex(v)].1.items[i]) && PlainFrom(v, i + 1)
  }

  /** Without `w` words and defaults, the two `write_content` functions write the same text and
      panic on the same input. */
  lemma {:induction false} MatchesUsfm(v: J.Value, inChar: bool)
    requires Plain(v)
    decreases v, 1
    ensures WriteContent(v, inChar) == U.WriteContent(v, inChar)
  {
    if v.Object? && J.Kind(v) == Some("char") {
      MatchesUsfmFrom(v, 0);
      assert WriteItems(v, 0, true) == U.WriteItems(v, 0, true);
      assert U.DefaultText(v) == "" && WordAttributes(v) == "";
    }
  }

  lemma {:induction false} MatchesUsfmFrom(v: J.Value, i: nat)
    requires i <= |J.Children(v)| && PlainFrom(v, i)
    decreases v, 0, |J.Children(v)| - i
    ensures WriteItems(v, i, true) == U.WriteItems(v, i, true)
  {
    if i < |J.Children(v)| {
      assert J.HasItems(v);
      var c := v.members[J.ContentIndex(v)].1.items[i];
      assert c == J.Children(v)[i];
      MatchesUsfm(c, true);
      MatchesUsfmFrom(v, i + 1);
      WriteItemsStep(v, i, true);
      U.WriteItemsStep(v, i, true);
      var w := WriteContent(c, true);
      if w.Success? {
        assert WriteItems(v, i, true) == U.Prepend(w.value, WriteItems(v, i + 1, true));
        assert U.WriteItems(v, i, true) == U.Prepend(w.value, U.WriteItems(v, i + 1, true));
      } else {
        assert WriteItems(v, i, true) == Failure(Panic) == U.WriteItems(v, i, true);
      }
    }
  }

  /** A child's text, then the text of the children after it; a panic in any child is a panic
      of the whole. */
  lemma WriteItemsStep(v: J.Value, i: nat, inChar: bool)
    requires i < |J.Children(v)|
    ensures WriteContent(J.Children(v)[i], inChar).Failure? ==> WriteItems(v, i, inChar) == Failure(Panic)
    ensures WriteContent(J.Children(v)[i], inChar).Success? ==>
      WriteItems(v, i, inChar) == U.Prepend(WriteContent(J.Children(v)[i], inChar).value, WriteItems(v, i + 1, inChar))
  {
  }

  /* ---------- the top-level walk ---------- */

  /** One top-level element: a book or a para writes a newline and nothing of its content; a
      chapter writes `\c N` and a newline; anything else writes nothing. */
  function TopElement(el: J.Value): (r: Result<string, string>)
    ensures r.Failure? ==> r.error == Panic
    ensures r.Failure? <==> el.Object? && J.Kind(el) == Some("chapter") && J.GetStr(el, "number").None?
    ensures el.Object? && (J.Kind(el) == Some("book") || J.Kind(el) == Some("para")) ==> r == Success("\n")
    ensures el.Object? && J.Kind(el) == Some("chapter") && r.Success? ==>
      r.value == "\\c " + J.GetStr(el, "number").value + "\n"
    ensures !el.Object? || (J.Kind(el) != Some("book") && J.Kind(el) != Some("para") && J.Kind(el) != Some("chapter")) ==>
      r == Success("")
  {
    if !el.Object? then Success("")
    else match J.Kind(el)
      case Some("book") => Success("\n")
      case Some("para") => Success("\n")
      case Some("chapter") =>
        (match U.Required(el, "number")
         case Success(number) => Success("\\c " + number + "\n")
         case Failure(e) => Failure(e))
      case _ => Success("")
  }

  /** The top-level elements from `i` on, written one after the other. */
  function TopElements(items: seq<J.Value>, i: nat): (r: Result<string, string>)
    requires i <= |items|
    decreases |items| - i
    ensures r.Failure? ==> r.error == Panic
  {
    if i == |items| then Success("")
    else match TopElement(items[i])
      case Success(head) =>
        (match TopElements(items, i + 1)
         case Success(tail) => Success(head + tail)
         case Failure(e) => Failure(e))
      case Failure(e) => Failure(e)
  }

  /** The elements from `i` on are written without a panic exactly when each of them is. */
  lemma {:induction false} TopElementsSucceeds(items: seq<J.Value>, i: nat)
    requires i <= |items|
    decreases |items| - i
    ensures TopElements(items, i).Success? <==> forall k :: i <= k < |items| ==> TopElement(items[k]).Success?
  {
    if i < |items| {
      TopElementsSucceeds(items, i + 1);
      assert (forall k :: i <= k < |items| ==> TopElement(items[k]).Success?) <==>
        TopElement(items[i]).Success? && (forall k :: i + 1 <= k < |items| ==> TopElement(items[k]).Success?);
    }
  }

  /** One element, then the ones after it; a panic in it is a panic of the whole. */
  lemma TopElementsStep(items: seq<J.Value>, i: nat)
    requires i < |items|
    ensures TopElement(items[i]).Failure? ==> TopElements(items, i) == Failure(Panic)
    ensures TopElement(items[i]).Success? ==>
      TopElements(items, i) == U.Prepend(TopElement(items[i]).value, TopElements(items, i + 1))
  {
  }

  /** Nothing left to write: the writer holds the result. */
  lemma WriterDone(writer: string, items: seq<J.Value>)
    ensures U.Prepend(writer, TopElements(items, |items|)) == Success(writer)
  {
    assert writer + "" == writer;
  }

  /** `serialize_to_e_bible`: the version line, then a line per book, para and chapter. */
  function SerializeToEBible(usj: J.Value): (r: Result<string, string>)
    ensures r.Failure? ==> r.error == Panic
  {
    U.Prepend(U.Header(usj), TopElements(J.Children(usj), 0))
  }

  /** The only panic is a chapter without a string number. */
  lemma PanicsOnlyOnChapterWithoutNumber(usj: J.Value)
    ensures SerializeToEBible(usj).Success? <==>
      forall k :: 0 <= k < |J.Children(usj)| ==>
        !(J.Children(usj)[k].Object? && J.Kind(J.Children(usj)[k]) == Some("chapter")
          && J.GetStr(J.Children(usj)[k], "number").None?)
  {
    TopElementsSucceeds(J.Children(usj), 0);
  }

  /** The number of books, paras and chapters among the top-level items. */
  function Lines(items: seq<J.Value>): nat
  {
    if |items| == 0 then 0
    else
      (if items[0].Object? && (J.Kind(items[0]) == Some("book") || J.Kind(items[0]) == Some("para")
                               || J.Kind(items[0]) == Some("chapter")) then 1 else 0)
      + Lines(items[1..])
  }

  function Newlines(s: string): nat
  {
    if |s| == 0 then 0 else (if s[0] == '\n' then 1 else 0) + Newlines(s[1..])
  }

  lemma {:induction false} NewlinesAppend(a: string, b: string)
    ensures Newlines(a + b) == Newlines(a) + Newlines(b)
  {
    if |a| > 0 {
      assert (a + b)[1..] == a[1..] + b;
      NewlinesAppend(a[1..], b);
    } else {
      assert a + b == b;
    }
  }

  lemma {:induction false} TopElementsNewlines(items: seq<J.Value>, i: nat)
    requires i <= |items| && TopElements(items, i).Success?
    requires forall k :: i <= k < |items| ==> J.GetStr(items[k], "number").Some? ==>
      Newlines(J.GetStr(items[k], "number").value) == 0
    decreases |items| - i
    ensures Newlines(TopElements(items, i).value) == Lines(items[i..])
  {
    if i < |items| {
      TopElementsNewlines(items, i + 1);
      var head := TopElement(items[i]).value;
      var tail := TopElements(items, i + 1).value;
      assert TopElements(items, i).value == head + tail;
      NewlinesAppend(head, tail);
      assert items[i..][1..] == items[i + 1..];
      assert items[i..][0] == items[i];
      if items[i].Object? && J.Kind(items[i]) == Some("chapter") {
        var n := J.GetStr(items[i], "number").value;
        NewlinesAppend("\\c " + n, "\n");
        NewlinesAppend("\\c ", n);
        assert Newlines("\\c ") == 0;
      }
    }
  }

  /** The output has one line per book, para and chapter after the version line: the content of
      books and paras never reaches it (chapter numbers being single-line). */
  lemma LineCount(usj: J.Value)
    requires SerializeToEBible(usj).Success?
    requires forall k :: 0 <= k < |J.Children(usj)| ==> J.GetStr(J.Children(usj)[k], "number").Some? ==>
      Newlines(J.GetStr(J.Children(usj)[k], "number").value) == 0
    ensures Newlines(SerializeToEBible(usj).value) == Newlines(U.Header(usj)) + Lines(J.Children(usj))
  {
    TopElementsNewlines(J.Children(usj), 0);
    NewlinesAppend(U.Header(usj), TopElements(J.Children(usj), 0).value);
    assert J.Children(usj)[0..] == J.Children(usj);
  }

  /** One turn of the top-level loop of `serialize_to_e_bible`. */
  method TopElementOn(el: J.Value) returns (r: Result<string, string>)
    ensures r == TopElement(el)
  {
    r := Success("");
    if el.Object? {
      var kind := J.Kind(el);
      if kind == Some("book") {
        r := Success("\n");
      } else if kind == Some("para") {
        r := Success("\n");
      } else if kind == Some("chapter") {
        var number := U.Required(el, "number");
        if number.Failure? {
          return Failure(Panic);
        }
        r := Success("\\c " + number.value + "\n");
      }
    }
  }

  /** `serialize_to_e_bible`, the writer loop over the top-level elements. */
  method SerializeToEBibleOn(usj: J.Value) returns (r: Result<string, string>)
    ensures r == SerializeToEBible(usj)
  {
    var writer := "";
    var version := J.GetStr(usj, "version");
    if version.Some? {
      writer := "\\usfm " + version.value + "\n";
    }
    var content := J.Children(usj);
    ghost var target := SerializeToEBible(usj);
    assert target == U.Prepend(writer, TopElements(content, 0));
    var i := 0;
    while i < |content|
      invariant 0 <= i <= |content|
      invariant target == U.Prepend(writer, TopElements(content, i))
    {
      var out := TopElementOn(content[i]);
      TopElementsStep(content, i);
      if out.Failure? {
        return Failure(Panic);
      }
      U.PrependAssoc(writer, out.value, TopElements(content, i + 1));
      writer := writer + out.value;
      i := i + 1;
    }
    WriterDone(writer, content);
    r := Success(writer);
  }
}
