/** src/serialize_to_usfm.rs: USJ back to USFM text. The writer only ever grows by appending,
    so each walk is a function returning the text it appends; a `.unwrap()` on a missing or
    non-string member is a panic, `Failure(Panic)`, and loses the whole output. */
module SerializeToUsfm {
  import opened Wrappers
  import SM = SortedMap
  import J = Json

  /** `obj.get(key).unwrap().as_str().unwrap()` */
  function Required(v: J.Value, key: string): (r: Result<string, string>)
    ensures r.Success? <==> J.GetStr(v, key).Some?
    ensures r.Success? ==> r.value == J.GetStr(v, key).value
    ensures r.Failure? ==> r.error == Panic
  {
    match J.GetStr(v, key)
    case Some(s) => Success(s)
    case None => Failure(Panic)
  }

  /** The members a char writes as attributes. */
  predicate CharExtra(key: string)
  {
    key != "type" && key != "marker" && key != "content" && key != "default"
  }

  /** The members a milestone writes as attributes. */
  predicate MsExtra(key: string)
  {
    key != "type" && key != "marker" && key != "content"
  }

  /** `key=value` followed by `sep` for every member that `keep` admits, in key order; the value
      in serde_json's compact form (a string keeps its quotes). */
  function Pairs(members: seq<(string, J.Value)>, keep: string -> bool, sep: string): string
  {
    if |members| == 0 then ""
    else
      (if keep(members[0].0) then members[0].0 + "=" + J.Render(members[0].1) + sep else "")
      + Pairs(members[1..], keep, sep)
  }

  /** A member is written as `key=value` and `sep` when `keep` admits it and not at all
      otherwise; the members are written one after the other. */
  lemma {:induction false} PairsAppend(a: seq<(string, J.Value)>, b: seq<(string, J.Value)>,
                                       keep: string -> bool, sep: string)
    ensures Pairs(a + b, keep, sep) == Pairs(a, keep, sep) + Pairs(b, keep, sep)
    ensures |a| == 1 ==>
      Pairs(a, keep, sep) == if keep(a[0].0) then a[0].0 + "=" + J.Render(a[0].1) + sep else ""
    decreases |a|
  {
    if |a| == 0 {
      assert a + b == b;
    } else {
      assert (a + b)[1..] == a[1..] + b;
      PairsAppend(a[1..], b, keep, sep);
      if |a| == 1 {
        assert a[1..] == [];
      }
    }
  }

  /** Nothing is written when `keep` admits no member. */
  lemma {:induction false} PairsNoneKept(members: seq<(string, J.Value)>, keep: string -> bool, sep: string)
    requires forall i :: 0 <= i < |members| ==> !keep(members[i].0)
    ensures Pairs(members, keep, sep) == ""
    decreases |members|
  {
    if |members| > 0 {
      PairsNoneKept(members[1..], keep, sep);
    }
  }

  /** The milestone attribute loop: ` | ` before the first attribute written (`first` still
      set), then `key=value ` per attribute. */
  function MsAttributes(members: seq<(string, J.Value)>, first: bool): string
  {
    if |members| == 0 then ""
    else if MsExtra(members[0].0) then
      (if first then " | " else "") + (members[0].0 + "=" + J.Render(members[0].1) + " ")
      + MsAttributes(members[1..], false)
    else MsAttributes(members[1..], first)
  }

  /** Some member is written as a milestone attribute. */
  predicate HasMsExtra(members: seq<(string, J.Value)>)
  {
    exists i :: 0 <= i < |members| && MsExtra(members[i].0)
  }

  /** A first member that is not a milestone attribute changes nothing. */
  lemma HasMsExtraTail(members: seq<(string, J.Value)>)
    requires |members| > 0 && !MsExtra(members[0].0)
    ensures HasMsExtra(members) == HasMsExtra(members[1..])
  {
    var tail := members[1..];
    if HasMsExtra(members) {
      var i :| 0 <= i < |members| && MsExtra(members[i].0);
      assert tail[i - 1] == members[i];
    }
    if HasMsExtra(tail) {
      var i :| 0 <= i < |tail| && MsExtra(tail[i].0);
      assert members[i + 1] == tail[i];
    }
  }

  /** ` | ` is written once, before the first attribute, and only when there is one. */
  lemma {:induction false} MsAttributesSeparator(members: seq<(string, J.Value)>, first: bool)
    ensures MsAttributes(members, first) ==
      (if first && HasMsExtra(members) then " | " else "") + Pairs(members, MsExtra, " ")
  {
    if |members| == 0 {
      assert !HasMsExtra(members);
    } else if MsExtra(members[0].0) {
      MsAttributesSeparator(members[1..], false);
      SeparatorBeforeWritten(members, first);
    } else {
      MsAttributesSeparator(members[1..], first);
      HasMsExtraTail(members);
    }
  }

  /** The step of `MsAttributesSeparator` where the first member is written. */
  lemma SeparatorBeforeWritten(members: seq<(string, J.Value)>, first: bool)
    requires |members| > 0 && MsExtra(members[0].0)
    requires MsAttributes(members[1..], false) == Pairs(members[1..], MsExtra, " ")
    ensures MsAttributes(members, first) == (if first then " | " else "") + Pairs(members, MsExtra, " ")
    ensures HasMsExtra(members)
  {
    var p := members[0].0 + "=" + J.Render(members[0].1) + " ";
    var sep := if first then " | " else "";
    var rest := Pairs(members[1..], MsExtra, " ");
    assert MsAttributes(members, first) == (sep + p) + rest;
    assert Pairs(members, MsExtra, " ") == p + rest;
    assert (sep + p) + rest == sep + (p + rest);
    assert members[0] in members;
  }

  /** Opening and closing markers of a char: `+` inside another char. */
  function CharOpen(marker: string, inChar: bool): string
  {
    if inChar then "\\+" + marker + " " else "\\" + marker + " "
  }

  function CharClose(marker: string, inChar: bool): string
  {
    if inChar then "\\+" + marker + "*" else "\\" + marker + "*"
  }

  /** An opening marker is a backslash, a `+` when nested, the marker and a space; the closing
      marker is the opening one with `*` in place of that space. */
  lemma CharMarkers(marker: string, inChar: bool)
    ensures var open := CharOpen(marker, inChar);
      && |open| == |marker| + (if inChar then 3 else 2)
      && open[..|open| - |marker| - 1] == (if inChar then "\\+" else "\\")
      && open[|open| - |marker| - 1..] == marker + " "
      && CharClose(marker, inChar) == open[..|open| - 1] + "*"
  {
  }

  /** `write_content`: a string is written as is; a verse starts a new line `\v N `; a char
      writes its marker, its children (as nested), its default, its other attributes and its
      closing marker; a milestone writes its marker, its attributes and `\*`; anything else
      writes nothing. */
  function WriteContent(v: J.Value, inChar: bool): (r: Result<string, string>)
    decreases v, 1
    ensures r.Failure? ==> r.error == Panic
    ensures v.String? ==> r == Success(v.s)
    ensures !v.String? && J.Kind(v) != Some("verse") && J.Kind(v) != Some("char") && J.Kind(v) != Some("ms") ==>
      r == Success("")
    ensures J.Kind(v) == Some("verse") ==>
      r == if J.GetStr(v, "number").Some? then Success("\n\\v " + J.GetStr(v, "number").value + " ") else Failure(Panic)
    ensures J.Kind(v) == Some("char") ==> r == WriteChar(v, inChar)
    ensures J.Kind(v) == Some("ms") ==>
      r == if J.GetStr(v, "marker").Some?
           then Success("\\" + J.GetStr(v, "marker").value + MsAttributes(v.members, true) + "\\*")
           else Failure(Panic)
  {
    match v
    case String(s) => Success(s)
    case Object(members) =>
      (match J.Kind(v)
       case Some("verse") =>
         (match Required(v, "number")
          case Success(number) => Success("\n\\v " + number + " ")
          case Failure(e) => Failure(e))
       case Some("char") => WriteChar(v, inChar)
       case Some("ms") =>
         (match Required(v, "marker")
          case Success(marker) => Success("\\" + marker + MsAttributes(members, true) + "\\*")
          case Failure(e) => Failure(e))
       case _ => Success(""))
    case _ => Success("")
  }

  /** `|default ` when the char has a string default. */
  function DefaultText(v: J.Value): string
  {
    if J.GetStr(v, "default").Some? then "|" + J.GetStr(v, "default").value + " " else ""
  }

  lemma Framed(open: string, middle: string, close: string)
    ensures var s := open + middle + close;
      && |open| + |close| <= |s|
      && s[..|open|] == open && s[|s| - |close|..] == close
  {
    var s := open + middle + close;
    assert s[..|open|] == open;
    assert s[|s| - |close|..] == close;
  }

  /** The char arm: its marker (`+` when nested), its children written as nested, `|default `
      when it has a string default, every other attribute, and its closing marker. */
  function WriteChar(v: J.Value, inChar: bool): (r: Result<string, string>)
    requires v.Object?
    decreases v, 0, |J.Children(v)| + 1
    ensures r.Failure? ==> r.error == Panic
    ensures r.Success? <==> J.GetStr(v, "marker").Some? && WriteItems(v, 0, true).Success?
    ensures r.Success? ==>
      var marker := J.GetStr(v, "marker").value;
      r.value == CharOpen(marker, inChar)
                 + (WriteItems(v, 0, true).value + DefaultText(v) + Pairs(v.members, CharExtra, " "))
                 + CharClose(marker, inChar)
    ensures r.Success? ==>
      var marker := J.GetStr(v, "marker").value;
      && |CharOpen(marker, inChar)| + |CharClose(marker, inChar)| <= |r.value|
      && r.value[..|CharOpen(marker, inChar)|] == CharOpen(marker, inChar)
      && r.value[|r.value| - |CharClose(marker, inChar)|..] == CharClose(marker, inChar)
  {
    match Required(v, "marker")
    case Success(marker) =>
      (match WriteItems(v, 0, true)
       case Success(body) =>
         var open, close := CharOpen(marker, inChar), CharClose(marker, inChar);
         var middle := body + DefaultText(v) + Pairs(v.members, CharExtra, " ");
         Framed(open, middle, close);
         Success(open + middle + close)
       case Failure(e) => Failure(e))
    case Failure(e) => Failure(e)
  }

  /** The children of `v` from `i` on, each written in turn; the first panic stops the walk. */
  function WriteItems(v: J.Value, i: nat, inChar: bool): (r: Result<string, string>)
    requires i <= |J.Children(v)|
    decreases v, 0, |J.Children(v)| - i
    ensures r.Failure? ==> r.error == Panic
  {
    if i == |J.Children(v)| then Success("")
    else
      assert J.HasItems(v);
      match WriteContent(v.members[J.ContentIndex(v)].1.items[i], inChar)
      case Success(head) =>
        (match WriteItems(v, i + 1, inChar)
         case Success(tail) => Success(head + tail)
         case Failure(e) => Failure(e))
      case Failure(e) => Failure(e)
  }

  /** `text` written before what `rest` writes; a panic in `rest` loses everything. */
  function Prepend(text: string, rest: Result<string, string>): (r: Result<string, string>)
    ensures r.Failure? <==> rest.Failure?
    ensures r.Failure? ==> r == rest
  {
    if rest.Success? then Success(text + rest.value) else rest
  }

  lemma PrependNothing(rest: Result<string, string>)
    ensures Prepend("", rest) == rest
  {
    if rest.Success? {
      assert "" + rest.value == rest.value;
    }
  }

  lemma PrependAssoc(a: string, b: string, rest: Result<string, string>)
    ensures Prepend(a, Prepend(b, rest)) == Prepend(a + b, rest)
  {
    if rest.Success? {
      assert a + (b + rest.value) == a + b + rest.value;
    }
  }

  /** The children written one after the other: a child's text, then the text of the children
      after it; a panic in any child is a panic of the whole. */
  lemma WriteItemsStep(v: J.Value, i: nat, inChar: bool)
    requires i < |J.Children(v)|
    ensures WriteContent(J.Children(v)[i], inChar).Failure? ==> WriteItems(v, i, inChar) == Failure(Panic)
    ensures WriteContent(J.Children(v)[i], inChar).Success? ==>
      WriteItems(v, i, inChar) == Prepend(WriteContent(J.Children(v)[i], inChar).value, WriteItems(v, i + 1, inChar))
  {
  }

  /** One turn of the loop over the children: a child that panics makes the whole a panic;
      otherwise its text moves from what is left to write to what is written. */
  lemma WriteItemsTurn(v: J.Value, i: nat, inChar: bool, written: string)
    requires i < |J.Children(v)|
    ensures WriteContent(J.Children(v)[i], inChar).Failure? ==>
      Prepend(written, WriteItems(v, i, inChar)) == Failure(Panic)
    ensures WriteContent(J.Children(v)[i], inChar).Success? ==>
      Prepend(written, WriteItems(v, i, inChar)) ==
      Prepend(written + WriteContent(J.Children(v)[i], inChar).value, WriteItems(v, i + 1, inChar))
  {
    WriteItemsStep(v, i, inChar);
    var out := WriteContent(J.Children(v)[i], inChar);
    if out.Success? {
      PrependAssoc(written, out.value, WriteItems(v, i + 1, inChar));
    }
  }

  /** The children are written without a panic exactly when each of them is. */
  lemma {:induction false} WriteItemsSucceeds(v: J.Value, i: nat, inChar: bool)
    requires i <= |J.Children(v)|
    decreases |J.Children(v)| - i
    ensures WriteItems(v, i, inChar).Success? <==>
      forall k :: i <= k < |J.Children(v)| ==> WriteContent(J.Children(v)[k], inChar).Success?
  {
    var c := J.Children(v);
    if i < |c| {
      WriteItemsStep(v, i, inChar);
      WriteItemsSucceeds(v, i + 1, inChar);
      if WriteItems(v, i, inChar).Success? {
        assert WriteContent(c[i], inChar).Success? && WriteItems(v, i + 1, inChar).Success?;
        forall k | i <= k < |c| ensures WriteContent(c[k], inChar).Success? {
          if k > i {
            assert i + 1 <= k < |c|;
          }
        }
      } else if WriteContent(c[i], inChar).Success? {
        assert WriteItems(v, i + 1, inChar).Failure?;
        var k :| i + 1 <= k < |c| && !WriteContent(c[k], inChar).Success?;
      }
    }
  }

  /** A char inside a char is written with `+` on both of its markers. */
  lemma NestedCharGetsPlus(v: J.Value, inChar: bool, k: nat)
    requires v.Object? && J.Kind(v) == Some("char") && WriteContent(v, inChar).Success?
    requires k < |J.Children(v)| && J.Kind(J.Children(v)[k]) == Some("char")
    ensures var c := J.Children(v)[k];
      && WriteContent(c, true).Success? && J.GetStr(c, "marker").Some?
      && var out, marker := WriteContent(c, true).value, J.GetStr(c, "marker").value;
      && |out| >= |"\\+" + marker + " "| + |"\\+" + marker + "*"|
      && out[..|"\\+" + marker + " "|] == "\\+" + marker + " "
      && out[|out| - |"\\+" + marker + "*"|..] == "\\+" + marker + "*"
  {
    WriteItemsSucceeds(v, 0, true);
  }

  /** A char directly inside a para is written without `+`. */
  lemma ParaCharHasNoPlus(el: J.Value, k: nat)
    requires el.Object? && J.Kind(el) == Some("para") && TopElement(el).Success?
    requires k < |J.Children(el)| && J.Kind(J.Children(el)[k]) == Some("char")
    ensures var c := J.Children(el)[k];
      && WriteContent(c, false).Success? && J.GetStr(c, "marker").Some?
      && var out, marker := WriteContent(c, false).value, J.GetStr(c, "marker").value;
      && |out| >= |"\\" + marker + " "| + |"\\" + marker + "*"|
      && out[..|"\\" + marker + " "|] == "\\" + marker + " "
      && out[|out| - |"\\" + marker + "*"|..] == "\\" + marker + "*"
  {
    WriteItemsSucceeds(el, 0, false);
  }

  /** The strings among a book's children, concatenated; every other child is skipped. */
  function BookText(items: seq<J.Value>): (r: string)
    ensures (forall i :: 0 <= i < |items| ==> !items[i].String?) ==> r == ""
  {
    if |items| == 0 then ""
    else (if items[0].String? then items[0].s else "") + BookText(items[1..])
  }

  /** Appending a child adds its text when it is a string and nothing otherwise. */
  lemma {:induction false} BookTextAppend(items: seq<J.Value>, item: J.Value)
    ensures BookText(items + [item]) == BookText(items) + (if item.String? then item.s else "")
  {
    var x := if item.String? then item.s else "";
    if |items| == 0 {
      assert items + [item] == [item];
      assert BookText([item]) == x + BookText([]);
    } else {
      var t := items + [item];
      assert t[0] == items[0] && t[1..] == items[1..] + [item];
      BookTextAppend(items[1..], item);
      var h := if items[0].String? then items[0].s else "";
      assert BookText(t) == h + (BookText(items[1..]) + x);
      assert h + (BookText(items[1..]) + x) == h + BookText(items[1..]) + x;
    }
  }

  /** One top-level element: a book writes `\id CODE `, its strings and a newline; a para writes
      `\MARKER `, its children and a newline; a chapter writes `\c N` and a newline; anything else
      writes nothing. */
  function TopElement(el: J.Value): (r: Result<string, string>)
    ensures r.Failure? ==> r.error == Panic
    ensures !el.Object? ==> r == Success("")
    ensures el.Object? && J.Kind(el) == Some("book") ==>
      r == if J.GetStr(el, "code").Some?
           then Success("\\id " + J.GetStr(el, "code").value + " " + BookText(J.Children(el)) + "\n")
           else Failure(Panic)
    ensures el.Object? && J.Kind(el) == Some("chapter") ==>
      r == if J.GetStr(el, "number").Some? then Success("\\c " + J.GetStr(el, "number").value + "\n") else Failure(Panic)
    ensures el.Object? && J.Kind(el) == Some("para") ==>
      (r.Success? <==> J.GetStr(el, "marker").Some? && WriteItems(el, 0, false).Success?)
    ensures el.Object? && J.Kind(el) == Some("para") && r.Success? ==>
      r.value == "\\" + J.GetStr(el, "marker").value + " " + WriteItems(el, 0, false).value + "\n"
    ensures el.Object? && J.Kind(el) != Some("book") && J.Kind(el) != Some("para") && J.Kind(el) != Some("chapter") ==>
      r == Success("")
  {
    if !el.Object? then Success("")
    else match J.Kind(el)
      case Some("book") =>
        (match Required(el, "code")
         case Success(code) => Success("\\id " + code + " " + BookText(J.Children(el)) + "\n")
         case Failure(e) => Failure(e))
      case Some("para") =>
        (match Required(el, "marker")
         case Success(marker) =>
           (match WriteItems(el, 0, false)
            case Success(body) => Success("\\" + marker + " " + body + "\n")
            case Failure(e) => Failure(e))
         case Failure(e) => Failure(e))
      case Some("chapter") =>
        (match Required(el, "number")
         case Success(number) => Success("\\c " + number + "\n")
         case Failure(e) => Failure(e))
      case _ => Success("")
  }

  /** The first line: `\usfm V` when the document has a string version. */
  function Header(usj: J.Value): string
  {
    if J.GetStr(usj, "version").Some? then "\\usfm " + J.GetStr(usj, "version").value + "\n" else ""
  }

  /** The header is one line, `\usfm` and the version, when the version is a string, and
      nothing otherwise. */
  lemma HeaderLine(usj: J.Value)
    ensures J.GetStr(usj, "version").None? ==> Header(usj) == ""
    ensures J.GetStr(usj, "version").Some? ==>
      var r := Header(usj);
      && |r| == |J.GetStr(usj, "version").value| + 7
      && r[..6] == "\\usfm " && r[6..|r| - 1] == J.GetStr(usj, "version").value && r[|r| - 1] == '\n'
  {
  }

  /** The top-level elements from `i` on, written one after the other. */
  function TopElements(items: seq<J.Value>, i: nat): (r: Result<string, string>)
    requires i <= |items|
    decreases |items| - i
    ensures r.Failure? ==> r.error == Panic
  {
    if i == |items| then Success("")
    else match TopElement(items[i])
      case Success(head) =>
        (match TopElements(items, i + 1)
         case Success(tail) => Success(head + tail)
         case Failure(e) => Failure(e))
      case Failure(e) => Failure(e)
  }

  /** The elements from `i` on are written without a panic exactly when each of them is. */
  lemma {:induction false} TopElementsSucceeds(items: seq<J.Value>, i: nat)
    requires i <= |items|
    decreases |items| - i
    ensures TopElements(items, i).Success? <==> forall k :: i <= k < |items| ==> TopElement(items[k]).Success?
  {
    if i < |items| {
      TopElementsSucceeds(items, i + 1);
      assert (forall k :: i <= k < |items| ==> TopElement(items[k]).Success?) <==>
        TopElement(items[i]).Success? && (forall k :: i + 1 <= k < |items| ==> TopElement(items[k]).Success?);
    }
  }

  /** One element, then the ones after it; a panic in it is a panic of the whole. */
  lemma TopElementsStep(items: seq<J.Value>, i: nat)
    requires i < |items|
    ensures TopElement(items[i]).Failure? ==> TopElements(items, i) == Failure(Panic)
    ensures TopElement(items[i]).Success? ==>
      TopElements(items, i) == Prepend(TopElement(items[i]).value, TopElements(items, i + 1))
  {
  }

  /** `serialize_to_usfm`: the header, then every top-level element. */
  function SerializeToUsfm(usj: J.Value): (r: Result<string, string>)
    ensures r.Failure? ==> r.error == Panic
  {
    Prepend(Header(usj), TopElements(J.Children(usj), 0))
  }

  /** The document is written without a panic exactly when every top-level element is; the
      text then starts with the header. */
  lemma SerializeToUsfmSucceeds(usj: J.Value)
    ensures SerializeToUsfm(usj).Success? <==>
      forall k :: 0 <= k < |J.Children(usj)| ==> TopElement(J.Children(usj)[k]).Success?
    ensures SerializeToUsfm(usj).Success? ==>
      |Header(usj)| <= |SerializeToUsfm(usj).value| && SerializeToUsfm(usj).value[..|Header(usj)|] == Header(usj)
  {
    TopElementsSucceeds(J.Children(usj), 0);
    if SerializeToUsfm(usj).Success? {
      var body := TopElements(J.Children(usj), 0).value;
      assert (Header(usj) + body)[..|Header(usj)|] == Header(usj);
    }
  }

  /** A document without content is its header alone: `\usfm V` and a newline, or nothing. */
  lemma EmptyDocument(usj: J.Value)
    requires J.Children(usj) == []
    ensures SerializeToUsfm(usj) == Success(Header(usj))
    ensures J.GetStr(usj, "version").Some? ==>
      SerializeToUsfm(usj).value == "\\usfm " + J.GetStr(usj, "version").value + "\n"
  {
    assert Header(usj) + "" == Header(usj);
  }

  /** A book's strings, the loop of the book arm. */
  method BookTextOn(items: seq<J.Value>) returns (text: string)
    ensures text == BookText(items)
  {
    text := "";
    var i := 0;
    while i < |items|
      invariant 0 <= i <= |items|
      invariant text == BookText(items[..i])
    {
      if items[i].String? {
        text := text + items[i].s;
      }
      BookTextAppend(items[..i], items[i]);
      assert items[..i + 1] == items[..i] + [items[i]];
      i := i + 1;
    }
    assert items[..i] == items;
  }

  /** The children of `el`, written one after the other: the loop of the para arm and of the
      char arm. */
  method WriteItemsOn(el: J.Value, inChar: bool) returns (r: Result<string, string>)
    ensures r == WriteItems(el, 0, inChar)
  {
    var items := J.Children(el);
    var writer := "";
    PrependNothing(WriteItems(el, 0, inChar));
    var i := 0;
    while i < |items|
      invariant 0 <= i <= |items|
      invariant WriteItems(el, 0, inChar) == Prepend(writer, WriteItems(el, i, inChar))
    {
      var out := WriteContent(items[i], inChar);
      WriteItemsTurn(el, i, inChar, writer);
      if out.Failure? {
        return Failure(Panic);
      }
      writer := writer + out.value;
      i := i + 1;
    }
    assert writer + "" == writer;
    r := Success(writer);
  }

  /** One turn of the top-level loop of `serialize_to_usfm`. */
  method TopElementOn(el: J.Value) returns (r: Result<string, string>)
    ensures r == TopElement(el)
  {
    if !el.Object? {
      return Success("");
    }
    var kind := J.Kind(el);
    if kind == Some("book") {
      var code := Required(el, "code");
      if code.Failure? {
        return Failure(Panic);
      }
      var text := BookTextOn(J.Children(el));
      r := Success("\\id " + code.value + " " + text + "\n");
    } else if kind == Some("para") {
      var marker := Required(el, "marker");
      if marker.Failure? {
        return Failure(Panic);
      }
      var body := WriteItemsOn(el, false);
      if body.Failure? {
        return Failure(Panic);
      }
      r := Success("\\" + marker.value + " " + body.value + "\n");
    } else if kind == Some("chapter") {
      var number := Required(el, "number");
      if number.Failure? {
        return Failure(Panic);
      }
      r := Success("\\c " + number.value + "\n");
    } else {
      r := Success("");
    }
  }

  /** `serialize_to_usfm`, the writer loop over the top-level elements. */
  method SerializeToUsfmOn(usj: J.Value) returns (r: Result<string, string>)
    ensures r == SerializeToUsfm(usj)
  {
    var writer := "";
    var version := J.GetStr(usj, "version");
    if version.Some? {
      writer := "\\usfm " + version.value + "\n";
    }
    var content := J.Children(usj);
    ghost var target := SerializeToUsfm(usj);
    assert target == Prepend(writer, TopElements(content, 0));
    var i := 0;
    while i < |content|
      invariant 0 <= i <= |content|
      invariant target == Prepend(writer, TopElements(content, i))
    {
      var out := TopElementOn(content[i]);
      TopElementsStep(content, i);
      if out.Failure? {
        return Failure(Panic);
      }
      PrependAssoc(writer, out.value, TopElements(content, i + 1));
      writer := writer + out.value;
      i := i + 1;
    }
    assert writer + "" == writer;
    r := Success(writer);
  }
}
