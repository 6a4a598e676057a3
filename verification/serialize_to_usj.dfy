/** src/serialize_to_usj.rs once the text is parsed: `serialize_to_usj` marks an object root with
    "type": "USJ" and `add_sid_to_usj` writes the `sid` keys, threading the latest book code and
    chapter number through the top-level content. `AddSid` states the result as a function of
    the input; `AddSidToUsj` is the loop that updates the items one by one, proved to compute it. */
module SerializeToUsj {
  import opened Wrappers
  import SM = SortedMap
  import J = Json

  /** `serialize_to_usj` after the parse: an object root gets "type": "USJ", any other root is
      kept; then the sids are added. */
  function SerializeToUsj(json: J.Value): (r: J.Value)
    ensures json.Object? ==> r.Object? && J.Get(r, "type") == Some(J.String("USJ"))
    ensures !json.Object? ==> r == json
  {
    AddSid(MarkUsj(json))
  }

  function MarkUsj(json: J.Value): (r: J.Value)
    ensures json.Object? ==>
      && r.Object? && J.Get(r, "type") == Some(J.String("USJ"))
      && forall key :: key != "type" ==> J.Get(r, key) == J.Get(json, key)
    ensures !json.Object? ==> r == json
  {
    if json.Object? then J.Object(SM.Insert(json.members, "type", J.String("USJ"))) else json
  }

  /** The object with its `sid` set (inserted or overwritten); every other key keeps its value. */
  function SetSid(v: J.Value, sid: string): (r: J.Value)
    requires v.Object?
    ensures r.Object? && J.Get(r, "sid") == Some(J.String(sid))
    ensures forall key :: key != "sid" ==> J.Get(r, key) == J.Get(v, key)
  {
    J.Object(SM.Insert(v.members, "sid", J.String(sid)))
  }

  /** `b` is `a` with at most its `sid` changed. */
  ghost predicate SidOnly(a: J.Value, b: J.Value)
  {
    a == b || (a.Object? && b.Object? && forall key :: key != "sid" ==> J.Get(b, key) == J.Get(a, key))
  }

  /** The content array of an object, when it has one. */
  predicate HasContent(v: J.Value)
  {
    J.Get(v, "content").Some? && J.Get(v, "content").value.Array?
  }

  /** The object with its content array replaced. */
  function WithContent(v: J.Value, items: seq<J.Value>): (r: J.Value)
    requires v.Object?
    ensures r.Object? && J.Get(r, "content") == Some(J.Array(items))
    ensures forall key :: key != "content" ==> J.Get(r, key) == J.Get(v, key)
  {
    J.Object(SM.Insert(v.members, "content", J.Array(items)))
  }

  /* ---------- one top-level item ---------- */

  /** An item of a paragraph: a verse with a string number gets the sid "BOOK CHAPTER:NUMBER";
      anything else is kept. */
  function VerseWithSid(item: J.Value, book: string, chapter: string): (r: J.Value)
    ensures J.Kind(item) == Some("verse") && J.GetStr(item, "number").Some? ==>
      J.Get(r, "sid") == Some(J.String(book + " " + chapter + ":" + J.GetStr(item, "number").value))
    ensures forall key :: key != "sid" ==> J.Get(r, key) == J.Get(item, key)
    ensures !(J.Kind(item) == Some("verse") && J.GetStr(item, "number").Some?) ==> r == item
  {
    if J.Kind(item) == Some("verse") && J.GetStr(item, "number").Some? then
      SetSid(item, book + " " + chapter + ":" + J.GetStr(item, "number").value)
    else item
  }

  /** A verse with a string number gets its sid and keeps every other key; any other item is
      kept whole. */
  lemma VerseSid(item: J.Value, book: string, chapter: string)
    ensures SidOnly(item, VerseWithSid(item, book, chapter))
    ensures J.Kind(item) == Some("verse") && J.GetStr(item, "number").Some? ==>
      J.Get(VerseWithSid(item, book, chapter), "sid")
        == Some(J.String(book + " " + chapter + ":" + J.GetStr(item, "number").value))
    ensures !(J.Kind(item) == Some("verse") && J.GetStr(item, "number").Some?) ==>
      VerseWithSid(item, book, chapter) == item
  {
  }

  /** The direct items of a paragraph, each given its sid. */
  function VersesWithSids(items: seq<J.Value>, book: string, chapter: string): (r: seq<J.Value>)
    ensures |r| == |items|
    ensures forall j :: 0 <= j < |items| ==> r[j] == VerseWithSid(items[j], book, chapter)
  {
    seq(|items|, j requires 0 <= j < |items| => VerseWithSid(items[j], book, chapter))
  }

  /** The items are the same but for the `sid` of some of them. */
  ghost predicate ItemsSidOnly(a: seq<J.Value>, b: seq<J.Value>)
  {
    |a| == |b| && forall j :: 0 <= j < |a| ==> SidOnly(a[j], b[j])
  }

  /** A top-level item once the latest book code and chapter number are known: a chapter with a
      string number gets the sid "BOOK NUMBER"; the verses directly inside a para get theirs;
      anything else is kept. */
  function ItemWithSid(item: J.Value, book: string, chapter: string): (r: J.Value)
    ensures J.Kind(item) == Some("chapter") && J.GetStr(item, "number").Some? ==>
      && J.Get(r, "sid") == Some(J.String(book + " " + J.GetStr(item, "number").value))
      && forall key :: key != "sid" ==> J.Get(r, key) == J.Get(item, key)
    ensures J.Kind(item) == Some("para") && HasContent(item) ==>
      && (forall key :: key != "content" ==> J.Get(r, key) == J.Get(item, key))
      && |J.GetArray(r, "content")| == |J.GetArray(item, "content")|
      && forall j :: 0 <= j < |J.GetArray(item, "content")| ==>
           J.GetArray(r, "content")[j] == VerseWithSid(J.GetArray(item, "content")[j], book, chapter)
    ensures J.Kind(item) != Some("chapter") && J.Kind(item) != Some("para") ==> r == item
  {
    var kind := J.Kind(item);
    if kind == Some("chapter") && J.GetStr(item, "number").Some? then
      SetSid(item, book + " " + J.GetStr(item, "number").value)
    else if kind == Some("para") && HasContent(item) then
      WithContent(item, VersesWithSids(J.GetArray(item, "content"), book, chapter))
    else item
  }

  /** Only sids change: a chapter gets its sid, a para keeps every key but its content, whose
      items differ from the old ones at most by their sids. */
  lemma ItemChangesOnlySids(item: J.Value, book: string, chapter: string)
    ensures var r := ItemWithSid(item, book, chapter);
      || SidOnly(item, r)
      || (&& item.Object? && r.Object?
          && (forall key :: key != "content" ==> J.Get(r, key) == J.Get(item, key))
          && ItemsSidOnly(J.GetArray(item, "content"), J.GetArray(r, "content")))
  {
    if J.Kind(item) == Some("para") && HasContent(item) && !(J.Kind(item) == Some("chapter")) {
      var items := J.GetArray(item, "content");
      forall j | 0 <= j < |items| ensures SidOnly(items[j], VersesWithSids(items, book, chapter)[j]) {
        VerseSid(items[j], book, chapter);
      }
    }
  }

  /* ---------- the state threaded through the content ---------- */

  /** The code of a book item, when it is a string. */
  function BookCode(item: J.Value): Option<string>
  {
    if J.Kind(item) == Some("book") then J.GetStr(item, "code") else None
  }

  /** The number of a chapter item, when it is a string. */
  function ChapterNumber(item: J.Value): Option<string>
  {
    if J.Kind(item) == Some("chapter") then J.GetStr(item, "number") else None
  }

  /** `book_code` before item `k`, updated by every book whose code is a string. */
  function BookBefore(items: seq<J.Value>, k: nat): string
    requires k <= |items|
  {
    if k == 0 then ""
    else match BookCode(items[k - 1])
      case Some(code) => code
      case None => BookBefore(items, k - 1)
  }

  /** `chapter_number` before item `k`, updated by every chapter whose number is a string. */
  function ChapterBefore(items: seq<J.Value>, k: nat): string
    requires k <= |items|
  {
    if k == 0 then ""
    else match ChapterNumber(items[k - 1])
      case Some(number) => number
      case None => ChapterBefore(items, k - 1)
  }

  /** The book code before item `k` is "" or the code of an earlier book. */
  lemma {:induction false} BookBeforeComesFromBook(items: seq<J.Value>, k: nat)
    requires k <= |items|
    ensures BookBefore(items, k) == "" || exists i :: 0 <= i < k && BookCode(items[i]) == Some(BookBefore(items, k))
  {
    if k > 0 && BookCode(items[k - 1]).None? {
      BookBeforeComesFromBook(items, k - 1);
    }
  }

  /** The chapter number before item `k` is "" or the number of an earlier chapter. */
  lemma {:induction false} ChapterBeforeComesFromChapter(items: seq<J.Value>, k: nat)
    requires k <= |items|
    ensures ChapterBefore(items, k) == "" || exists i :: 0 <= i < k && ChapterNumber(items[i]) == Some(ChapterBefore(items, k))
  {
    if k > 0 && ChapterNumber(items[k - 1]).None? {
      ChapterBeforeComesFromChapter(items, k - 1);
    }
  }

  /** Before any book with a string code, the book code is "". */
  lemma {:induction false} BookBeforeFirst(items: seq<J.Value>, k: nat)
    requires k <= |items|
    requires forall i :: 0 <= i < k ==> BookCode(items[i]).None?
    ensures BookBefore(items, k) == ""
  {
    if k > 0 {
      BookBeforeFirst(items, k - 1);
    }
  }

  /** After a book with a string code and no later one, the book code is that code. */
  lemma {:induction false} BookBeforeIsLatest(items: seq<J.Value>, k: nat, j: nat)
    requires j < k <= |items| && BookCode(items[j]).Some?
    requires forall i :: j < i < k ==> BookCode(items[i]).None?
    ensures BookBefore(items, k) == BookCode(items[j]).value
  {
    if j < k - 1 {
      assert BookCode(items[k - 1]).None?;
      BookBeforeIsLatest(items, k - 1, j);
    }
  }

  /** Before any chapter with a string number, the chapter number is "". */
  lemma {:induction false} ChapterBeforeFirst(items: seq<J.Value>, k: nat)
    requires k <= |items|
    requires forall i :: 0 <= i < k ==> ChapterNumber(items[i]).None?
    ensures ChapterBefore(items, k) == ""
  {
    if k > 0 {
      ChapterBeforeFirst(items, k - 1);
    }
  }

  /** After a chapter with a string number and no later one, the chapter number is that number. */
  lemma {:induction false} ChapterBeforeIsLatest(items: seq<J.Value>, k: nat, j: nat)
    requires j < k <= |items| && ChapterNumber(items[j]).Some?
    requires forall i :: j < i < k ==> ChapterNumber(items[i]).None?
    ensures ChapterBefore(items, k) == ChapterNumber(items[j]).value
  {
    if j < k - 1 {
      assert ChapterNumber(items[k - 1]).None?;
      ChapterBeforeIsLatest(items, k - 1, j);
    }
  }

  /** The top-level items, each given its sids from the book and chapter before it. */
  function ItemsWithSids(items: seq<J.Value>): (r: seq<J.Value>)
    ensures |r| == |items|
    ensures forall k {:trigger r[k]} :: 0 <= k < |items| ==>
      r[k] == ItemWithSid(items[k], BookBefore(items, k), ChapterBefore(items, k))
  {
    seq(|items|, k requires 0 <= k < |items| => ItemWithSid(items[k], BookBefore(items, k), ChapterBefore(items, k)))
  }

  /** `add_sid_to_usj`: the root's content array, when it has one, with every item given its
      sids; every other key of the root is kept. */
  function AddSid(json: J.Value): (r: J.Value)
    ensures !json.Object? || !HasContent(json) ==> r == json
    ensures json.Object? && HasContent(json) ==>
      && r.Object?
      && (forall key :: key != "content" ==> J.Get(r, key) == J.Get(json, key))
      && HasContent(r) && |J.GetArray(r, "content")| == |J.GetArray(json, "content")|
  {
    if json.Object? && HasContent(json) then
      WithContent(json, ItemsWithSids(J.GetArray(json, "content")))
    else json
  }

  /* ---------- what add_sid_to_usj promises ---------- */

  /** A chapter with a string number gets the sid "BOOK NUMBER", BOOK being the code of the last
      book before it ("" if none). */
  lemma ChapterGetsSid(json: J.Value, k: nat)
    requires json.Object? && HasContent(json) && k < |J.GetArray(json, "content")|
    requires ChapterNumber(J.GetArray(json, "content")[k]).Some?
    ensures var items := J.GetArray(json, "content");
      J.Get(J.GetArray(AddSid(json), "content")[k], "sid")
        == Some(J.String(BookBefore(items, k) + " " + ChapterNumber(items[k]).value))
  {
  }

  /** The `sid` of item `j` of top-level item `k`, if both exist. */
  function NestedSid(json: J.Value, k: nat, j: nat): Option<J.Value>
  {
    var items := J.GetArray(json, "content");
    if k < |items| && j < |J.GetArray(items[k], "content")| then
      J.Get(J.GetArray(items[k], "content")[j], "sid")
    else None
  }

  /** A verse directly inside a para gets the sid "BOOK CHAPTER:NUMBER" from the last book and the
      last chapter before the para ("" for each that is missing). */
  lemma VerseGetsSid(json: J.Value, k: nat, j: nat)
    requires json.Object? && HasContent(json) && k < |J.GetArray(json, "content")|
    requires var para := J.GetArray(json, "content")[k];
      J.Kind(para) == Some("para") && HasContent(para) && j < |J.GetArray(para, "content")|
    requires var verse := J.GetArray(J.GetArray(json, "content")[k], "content")[j];
      J.Kind(verse) == Some("verse") && J.GetStr(verse, "number").Some?
    ensures var items := J.GetArray(json, "content");
      var verse := J.GetArray(items[k], "content")[j];
      NestedSid(AddSid(json), k, j)
        == Some(J.String(BookBefore(items, k) + " " + ChapterBefore(items, k) + ":"
                         + J.GetStr(verse, "number").value))
  {
    var items := J.GetArray(json, "content");
    var book, chapter := BookBefore(items, k), ChapterBefore(items, k);
    var verses := J.GetArray(items[k], "content");
    AddSidItem(json, k);
    ParaItems(items[k], book, chapter);
    VerseSid(verses[j], book, chapter);
  }

  /** Item `k` of the new content is item `k` of the old one given its sids. */
  lemma AddSidItem(json: J.Value, k: nat)
    requires json.Object? && HasContent(json) && k < |J.GetArray(json, "content")|
    ensures var items := J.GetArray(json, "content");
      && k < |J.GetArray(AddSid(json), "content")|
      && J.GetArray(AddSid(json), "content")[k] == ItemWithSid(items[k], BookBefore(items, k), ChapterBefore(items, k))
  {
  }

  /** The content of a para given its sids is its old content, verse by verse given theirs. */
  lemma ParaItems(para: J.Value, book: string, chapter: string)
    requires J.Kind(para) == Some("para") && HasContent(para)
    ensures J.GetArray(ItemWithSid(para, book, chapter), "content")
         == VersesWithSids(J.GetArray(para, "content"), book, chapter)
  {
  }

  /** Only sids are written: every top-level item either differs at most by its sid, or is a
      para whose keys other than `content` are kept and whose content items differ at most by
      their sids. Nothing below the direct items of a para changes. */
  lemma AddSidChangesOnlySids(json: J.Value, k: nat)
    requires json.Object? && HasContent(json) && k < |J.GetArray(json, "content")|
    ensures var a := J.GetArray(json, "content")[k];
      var b := J.GetArray(AddSid(json), "content")[k];
      || SidOnly(a, b)
      || (&& a.Object? && b.Object?
          && (forall key :: key != "content" ==> J.Get(b, key) == J.Get(a, key))
          && ItemsSidOnly(J.GetArray(a, "content"), J.GetArray(b, "content")))
  {
    var items := J.GetArray(json, "content");
    ItemChangesOnlySids(items[k], BookBefore(items, k), ChapterBefore(items, k));
  }

  /** A chapter whose number is not a string gets no sid and does not change the chapter used by
      later verses. */
  lemma ChapterWithoutStringNumber(json: J.Value, k: nat)
    requires json.Object? && HasContent(json) && k < |J.GetArray(json, "content")|
    requires var item := J.GetArray(json, "content")[k];
      J.Kind(item) == Some("chapter") && J.GetStr(item, "number").None?
    ensures J.GetArray(AddSid(json), "content")[k] == J.GetArray(json, "content")[k]
    ensures var items := J.GetArray(json, "content");
      ChapterBefore(items, k + 1) == ChapterBefore(items, k)
  {
  }

  /** A verse that is not a direct item of a para (inside a char, say) gets no sid: an item of a
      para that is not a verse is kept whole. */
  lemma NestedVersesKeepNoSid(json: J.Value, k: nat, j: nat)
    requires json.Object? && HasContent(json) && k < |J.GetArray(json, "content")|
    requires var para := J.GetArray(json, "content")[k];
      J.Kind(para) == Some("para") && HasContent(para) && j < |J.GetArray(para, "content")|
    requires J.Kind(J.GetArray(J.GetArray(json, "content")[k], "content")[j]) != Some("verse")
    ensures J.GetArray(J.GetArray(AddSid(json), "content")[k], "content")[j]
         == J.GetArray(J.GetArray(json, "content")[k], "content")[j]
  {
    var items := J.GetArray(json, "content");
    VerseSid(J.GetArray(items[k], "content")[j], BookBefore(items, k), ChapterBefore(items, k));
  }

  /** A verse before any chapter: with only a book before the para, the chapter part of the sid is
      empty, so book PSA and verse 1 give "PSA :1". */
  lemma VerseBeforeAnyChapter(json: J.Value, book: J.Value, para: J.Value, verse: J.Value)
    requires json.Object? && HasContent(json) && J.GetArray(json, "content") == [book, para]
    requires J.Kind(book) == Some("book") && J.GetStr(book, "code").Some?
    requires J.Kind(para) == Some("para") && HasContent(para) && J.GetArray(para, "content") == [verse]
    requires J.Kind(verse) == Some("verse") && J.GetStr(verse, "number").Some?
    ensures NestedSid(AddSid(json), 1, 0)
         == Some(J.String(J.GetStr(book, "code").value + " :" + J.GetStr(verse, "number").value))
  {
    BookOnlyBefore(J.GetArray(json, "content"));
    VerseGetsSid(json, 1, 0);
    EmptyChapterPart(J.GetStr(book, "code").value, J.GetStr(verse, "number").value);
  }

  /** After a single book, the book code is its code and the chapter number is still "". */
  lemma BookOnlyBefore(items: seq<J.Value>)
    requires |items| > 1 && J.Kind(items[0]) == Some("book") && J.GetStr(items[0], "code").Some?
    ensures BookBefore(items, 1) == J.GetStr(items[0], "code").value
    ensures ChapterBefore(items, 1) == ""
  {
  }

  lemma EmptyChapterPart(code: string, number: string)
    ensures code + " " + "" + ":" + number == code + " :" + number
  {
    assert code + " " + "" == code + " ";
    assert code + " " + ":" == code + " :" by {
      forall i | 0 <= i < |code + " :"| ensures (code + " " + ":")[i] == (code + " :")[i] {
        if i >= |code| { assert (code + " :")[i] == " :"[i - |code|]; }
      }
    }
  }

  /* ---------- the loop of add_sid_to_usj ---------- */

  /** The loop over a para's content: each verse with a string number gets its sid. */
  method SidVersesOn(items: seq<J.Value>, book: string, chapter: string) returns (r: seq<J.Value>)
    ensures r == VersesWithSids(items, book, chapter)
  {
    r := items;
    var j := 0;
    while j < |r|
      invariant 0 <= j <= |r| == |items|
      invariant forall t :: 0 <= t < j ==> r[t] == VerseWithSid(items[t], book, chapter)
      invariant forall t :: j <= t < |r| ==> r[t] == items[t]
    {
      var next := SidVerseOn(r[j], book, chapter);
      r := r[j := next];
      j := j + 1;
    }
  }

  /** One turn of the loop over a para's content. */
  method SidVerseOn(item: J.Value, book: string, chapter: string) returns (next: J.Value)
    ensures next == VerseWithSid(item, book, chapter)
  {
    next := item;
    if J.Kind(item) == Some("verse") {
      var number := J.GetStr(item, "number");
      if number.Some? {
        next := SetSid(item, book + " " + chapter + ":" + number.value);
      }
    }
  }

  /** One turn of the loop of `add_sid_to_usj`: the item with its sids, and the book code and
      chapter number it leaves for the items after it. */
  method SidItemOn(items: seq<J.Value>, k: nat, bookCode: string, chapterNumber: string)
    returns (next: J.Value, bookCode': string, chapterNumber': string)
    requires k < |items| && bookCode == BookBefore(items, k) && chapterNumber == ChapterBefore(items, k)
    ensures next == ItemWithSid(items[k], bookCode, chapterNumber)
    ensures bookCode' == BookBefore(items, k + 1) && chapterNumber' == ChapterBefore(items, k + 1)
  {
    var item := items[k];
    next, bookCode', chapterNumber' := item, bookCode, chapterNumber;
    if item.Object? {
      var kind := J.Kind(item);
      if kind == Some("book") {
        var code := J.GetStr(item, "code");
        if code.Some? {
          bookCode' := code.value;
        }
      } else if kind == Some("chapter") {
        var number := J.GetStr(item, "number");
        if number.Some? {
          chapterNumber' := number.value;
          next := SetSid(item, bookCode + " " + chapterNumber');
        }
      } else if kind == Some("para") && HasContent(item) {
        var verses := SidVersesOn(J.GetArray(item, "content"), bookCode, chapterNumber);
        next := WithContent(item, verses);
      }
    }
  }

  /** `add_sid_to_usj`: one pass over the root's content, remembering the latest book code and
      chapter number. */
  method AddSidToUsj(json: J.Value) returns (r: J.Value)
    ensures r == AddSid(json)
  {
    if !json.Object? || !HasContent(json) {
      return json;
    }
    var content := SidItemsOn(J.GetArray(json, "content"));
    r := WithContent(json, content);
  }

  /** The loop of `add_sid_to_usj` over the top-level items, threading the book code and the
      chapter number. */
  method SidItemsOn(items: seq<J.Value>) returns (content: seq<J.Value>)
    ensures content == ItemsWithSids(items)
  {
    content := [];
    var bookCode := "";
    var chapterNumber := "";
    ghost var target := ItemsWithSids(items);
    var k := 0;
    while k < |items|
      invariant 0 <= k <= |items| && content == target[..k]
      invariant bookCode == BookBefore(items, k) && chapterNumber == ChapterBefore(items, k)
    {
      var next;
      next, bookCode, chapterNumber := SidItemOn(items, k, bookCode, chapterNumber);
      PrefixGrows(target, k);
      content := content + [next];
      k := k + 1;
    }
    assert target[..k] == target;
  }

  /** The prefix of `s` one longer is the prefix followed by the next element. */
  lemma PrefixGrows<T>(s: seq<T>, k: nat)
    requires k < |s|
    ensures s[..k + 1] == s[..k] + [s[k]]
  {
  }

  /** `serialize_to_usj` once the text is parsed. */
  method SerializeParsed(json: J.Value) returns (r: J.Value)
    ensures r == SerializeToUsj(json)
  {
    var root := json;
    if root.Object? {
      root := J.Object(SM.Insert(root.members, "type", J.String("USJ")));
    }
    r := AddSidToUsj(root);
  }
}
