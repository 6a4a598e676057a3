/** The USJ reader of src/deserialize_usj.rs: the document's JSON tree is walked and the builder
    is driven to rebuild its USJ text. `ReadContent` states what `read_content` does to the
    builder for one value (recursively), `DeserializeUsj` what `deserialize_from_file_usj` does
    for the whole document; the methods `ReadContentOn` and `DeserializeFromUsj` are the
    walk itself on an `AosjStringModel`, proved to agree with them. */
module DeserializeUsj {
  import opened Wrappers
  import opened Strings
  import SM = SortedMap
  import J = Json
  import M = AosjModel
  import B = AosjString

  /* ---------- escaping of string leaves ---------- */

  predicate NeedsEscape(c: char)
  {
    c == '"' || c == '\\'
  }

  /** The replacement of every match of `(["\\])` by `\$1`: a backslash is inserted before each
      quote and each backslash; every other character is kept. */
  function Escape(s: string): (r: string)
    ensures |s| == 1 && NeedsEscape(s[0]) ==> r == ['\\', s[0]]
    ensures |s| == 1 && !NeedsEscape(s[0]) ==> r == s
    ensures |r| >= |s|
  {
    if |s| == 0 then ""
    else (if NeedsEscape(s[0]) then ['\\', s[0]] else [s[0]]) + Escape(s[1..])
  }

  /** Escaping works character by character, left to right. */
  lemma {:induction false} EscapeAppend(a: string, b: string)
    ensures Escape(a + b) == Escape(a) + Escape(b)
    decreases |a|
  {
    if |a| > 0 {
      var head := if NeedsEscape(a[0]) then ['\\', a[0]] else [a[0]];
      assert (a + b)[0] == a[0] && (a + b)[1..] == a[1..] + b;
      EscapeAppend(a[1..], b);
      calc {
        Escape(a + b);
        head + Escape(a[1..] + b);
        head + (Escape(a[1..]) + Escape(b));
        (head + Escape(a[1..])) + Escape(b);
      }
    } else {
      assert a + b == b;
    }
  }

  /** Reads an escaped text back: a backslash is dropped and the character after it kept. */
  function Unescape(s: string): string
    decreases |s|
  {
    if |s| == 0 then ""
    else if s[0] == '\\' && |s| > 1 then [s[1]] + Unescape(s[2..])
    else [s[0]] + Unescape(s[1..])
  }

  /** Escaping loses nothing: the escaped text reads back as the original. */
  lemma {:induction false} UnescapeEscape(s: string)
    ensures Unescape(Escape(s)) == s
    decreases |s|
  {
    if |s| > 0 {
      UnescapeEscape(s[1..]);
      var e := Escape(s);
      if NeedsEscape(s[0]) {
        assert e == ['\\', s[0]] + Escape(s[1..]);
        assert e[2..] == Escape(s[1..]);
      } else {
        assert e == [s[0]] + Escape(s[1..]);
        assert e[1..] == Escape(s[1..]);
      }
    }
  }

  /* ---------- attributes ---------- */

  predicate Structural(key: string)
  {
    key == "content" || key == "type"
  }

  /** Every attribute member (not "content", not "type") holds a string. */
  predicate AllStrings(members: seq<(string, J.Value)>)
  {
    forall i :: 0 <= i < |members| && !Structural(members[i].0) ==> members[i].1.String?
  }

  /** `a` holds exactly the attribute members, each with its string value. */
  predicate Copied(members: seq<(string, J.Value)>, a: SM.SortedMap<string>)
  {
    && SM.Keys(a) == SM.Keys(members) - {"content", "type"}
    && forall i :: 0 <= i < |members| && !Structural(members[i].0) && members[i].1.String? ==>
         SM.Get(a, members[i].0) == Some(members[i].1.s)
  }

  /** The attributes of an object: every member except "content" and "type", in key order, each
      of which must be a string (`as_str().unwrap()` panics otherwise). */
  function AttributesOf(members: seq<(string, J.Value)>): (r: Result<SM.SortedMap<string>, string>)
    requires SM.KeysIncreasing(members)
    ensures r.Failure? ==> r.error == Panic
    ensures r.Success? <==> AllStrings(members)
    ensures r.Success? ==> Copied(members, r.value)
    decreases |members|
  {
    if |members| == 0 then Success([])
    else
      var n := |members|;
      var prefix := members[..n - 1];
      assert forall i :: 0 <= i < n - 1 ==> members[i] == prefix[i];
      match AttributesOf(prefix)
      case Failure(e) => Failure(e)
      case Success(a) =>
        var (key, value) := members[n - 1];
        if Structural(key) || value.String? then
          var r := if Structural(key) then a else SM.Insert(a, key, value.s);
          AttributeStep(members, a);
          Success(r)
        else Failure(Panic)
  }

  /** One more member: the attributes of the prefix extend to those of the whole list. */
  lemma AttributeStep(members: seq<(string, J.Value)>, a: SM.SortedMap<string>)
    requires SM.KeysIncreasing(members) && |members| > 0
    requires Copied(members[..|members| - 1], a)
    requires var (key, value) := members[|members| - 1]; Structural(key) || value.String?
    ensures var (key, value) := members[|members| - 1];
      Copied(members, if Structural(key) then a else SM.Insert(a, key, value.s))
  {
    KeysOfPrefix(members);
    LastKeyIsNew(members);
    if Structural(members[|members| - 1].0) {
      CopiedSkip(members, a);
    } else {
      CopiedInsert(members, a);
    }
  }

  /** A last member "content" or "type" adds no attribute. */
  lemma CopiedSkip(members: seq<(string, J.Value)>, a: SM.SortedMap<string>)
    requires |members| > 0 && Structural(members[|members| - 1].0)
    requires Copied(members[..|members| - 1], a)
    requires SM.Keys(members) == SM.Keys(members[..|members| - 1]) + {members[|members| - 1].0}
    ensures Copied(members, a)
  {
    var prefix := members[..|members| - 1];
    assert forall i :: 0 <= i < |members| - 1 ==> members[i] == prefix[i];
  }

  /** A last string attribute is inserted under its new key. */
  lemma CopiedInsert(members: seq<(string, J.Value)>, a: SM.SortedMap<string>)
    requires |members| > 0
    requires var (key, value) := members[|members| - 1]; !Structural(key) && value.String?
    requires Copied(members[..|members| - 1], a)
    requires SM.Keys(members) == SM.Keys(members[..|members| - 1]) + {members[|members| - 1].0}
    requires forall i :: 0 <= i < |members| - 1 ==> members[i].0 != members[|members| - 1].0
    ensures Copied(members, SM.Insert(a, members[|members| - 1].0, members[|members| - 1].1.s))
  {
    var n := |members|;
    var prefix := members[..n - 1];
    var (key, value) := members[n - 1];
    var r := SM.Insert(a, key, value.s);
    forall i | 0 <= i < n && !Structural(members[i].0) && members[i].1.String?
      ensures SM.Get(r, members[i].0) == Some(members[i].1.s)
    {
      if i < n - 1 { assert prefix[i] == members[i]; }
    }
  }

  /** The keys of a list are those of all but its last member, and the last key. */
  lemma KeysOfPrefix(members: seq<(string, J.Value)>)
    requires |members| > 0
    ensures SM.Keys(members) == SM.Keys(members[..|members| - 1]) + {members[|members| - 1].0}
  {
    var n := |members|;
    var prefix := members[..n - 1];
    forall x | x in SM.Keys(members) ensures x in SM.Keys(prefix) + {members[n - 1].0} {
      var i :| 0 <= i < n && members[i].0 == x;
      if i < n - 1 { assert prefix[i].0 == x; }
    }
    forall x | x in SM.Keys(prefix) ensures x in SM.Keys(members) {
      var i :| 0 <= i < n - 1 && prefix[i].0 == x;
      assert members[i].0 == x;
    }
  }

  /** In increasing order, the last key differs from every earlier one. */
  lemma LastKeyIsNew(members: seq<(string, J.Value)>)
    requires SM.KeysIncreasing(members) && |members| > 0
    ensures forall i :: 0 <= i < |members| - 1 ==> members[i].0 != members[|members| - 1].0
  {
    var n := |members|;
    forall i | 0 <= i < n - 1 ensures members[i].0 != members[n - 1].0 {
      assert Less(members[i].0, members[n - 1].0);
      if members[i].0 == members[n - 1].0 { LessIrreflexive(members[i].0); }
    }
  }

  /** The attribute loop of `read_content` and of the top-level walk. */
  method CollectAttributes(members: SM.SortedMap<J.Value>) returns (r: Result<SM.SortedMap<string>, string>)
    ensures r == AttributesOf(members)
  {
    var attributes: SM.SortedMap<string> := [];
    var i := 0;
    while i < |members|
      invariant 0 <= i <= |members|
      invariant AttributesOf(members[..i]) == Success(attributes)
    {
      var (key, value) := members[i];
      assert members[..i + 1][..i] == members[..i];
      assert members[..i + 1][i] == members[i];
      if key != "content" && key != "type" {
        if !value.String? {
          return Failure(Panic);
        }
        attributes := SM.Insert(attributes, key, value.s);
      }
      i := i + 1;
    }
    assert members[..i] == members;
    return Success(attributes);
  }

  /* ---------- children ---------- */

  /** The values `read_content` reads without a panic inside an open frame: objects whose
      attribute values are strings and that have a type, with readable children when they are a
      char or a note (the children of other objects are not visited). */
  predicate Readable(v: J.Value)
    decreases v, 1
  {
    v.Object? ==>
      && AttributesOf(v.members).Success?
      && J.Get(v, "type").Some?
      && (J.Kind(v) == Some("char") || J.Kind(v) == Some("note") ==> ReadableFrom(v, 0))
  }

  predicate ReadableFrom(v: J.Value, i: nat)
    requires v.Object?
    decreases v, 0, |J.Children(v)| - i
  {
    i < |J.Children(v)| ==>
      Readable(v.members[J.ContentIndex(v)].1.items[i]) && ReadableFrom(v, i + 1)
  }

  /** Values whose every visited object is a verse, ms, char or note: those pop every element
      they push. */
  predicate Known(v: J.Value)
    decreases v, 1
  {
    v.Object? ==>
      && (J.Kind(v) == Some("verse") || J.Kind(v) == Some("ms") || J.Kind(v) == Some("char") || J.Kind(v) == Some("note"))
      && (J.Kind(v) == Some("char") || J.Kind(v) == Some("note") ==> KnownFrom(v, 0))
  }

  predicate KnownFrom(v: J.Value, i: nat)
    requires v.Object?
    decreases v, 0, |J.Children(v)| - i
  {
    i < |J.Children(v)| ==>
      Known(v.members[J.ContentIndex(v)].1.items[i]) && KnownFrom(v, i + 1)
  }

  /* ---------- read_content ---------- */

  /** How the walk may change the builder: the frames keep their number, those below the top are
      untouched and the top one only grows; the finished items and the root attributes stay; the
      first `n` entered elements stay; well-formed frames stay well formed. */
  predicate Evolves(m: M.State, r: M.State, n: nat)
  {
    && |r.stackInParas| == |m.stackInParas|
    && (|m.stackInParas| > 0 ==>
          r.stackInParas[..|m.stackInParas| - 1] == m.stackInParas[..|m.stackInParas| - 1] &&
          M.Top(m) <= M.Top(r))
    && r.paras == m.paras && r.rootAttributes == m.rootAttributes
    && n <= |m.parentEls| && n <= |r.parentEls| && r.parentEls[..n] == m.parentEls[..n]
    && (M.FramesOk(m) ==> M.FramesOk(r))
  }

  lemma EvolvesTrans(m: M.State, m1: M.State, m2: M.State, n: nat, k: nat)
    requires Evolves(m, m1, n) && Evolves(m1, m2, k) && n <= k
    ensures Evolves(m, m2, n)
  {
    assert m2.parentEls[..n] == m2.parentEls[..k][..n];
    assert m1.parentEls[..n] == m1.parentEls[..k][..n];
  }

  /** `read_content` on one value: a string leaf becomes one escaped text item of the open
      frame (a panic when no frame is open); an object pushes its element and is then dispatched
      on its type; anything else changes nothing. */
  function ReadContent(m: M.State, v: J.Value): (r: Result<M.State, string>)
    ensures r.Failure? ==> r.error == Panic
    ensures r.Success? ==> Evolves(m, r.value, |m.parentEls|)
    ensures v.String? ==>
      (r.Success? <==> |m.stackInParas| > 0) &&
      (r.Success? ==> M.Top(r.value) == M.Top(m) + [M.TextItem([Escape(v.s)])])
    ensures !v.String? && !v.Object? ==> r == Success(m)
    decreases v, 2
  {
    if v.String? then
      var txt := [Escape(v.s)];
      if !M.CanAddString(m, txt) then Failure(Panic)
      else AddStringEvolves(m, txt); Success(M.AddStringToInPara(m, txt))
    else if v.Object? then
      (match AttributesOf(v.members)
       case Failure(e) => Failure(e)
       case Success(attributes) =>
         (match J.Get(v, "type")
          case None => Failure(Panic)
          case Some(t) =>
            var m1 := M.PushElement(m, attributes, J.Render(t));
            var r := ReadElement(m1, v);
            if r.Success? then EvolvesTrans(m, m1, r.value, |m.parentEls|, |m.parentEls|); r else r))
    else
      EvolvesRefl(m); Success(m)
  }

  lemma EvolvesRefl(m: M.State)
    ensures Evolves(m, m, |m.parentEls|)
  {
  }

  lemma AddStringEvolves(m: M.State, txt: seq<string>)
    requires M.CanAddString(m, txt)
    ensures Evolves(m, M.AddStringToInPara(m, txt), |m.parentEls|)
  {
  }

  /** The dispatch on the type once the element is pushed. A verse or ms adds one item to the
      open frame (a panic when none is open) and pops the element again; a char or note opens its
      span, reads the children in order, pops, and closes the span into exactly one new item of
      the enclosing frame; any other type does nothing more and leaves its element pushed. */
  function ReadElement(m: M.State, v: J.Value): (r: Result<M.State, string>)
    requires v.Object? && |m.parentEls| > 0
    ensures r.Failure? ==> r.error == Panic
    ensures r.Success? ==> Evolves(m, r.value, |m.parentEls| - 1)
    ensures J.Kind(v) == Some("verse") ==>
      (r.Success? <==> |m.stackInParas| > 0) &&
      (r.Success? ==> M.Top(r.value) == M.Top(m) + [M.VerseItem(M.GetAttributes(m))] &&
                      r.value.parentEls == m.parentEls[..|m.parentEls| - 1])
    ensures J.Kind(v) == Some("ms") ==>
      (r.Success? <==> |m.stackInParas| > 0) &&
      (r.Success? ==> M.Top(r.value) == M.Top(m) + [M.MilestoneItem(M.GetAttributes(m))] &&
                      r.value.parentEls == m.parentEls[..|m.parentEls| - 1])
    ensures (J.Kind(v) == Some("char") || J.Kind(v) == Some("note")) && r.Success? ==>
      |m.stackInParas| > 0 && |M.Top(r.value)| == |M.Top(m)| + 1
    ensures !IsKnownKind(J.Kind(v)) ==> r == Success(m)
    decreases v, 1
  {
    var kind := J.Kind(v);
    if kind == Some("verse") then
      if |m.stackInParas| == 0 then Failure(Panic)
      else Success(M.PopParentEl(M.AddVerseToInPara(m, M.GetAttributes(m))))
    else if kind == Some("ms") then
      if |m.stackInParas| == 0 then Failure(Panic)
      else Success(M.PopParentEl(M.AddMilestone(m, M.GetAttributes(m))))
    else if kind == Some("char") || kind == Some("note") then
      ReadSpan(m, v, kind == Some("char"))
    else Success(m)
  }

  predicate IsKnownKind(kind: Option<string>)
  {
    kind == Some("verse") || kind == Some("ms") || kind == Some("char") || kind == Some("note")
  }

  /** The char (`isChar`) or note branch of `read_content`. */
  function ReadSpan(m: M.State, v: J.Value, isChar: bool): (r: Result<M.State, string>)
    requires v.Object? && |m.parentEls| > 0
    ensures r.Failure? ==> r.error == Panic
    ensures r.Success? ==> Evolves(m, r.value, |m.parentEls| - 1)
    ensures r.Success? ==> |m.stackInParas| > 0 && |M.Top(r.value)| == |M.Top(m)| + 1
    decreases v, 0, |J.Children(v)| + 1
  {
    var m1 := if isChar then M.StartAddCharMarker(m, M.GetAttributes(m))
              else M.StartAddNote(m, M.GetAttributes(m));
    match ReadChildren(m1, v, 0)
    case Failure(e) => Failure(e)
    case Success(m2) =>
      var m3 := M.PopParentEl(m2);
      if !M.CanEndSpan(m3, []) then Failure(Panic)
      else
        var r := if isChar then M.EndAddCharMarker(m3, []) else M.EndAddNote(m3, []);
        SpanClosed(m, m1, m2, m3, r);
        Success(r)
  }

  lemma SpanClosed(m: M.State, m1: M.State, m2: M.State, m3: M.State, r: M.State)
    requires |m.parentEls| > 0
    requires |m1.stackInParas| == |m.stackInParas| + 1
    requires m1.stackInParas[..|m.stackInParas|] == m.stackInParas
    requires M.FramesOk(m) ==> M.FramesOk(m1)
    requires m1.(stackInParas := m.stackInParas) == m
    requires Evolves(m1, m2, |m1.parentEls|)
    requires |m2.parentEls| > 0 ==> |m3.parentEls| == |m2.parentEls| - 1
    requires m3.parentEls <= m2.parentEls
    requires m3.(parentEls := m2.parentEls) == m2
    requires M.CanEndSpan(m3, [])
    requires |r.stackInParas| == |m3.stackInParas| - 1
    requires r.stackInParas[..|r.stackInParas| - 1] == m3.stackInParas[..|m3.stackInParas| - 2]
    requires M.Top(r) == m3.stackInParas[|m3.stackInParas| - 2] + [M.ClosedSpan(m3, [])]
    requires r.(stackInParas := m3.stackInParas) == m3
    requires M.FramesOk(m3) ==> M.FramesOk(r)
    ensures Evolves(m, r, |m.parentEls| - 1)
    ensures |m.stackInParas| > 0 && |M.Top(r)| == |M.Top(m)| + 1
  {
    var d := |m.stackInParas|;
    assert m3.stackInParas[..d] == m.stackInParas by {
      assert m2.stackInParas[..d] == m1.stackInParas[..d];
    }
    assert m3.stackInParas[d - 1] == M.Top(m);
    assert r.stackInParas[..d - 1] == m.stackInParas[..d - 1];
    var n := |m.parentEls|;
    assert r.parentEls[..n - 1] == m.parentEls[..n - 1] by {
      assert m2.parentEls[..n] == m.parentEls;
      assert r.parentEls == m3.parentEls;
      assert m3.parentEls[..n - 1] == m2.parentEls[..n - 1];
    }
  }

  /** The children from position `i` on, in order. */
  function ReadChildren(m: M.State, v: J.Value, i: nat): (r: Result<M.State, string>)
    requires v.Object?
    ensures r.Failure? ==> r.error == Panic
    ensures r.Success? ==> Evolves(m, r.value, |m.parentEls|)
    decreases v, 0, |J.Children(v)| - i
  {
    if i >= |J.Children(v)| then Success(m)
    else
      match ReadContent(m, v.members[J.ContentIndex(v)].1.items[i])
      case Failure(e) => Failure(e)
      case Success(m1) =>
        var r := ReadChildren(m1, v, i + 1);
        if r.Success? then EvolvesTrans(m, m1, r.value, |m.parentEls|, |m1.parentEls|); r else r
  }

  lemma TopClosable(m: M.State)
    ensures M.FramesOk(m) ==> (M.CanCloseTop(m) <==> |m.stackInParas| > 0)
  {
    if M.FramesOk(m) {
      M.ClosingNeedsOnlyDepth(m, []);
    }
  }

  lemma SpanClosable(m: M.State)
    ensures M.FramesOk(m) ==> (M.CanEndSpan(m, []) <==> |m.stackInParas| >= 2)
  {
    if M.FramesOk(m) {
      M.ClosingNeedsOnlyDepth(m, []);
    }
  }

  /* ---------- when the walk panics ---------- */

  /** Inside an open, well-formed frame `read_content` panics exactly when the value is not
      readable: a non-string attribute, a missing type, or such a value among the children of a
      char or note. */
  lemma {:induction false} ReadContentPanicsIff(m: M.State, v: J.Value)
    requires M.FramesOk(m) && |m.stackInParas| > 0
    ensures ReadContent(m, v).Success? <==> Readable(v)
    decreases v, 2
  {
    if v.Object? && AttributesOf(v.members).Success? && J.Get(v, "type").Some? {
      var m1 := M.PushElement(m, AttributesOf(v.members).value, J.Render(J.Get(v, "type").value));
      ReadElementPanicsIff(m1, v);
    }
  }

  lemma {:induction false} ReadElementPanicsIff(m: M.State, v: J.Value)
    requires v.Object? && |m.parentEls| > 0
    requires M.FramesOk(m) && |m.stackInParas| > 0
    ensures ReadElement(m, v).Success? <==>
      (J.Kind(v) == Some("char") || J.Kind(v) == Some("note") ==> ReadableFrom(v, 0))
    decreases v, 1
  {
    if J.Kind(v) == Some("char") || J.Kind(v) == Some("note") {
      ReadSpanPanicsIff(m, v, J.Kind(v) == Some("char"));
    }
  }

  lemma {:induction false} ReadSpanPanicsIff(m: M.State, v: J.Value, isChar: bool)
    requires v.Object? && |m.parentEls| > 0
    requires M.FramesOk(m) && |m.stackInParas| > 0
    ensures ReadSpan(m, v, isChar).Success? <==> ReadableFrom(v, 0)
    decreases v, 0, |J.Children(v)| + 1
  {
    var m1 := if isChar then M.StartAddCharMarker(m, M.GetAttributes(m))
              else M.StartAddNote(m, M.GetAttributes(m));
    ReadChildrenPanicsIff(m1, v, 0);
    var r := ReadChildren(m1, v, 0);
    if r.Success? {
      SpanClosable(M.PopParentEl(r.value));
    }
  }

  lemma {:induction false} ReadChildrenPanicsIff(m: M.State, v: J.Value, i: nat)
    requires v.Object?
    requires M.FramesOk(m) && |m.stackInParas| > 0
    ensures ReadChildren(m, v, i).Success? <==> ReadableFrom(v, i)
    decreases v, 0, |J.Children(v)| - i
  {
    if i < |J.Children(v)| {
      var child := v.members[J.ContentIndex(v)].1.items[i];
      ReadContentPanicsIff(m, child);
      var r := ReadContent(m, child);
      if r.Success? {
        ReadChildrenPanicsIff(r.value, v, i + 1);
      }
    }
  }

  /* ---------- the elements entered ---------- */

  /** A value whose objects are all verses, milestones, chars and notes leaves the stack of
      entered elements as it found it: each of those pops the element it pushed. */
  lemma {:induction false} KnownContentKeepsParents(m: M.State, v: J.Value)
    requires Known(v) && ReadContent(m, v).Success?
    ensures ReadContent(m, v).value.parentEls == m.parentEls
    decreases v, 2
  {
    if v.Object? {
      var m1 := M.PushElement(m, AttributesOf(v.members).value, J.Render(J.Get(v, "type").value));
      KnownElementPops(m1, v);
      assert m1.parentEls[..|m1.parentEls| - 1] == m.parentEls;
    }
  }

  lemma {:induction false} KnownElementPops(m: M.State, v: J.Value)
    requires v.Object? && |m.parentEls| > 0
    requires Known(v) && ReadElement(m, v).Success?
    ensures ReadElement(m, v).value.parentEls == m.parentEls[..|m.parentEls| - 1]
    decreases v, 1
  {
    if J.Kind(v) == Some("char") || J.Kind(v) == Some("note") {
      KnownSpanPops(m, v, J.Kind(v) == Some("char"));
    }
  }

  lemma {:induction false} KnownSpanPops(m: M.State, v: J.Value, isChar: bool)
    requires v.Object? && |m.parentEls| > 0
    requires KnownFrom(v, 0) && ReadSpan(m, v, isChar).Success?
    ensures ReadSpan(m, v, isChar).value.parentEls == m.parentEls[..|m.parentEls| - 1]
    decreases v, 0, |J.Children(v)| + 1
  {
    var m1 := if isChar then M.StartAddCharMarker(m, M.GetAttributes(m))
              else M.StartAddNote(m, M.GetAttributes(m));
    KnownChildrenKeepParents(m1, v, 0);
  }

  lemma {:induction false} KnownChildrenKeepParents(m: M.State, v: J.Value, i: nat)
    requires v.Object?
    requires KnownFrom(v, i) && ReadChildren(m, v, i).Success?
    ensures ReadChildren(m, v, i).value.parentEls == m.parentEls
    decreases v, 0, |J.Children(v)| - i
  {
    if i < |J.Children(v)| {
      var child := v.members[J.ContentIndex(v)].1.items[i];
      assert Known(child) && KnownFrom(v, i + 1);
      var r1 := ReadContent(m, child);
      assert r1.Success? && ReadChildren(m, v, i) == ReadChildren(r1.value, v, i + 1);
      assert r1.value.parentEls == m.parentEls by {
        KnownContentKeepsParents(m, child);
      }
      assert ReadChildren(r1.value, v, i + 1).value.parentEls == r1.value.parentEls by {
        KnownChildrenKeepParents(r1.value, v, i + 1);
      }
    }
  }

  /* ---------- the top-level walk of deserialize_from_file_usj ---------- */

  predicate IsTopKind(kind: Option<string>)
  {
    kind == Some("book") || kind == Some("chapter") || kind == Some("para")
  }

  /** The top-level items the walk handles without a panic: anything but an object, or an object
      with string attributes and a type, whose children are readable when it is a book or a
      para. */
  predicate TopReadable(el: J.Value)
  {
    el.Object? ==>
      && AttributesOf(el.members).Success?
      && J.Get(el, "type").Some?
      && (J.Kind(el) == Some("book") || J.Kind(el) == Some("para") ==> ReadableFrom(el, 0))
  }

  /** The book's children from position `i` on: each is read, and then one entered element is
      popped, whatever the child was. */
  function ReadBookChildren(m: M.State, el: J.Value, i: nat): (r: Result<M.State, string>)
    requires el.Object?
    ensures r.Failure? ==> r.error == Panic
    ensures r.Success? ==> Evolves(m, r.value, 0)
    ensures M.FramesOk(m) && |m.stackInParas| > 0 ==> (r.Success? <==> ReadableFrom(el, i))
    decreases |J.Children(el)| - i
  {
    if i >= |J.Children(el)| then Success(m)
    else
      var child := el.members[J.ContentIndex(el)].1.items[i];
      assert M.FramesOk(m) && |m.stackInParas| > 0 ==> (ReadContent(m, child).Success? <==> Readable(child)) by {
        if M.FramesOk(m) && |m.stackInParas| > 0 { ReadContentPanicsIff(m, child); }
      }
      match ReadContent(m, child)
      case Failure(e) => Failure(e)
      case Success(m1) =>
        var m2 := M.PopParentEl(m1);
        var r := ReadBookChildren(m2, el, i + 1);
        if r.Success? then
          PopThenEvolves(m, m1, r.value);
          r
        else r
  }

  /** A child read, one element popped, then the rest read: the state evolves as each step
      lets it. */
  lemma PopThenEvolves(m: M.State, m1: M.State, r: M.State)
    requires Evolves(m, m1, |m.parentEls|) && Evolves(M.PopParentEl(m1), r, 0)
    ensures Evolves(m, r, 0)
  {
    var m2 := M.PopParentEl(m1);
    assert Evolves(m1, m2, 0);
    EvolvesTrans(m, m1, m2, 0, 0);
    EvolvesTrans(m, m2, r, 0, 0);
  }


  /** The `book` branch: the book's frame is opened, its children are read (one pop after each)
      and the frame is closed into one new finished item, which opens with the book's opening
      fragment. */
  function ReadBook(m: M.State, el: J.Value): (r: Result<M.State, string>)
    requires el.Object?
    ensures r.Failure? ==> r.error == Panic
    ensures r.Success? ==>
      && |r.value.paras| == |m.paras| + 1 && r.value.paras[..|m.paras|] == m.paras
      && M.BookOpening(M.GetAttributes(m)) <= r.value.paras[|m.paras|]
      && r.value.stackInParas == [] && r.value.rootAttributes == m.rootAttributes
    ensures M.FramesOk(m) ==> (r.Success? <==> ReadableFrom(el, 0))
  {
    var m1 := M.StartBook(m, M.GetAttributes(m));
    match ReadBookChildren(m1, el, 0)
    case Failure(e) => Failure(e)
    case Success(m2) =>
      BookCloses(m, m2);
      if !M.CanCloseTop(m2) then Failure(Panic)
      else Success(M.EndBook(m2))
  }

  /** After the children of a book: the frame opened for the book can be closed when the frames
      were well-formed, and closing it adds one finished item that opens with the book's opening
      fragment. */
  lemma BookCloses(m: M.State, m2: M.State)
    requires Evolves(M.StartBook(m, M.GetAttributes(m)), m2, 0)
    ensures M.FramesOk(m) ==> M.CanCloseTop(m2)
    ensures M.CanCloseTop(m2) ==>
      var r := M.EndBook(m2);
      && |r.paras| == |m.paras| + 1 && r.paras[..|m.paras|] == m.paras
      && M.BookOpening(M.GetAttributes(m)) <= r.paras[|m.paras|]
      && r.stackInParas == [] && r.rootAttributes == m.rootAttributes
  {
    TopClosable(m2);
    if M.CanCloseTop(m2) {
      OpeningsEnd(M.GetAttributes(m));
      EntryOpensWith(M.Top(m2), M.BookOpening(M.GetAttributes(m)));
    }
  }

  /** The `para` branch: the paragraph's frame is opened, its children are read, the para element
      is popped and the frame is closed into one new finished item, which opens with the
      paragraph's opening fragment. */
  function ReadPara(m: M.State, el: J.Value): (r: Result<M.State, string>)
    requires el.Object?
    ensures r.Failure? ==> r.error == Panic
    ensures r.Success? ==>
      && |r.value.paras| == |m.paras| + 1 && r.value.paras[..|m.paras|] == m.paras
      && M.ParaOpening(M.GetAttributes(m)) <= r.value.paras[|m.paras|]
      && r.value.stackInParas == [] && r.value.rootAttributes == m.rootAttributes
    ensures M.FramesOk(m) ==> (r.Success? <==> ReadableFrom(el, 0))
  {
    var m1 := M.StartNewPara(m, M.GetAttributes(m));
    assert M.FramesOk(m) ==> (ReadChildren(m1, el, 0).Success? <==> ReadableFrom(el, 0)) by {
      if M.FramesOk(m) { ReadChildrenPanicsIff(m1, el, 0); }
    }
    match ReadChildren(m1, el, 0)
    case Failure(e) => Failure(e)
    case Success(m2) =>
      var m3 := M.PopParentEl(m2);
      ParaCloses(m, m2);
      if !M.CanCloseTop(m3) then Failure(Panic)
      else Success(M.EndNewPara(m3))
  }

  /** After the children of a para, the pop and the close: the frame opened for the para can be
      closed when the frames were well-formed, and closing it adds one finished item that opens
      with the para's opening fragment. */
  lemma ParaCloses(m: M.State, m2: M.State)
    requires Evolves(M.StartNewPara(m, M.GetAttributes(m)), m2, |m.parentEls|)
    ensures var m3 := M.PopParentEl(m2);
      && (M.FramesOk(m) ==> M.CanCloseTop(m3))
      && (M.CanCloseTop(m3) ==>
            var r := M.EndNewPara(m3);
            && |r.paras| == |m.paras| + 1 && r.paras[..|m.paras|] == m.paras
            && M.ParaOpening(M.GetAttributes(m)) <= r.paras[|m.paras|]
            && r.stackInParas == [] && r.rootAttributes == m.rootAttributes)
  {
    var m1 := M.StartNewPara(m, M.GetAttributes(m));
    var m3 := M.PopParentEl(m2);
    assert m3.stackInParas == m2.stackInParas;
    TopClosable(m3);
    if M.CanCloseTop(m3) {
      OpeningsEnd(M.GetAttributes(m));
      EntryOpensWith(M.Top(m3), M.ParaOpening(M.GetAttributes(m)));
    }
  }

  /** The book and para openings end with the open bracket and a blank, never with a comma. */
  lemma OpeningsEnd(attributes: string)
    ensures var b := M.BookOpening(attributes); |b| > 0 && b[|b| - 1] != ','
    ensures var p := M.ParaOpening(attributes); |p| > 0 && p[|p| - 1] != ','
  {
    var b, p := M.BookOpening(attributes), M.ParaOpening(attributes);
    assert b == ("{ \"type\": \"book\", " + attributes) + ", \"content\": [";
    assert b[|b| - 1] == '[';
    assert p == ("{ \"type\": \"para\"," + attributes) + ", \"content\": [ ";
    assert p[|p| - 1] == ' ';
  }

  /** A closed frame, joined, starts with the frame's first fragment when that one does not end
      with a comma. */
  lemma EntryOpensWith(frame: seq<string>, opening: string)
    requires |frame| > 0 && |frame[|frame| - 1]| > 0 && opening <= frame[0]
    requires |opening| == |frame[0]| ==> |opening| > 0 && opening[|opening| - 1] != ','
    ensures opening <= Join(M.CloseFrame(frame, M.TopClose), " ")
  {
    var closed := M.CloseFrame(frame, M.TopClose);
    if |frame| > 1 {
      assert closed[0] == frame[0] by { assert closed[..|frame| - 1][0] == frame[..|frame| - 1][0]; }
    } else {
      if |opening| == |frame[0]| {
        assert opening == frame[0];
      } else {
        assert M.DropTrailingComma(frame[0]) == frame[0][..|frame[0]| - 1] || M.DropTrailingComma(frame[0]) == frame[0];
      }
    }
    assert opening <= closed[0];
    assert Join(closed, " ") == closed[0] + " " + Join(closed[1..], " ");
  }


  /** The number of top-level items that add a finished item: objects of type book, chapter or
      para. */
  function TopCount(items: seq<J.Value>): (n: nat)
    ensures n <= |items|
  {
    if |items| == 0 then 0
    else (if IsTopKind(J.Kind(items[0])) then 1 else 0) + TopCount(items[1..])
  }

  /** One top-level item: a non-object is skipped; an object pushes its element and is then
      dispatched: a book or para adds the item its frame closes into, a chapter adds its chapter
      entry (and stays pushed), any other type adds nothing. */
  function TopElement(m: M.State, el: J.Value): (r: Result<M.State, string>)
    ensures r.Failure? ==> r.error == Panic
    ensures r.Success? ==>
      && |r.value.paras| == |m.paras| + (if IsTopKind(J.Kind(el)) then 1 else 0)
      && r.value.paras[..|m.paras|] == m.paras
      && r.value.rootAttributes == m.rootAttributes
      && (m.stackInParas == [] ==> r.value.stackInParas == [])
    ensures J.Kind(el) == Some("chapter") && r.Success? ==>
      el.Object? && AttributesOf(el.members).Success? &&
      r.value.paras[|m.paras|] == M.ChapterEntry(Join(M.AttributeEntries(AttributesOf(el.members).value), ", "))
    ensures IsTopKind(J.Kind(el)) && r.Success? ==> EntryFor(el, r.value.paras[|m.paras|])
    ensures el.Object? && !IsTopKind(J.Kind(el)) && r.Success? ==>
      AttributesOf(el.members).Success? && J.Get(el, "type").Some? &&
      r.value == M.PushElement(m, AttributesOf(el.members).value, J.Render(J.Get(el, "type").value))
    ensures m.stackInParas == [] ==> (r.Success? <==> TopReadable(el))
  {
    if !el.Object? then Success(m)
    else
      match AttributesOf(el.members)
      case Failure(e) => Failure(e)
      case Success(attributes) =>
        (match J.Get(el, "type")
         case None => Failure(Panic)
         case Some(t) =>
           var m1 := M.PushElement(m, attributes, J.Render(t));
           var kind := J.Kind(el);
           if kind == Some("book") then ReadBook(m1, el)
           else if kind == Some("chapter") then Success(M.AddChapter(m1, M.GetAttributes(m1)))
           else if kind == Some("para") then ReadPara(m1, el)
           else Success(m1))
  }


  /** The top-level items in order. */
  function RunTop(m: M.State, items: seq<J.Value>): (r: Result<M.State, string>)
    requires m.stackInParas == []
    ensures r.Failure? ==> r.error == Panic
    ensures r.Success? ==>
      && |r.value.paras| == |m.paras| + TopCount(items)
      && r.value.paras[..|m.paras|] == m.paras
      && r.value.rootAttributes == m.rootAttributes
      && r.value.stackInParas == []
    ensures r.Success? <==> forall i :: 0 <= i < |items| ==> TopReadable(items[i])
    decreases |items|
  {
    if |items| == 0 then Success(m)
    else
      match TopElement(m, items[0])
      case Failure(e) => assert !TopReadable(items[0]); Failure(e)
      case Success(m1) =>
        assert TopReadable(items[0]);
        var r := RunTop(m1, items[1..]);
        assert forall i :: 1 <= i < |items| ==> items[i] == items[1..][i - 1];
        if r.Success? then
          PrefixOfPrefix(r.value.paras, m1.paras, m.paras);
          r
        else r
  }

  /** A prefix of a prefix of `s` is a prefix of `s`. */
  lemma PrefixOfPrefix<T>(s: seq<T>, a: seq<T>, b: seq<T>)
    requires |b| <= |a| <= |s| && s[..|a|] == a && a[..|b|] == b
    ensures s[..|b|] == b
  {
    assert s[..|b|] == s[..|a|][..|b|];
  }

  /** The finished item a top-level element of type book, chapter or para closes into: a
      chapter's entry holds its attributes; a book's or a para's item opens with its opening
      fragment carrying its attributes. */
  predicate EntryFor(el: J.Value, entry: string)
  {
    AttributesText(el).Some? && EntryShape(J.Kind(el), AttributesText(el).value, entry)
  }

  /** The attributes of an element as the builder writes them; `None` when they cannot be
      read. */
  function AttributesText(el: J.Value): (r: Option<string>)
    ensures r.Some? <==> el.Object? && AttributesOf(el.members).Success?
  {
    if el.Object? && AttributesOf(el.members).Success? then
      Some(Join(M.AttributeEntries(AttributesOf(el.members).value), ", "))
    else None
  }

  /** The entry of a chapter is its `ChapterEntry`; that of a book or a para starts with its
      opening fragment. */
  predicate EntryShape(kind: Option<string>, attributes: string, entry: string)
  {
    && (kind == Some("chapter") ==> entry == M.ChapterEntry(attributes))
    && (kind == Some("book") ==> M.BookOpening(attributes) <= entry)
    && (kind == Some("para") ==> M.ParaOpening(attributes) <= entry)
  }

  /** The number of books, chapters and paras among the first `i` top-level items. */
  function TopBefore(items: seq<J.Value>, i: nat): (n: nat)
    requires i <= |items|
    ensures n <= i
  {
    if i == 0 then 0
    else (if IsTopKind(J.Kind(items[0])) then 1 else 0) + TopBefore(items[1..], i - 1)
  }

  /** The entries from position `base` on are those of the top-level items, in order: the
      book, chapter or para `i` has its entry after those of the top-kind items before it. */
  predicate EntriesFrom(items: seq<J.Value>, paras: seq<string>, base: nat, ok: (J.Value, string) -> bool)
  {
    forall i :: 0 <= i < |items| && IsTopKind(J.Kind(items[i])) ==>
      base + TopBefore(items, i) < |paras| && ok(items[i], paras[base + TopBefore(items, i)])
  }

  /** The finished items of the walk, in order. */
  lemma {:induction false} RunTopEntries(m: M.State, items: seq<J.Value>)
    requires m.stackInParas == [] && RunTop(m, items).Success?
    ensures EntriesFrom(items, RunTop(m, items).value.paras, |m.paras|, EntryFor)
    decreases |items|
  {
    if |items| > 0 {
      var r := RunTop(m, items).value;
      var m1 := TopElement(m, items[0]).value;
      assert RunTop(m1, items[1..]) == Success(r);
      RunTopEntries(m1, items[1..]);
      if IsTopKind(J.Kind(items[0])) {
        FirstEntry(m, items, items[0], r.paras, |m.paras|);
      }
      EntriesStep(items, r.paras, |m.paras|, |m1.paras|, EntryFor);
    }
  }

  /** The entries of the items after the first, shifted past the first item's own entry, are
      those of all the items. */
  lemma EntriesStep(items: seq<J.Value>, paras: seq<string>, base: nat, base1: nat,
                    ok: (J.Value, string) -> bool)
    requires |items| > 0 && base1 == base + (if IsTopKind(J.Kind(items[0])) then 1 else 0)
    requires IsTopKind(J.Kind(items[0])) ==> base < |paras| && ok(items[0], paras[base])
    requires EntriesFrom(items[1..], paras, base1, ok)
    ensures EntriesFrom(items, paras, base, ok)
  {
    forall i | 0 <= i < |items| && IsTopKind(J.Kind(items[i]))
      ensures base + TopBefore(items, i) < |paras| && ok(items[i], paras[base + TopBefore(items, i)])
    {
      if i > 0 {
        assert items[1..][i - 1] == items[i];
      }
    }
  }

  /** A first item of a top kind has its entry right after the builder's earlier ones. */
  lemma FirstEntry(m: M.State, items: seq<J.Value>, el: J.Value, paras: seq<string>, k: nat)
    requires m.stackInParas == [] && RunTop(m, items).Success?
    requires |items| > 0 && IsTopKind(J.Kind(items[0]))
    requires el == items[0] && paras == RunTop(m, items).value.paras && k == |m.paras|
    ensures k < |paras| && EntryFor(el, paras[k])
  {
    var r := RunTop(m, items).value;
    var m1 := TopElement(m, items[0]).value;
    assert RunTop(m1, items[1..]) == Success(r);
    assert r.paras[..|m1.paras|] == m1.paras;
    assert r.paras[|m.paras|] == m1.paras[|m.paras|];
  }

  /** `deserialize_from_file_usj`: the version must be present and a string (the two `expect`
      messages otherwise); the top-level items of "content" are read in order, and the document
      printed holds the version and one finished item per book, chapter and para. The walk
      panics exactly when a top-level item is not readable. */
  function DeserializeUsj(json: J.Value): (r: Result<string, string>)
    ensures J.Get(json, "version").None? ==> r == Failure("Missing version")
    ensures J.Get(json, "version").Some? && !J.Get(json, "version").value.String? ==>
      r == Failure("Version should be a string")
    ensures J.GetStr(json, "version").Some? ==>
      && (r.Failure? ==> r.error == Panic)
      && (r.Success? <==> forall i :: 0 <= i < |J.Children(json)| ==> TopReadable(J.Children(json)[i]))
      && (r.Success? ==> exists m :: DocumentModel(m, json) && r.value == M.AssembleModel(m))
  {
    match J.Get(json, "version")
    case None => Failure("Missing version")
    case Some(v) =>
      if !v.String? then Failure("Version should be a string")
      else
        var m0 := M.AddRootMetadata(M.New(), v.s);
        match RunTop(m0, J.Children(json))
        case Failure(e) => Failure(e)
        case Success(m) =>
          assert SM.Get(m.rootAttributes, "version") == Some(v.s);
          DocumentModelOfRun(m0, J.Children(json), json);
          Success(M.AssembleModel(m))
  }

  /** The model the document is assembled from: the version of the input, no open frame, and
      one finished item per top-level book, chapter and para, each the item of that element, in
      order. */
  predicate DocumentModel(m: M.State, json: J.Value)
  {
    && J.GetStr(json, "version").Some?
    && SM.Get(m.rootAttributes, "version") == Some(J.GetStr(json, "version").value)
    && m.stackInParas == []
    && var items := J.Children(json);
    && |m.paras| == TopCount(items)
    && EntriesFrom(items, m.paras, 0, EntryFor)
  }

  lemma DocumentModelOfRun(m0: M.State, items: seq<J.Value>, json: J.Value)
    requires J.GetStr(json, "version").Some? && items == J.Children(json)
    requires m0 == M.AddRootMetadata(M.New(), J.GetStr(json, "version").value)
    requires RunTop(m0, items).Success?
    ensures DocumentModel(RunTop(m0, items).value, json)
  {
    assert |m0.paras| == 0 && m0.stackInParas == [];
    RunTopEntries(m0, items);
  }

  /** A document with no top-level items prints just its version. */
  lemma EmptyDocument(version: string)
    ensures DeserializeUsj(J.Object([("version", J.String(version))])) ==
      Success("{ \"version\": \"" + version + "\", \"content\": []}")
  {
    var json := J.Object([("version", J.String(version))]);
    assert J.Get(json, "version") == Some(J.String(version));
    assert J.Get(json, "content").None?;
    assert J.Children(json) == [];
    var m0 := M.AddRootMetadata(M.New(), version);
    assert RunTop(m0, []) == Success(m0);
    assert DeserializeUsj(json) == Success(M.AssembleModel(m0));
    assert M.AssembleModel(m0) == M.DocumentHead(version) + "]}";
    var head := "{ \"version\": \"" + version;
    assert M.DocumentHead(version) == head + "\", \"content\": [";
    assert head + "\", \"content\": [" + "]}" == head + "\", \"content\": []}";
  }


  /* ---------- the walk on an AosjStringModel ---------- */

  /** `read_content`, recursive as in the source; `panicked` reports the panic. */
  method ReadContentOn(model: B.AosjStringModel, v: J.Value) returns (panicked: bool)
    modifies model
    ensures var r := ReadContent(old(model.Snapshot()), v);
      panicked == r.Failure? && (!panicked ==> model.Snapshot() == r.value)
    decreases v, 2
  {
    var txt: seq<string> := [];
    match v {
      case String(text) =>
        txt := txt + [Escape(text)];
      case Object(members) =>
        var collected := CollectAttributes(members);
        if collected.Failure? {
          return true;
        }
        var t := J.Get(v, "type");
        if t.None? {
          return true;
        }
        model.PushElement(collected.value, J.Render(t.value));
        panicked := ReadElementOn(model, v);
        return;
      case _ =>
    }
    if !M.CanAddString(model.Snapshot(), txt) {
      return true;
    }
    txt := model.AddStringToInPara(txt);
    return false;
  }

  /** The match on the type inside `read_content`. */
  method ReadElementOn(model: B.AosjStringModel, v: J.Value) returns (panicked: bool)
    requires v.Object? && |model.parentEls| > 0
    modifies model
    ensures var r := ReadElement(old(model.Snapshot()), v);
      panicked == r.Failure? && (!panicked ==> model.Snapshot() == r.value)
    decreases v, 1
  {
    var kind := J.GetStr(v, "type");
    if kind == Some("verse") || kind == Some("ms") {
      if |model.stackInParas| == 0 {
        return true;
      }
      var attributes := model.GetAttributes();
      if kind == Some("verse") {
        model.AddVerseToInPara(attributes);
      } else {
        model.AddMilestone(attributes);
      }
      model.PopParentEl();
    } else if kind == Some("char") || kind == Some("note") {
      panicked := ReadSpanOn(model, v, kind == Some("char"));
      return;
    }
    return false;
  }

  /** The char and note arms: open the span, read the children, pop, close the span. */
  method ReadSpanOn(model: B.AosjStringModel, v: J.Value, isChar: bool) returns (panicked: bool)
    requires v.Object? && |model.parentEls| > 0
    modifies model
    ensures var r := ReadSpan(old(model.Snapshot()), v, isChar);
      panicked == r.Failure? && (!panicked ==> model.Snapshot() == r.value)
    decreases v, 0, |J.Children(v)| + 1
  {
    var txt: seq<string> := [];
    var attributes := model.GetAttributes();
    if isChar {
      model.StartAddCharMarker(attributes);
    } else {
      model.StartAddNote(attributes);
    }
    panicked := ReadChildrenOn(model, v);
    if panicked {
      return;
    }
    model.PopParentEl();
    if !M.CanEndSpan(model.Snapshot(), txt) {
      return true;
    }
    if isChar {
      txt := model.EndAddCharMarker(txt);
    } else {
      txt := model.EndAddNote(txt);
    }
    return false;
  }

  /** `for object in contents { read_content(model, object); }` */
  method ReadChildrenOn(model: B.AosjStringModel, v: J.Value) returns (panicked: bool)
    requires v.Object?
    modifies model
    ensures var r := ReadChildren(old(model.Snapshot()), v, 0);
      panicked == r.Failure? && (!panicked ==> model.Snapshot() == r.value)
    decreases v, 0, |J.Children(v)|
  {
    var contents := J.Children(v);
    var i := 0;
    while i < |contents|
      invariant 0 <= i <= |contents|
      invariant ReadChildren(old(model.Snapshot()), v, 0) == ReadChildren(model.Snapshot(), v, i)
    {
      assert contents[i] == v.members[J.ContentIndex(v)].1.items[i];
      ReadChildrenStep(model.Snapshot(), v, i);
      panicked := ReadContentOn(model, contents[i]);
      if panicked {
        return;
      }
      i := i + 1;
    }
    return false;
  }

  lemma ReadChildrenStep(m: M.State, v: J.Value, i: nat)
    requires v.Object? && i < |J.Children(v)|
    ensures var r1 := ReadContent(m, J.Children(v)[i]);
      && (r1.Failure? ==> ReadChildren(m, v, i) == r1)
      && (r1.Success? ==> ReadChildren(m, v, i) == ReadChildren(r1.value, v, i + 1))
  {
  }


  /** The book's children, each followed by `model.parent_els().pop()`. */
  method ReadBookChildrenOn(model: B.AosjStringModel, el: J.Value) returns (panicked: bool)
    requires el.Object?
    modifies model
    ensures var r := ReadBookChildren(old(model.Snapshot()), el, 0);
      panicked == r.Failure? && (!panicked ==> model.Snapshot() == r.value)
  {
    var contents := J.Children(el);
    var i := 0;
    while i < |contents|
      invariant 0 <= i <= |contents|
      invariant ReadBookChildren(old(model.Snapshot()), el, 0) == ReadBookChildren(model.Snapshot(), el, i)
    {
      assert contents[i] == el.members[J.ContentIndex(el)].1.items[i];
      panicked := ReadContentOn(model, contents[i]);
      if panicked {
        return;
      }
      model.PopParentEl();
      i := i + 1;
    }
    return false;
  }

  method ReadBookOn(model: B.AosjStringModel, el: J.Value) returns (panicked: bool)
    requires el.Object?
    modifies model
    ensures var r := ReadBook(old(model.Snapshot()), el);
      panicked == r.Failure? && (!panicked ==> model.Snapshot() == r.value)
  {
    var attributes := model.GetAttributes();
    model.StartBook(attributes);
    panicked := ReadBookChildrenOn(model, el);
    if panicked {
      return;
    }
    if !M.CanCloseTop(model.Snapshot()) {
      return true;
    }
    model.EndBook();
    return false;
  }

  method ReadParaOn(model: B.AosjStringModel, el: J.Value) returns (panicked: bool)
    requires el.Object?
    modifies model
    ensures var r := ReadPara(old(model.Snapshot()), el);
      panicked == r.Failure? && (!panicked ==> model.Snapshot() == r.value)
  {
    var attributes := model.GetAttributes();
    model.StartNewPara(attributes);
    panicked := ReadChildrenOn(model, el);
    if panicked {
      return;
    }
    model.PopParentEl();
    if !M.CanCloseTop(model.Snapshot()) {
      return true;
    }
    model.EndNewPara();
    return false;
  }

  /** One pass of the top-level loop. */
  method TopElementOn(model: B.AosjStringModel, el: J.Value) returns (panicked: bool)
    modifies model
    ensures var r := TopElement(old(model.Snapshot()), el);
      panicked == r.Failure? && (!panicked ==> model.Snapshot() == r.value)
  {
    if !el.Object? {
      return false;
    }
    var collected := CollectAttributes(el.members);
    if collected.Failure? {
      return true;
    }
    var t := J.Get(el, "type");
    if t.None? {
      return true;
    }
    model.PushElement(collected.value, J.Render(t.value));
    var kind := J.GetStr(el, "type");
    if kind == Some("book") {
      panicked := ReadBookOn(model, el);
    } else if kind == Some("chapter") {
      var attributes := model.GetAttributes();
      model.AddChapter(attributes);
      panicked := false;
    } else if kind == Some("para") {
      panicked := ReadParaOn(model, el);
    } else {
      panicked := false;
    }
  }

  /** `deserialize_from_file_usj` on an `AosjStringModel`. */
  method DeserializeFromUsj(json: J.Value) returns (r: Result<string, string>)
    ensures r == DeserializeUsj(json)
  {
    var model := new B.AosjStringModel();
    var version := J.Get(json, "version");
    if version.None? {
      return Failure("Missing version");
    }
    if !version.value.String? {
      return Failure("Version should be a string");
    }
    model.AddRootMetadata(version.value.s);
    var m0 := model.Snapshot();
    var content := J.Children(json);
    var i := 0;
    while i < |content|
      invariant 0 <= i <= |content|
      invariant model.stackInParas == []
      invariant RunTop(model.Snapshot(), content[i..]) == RunTop(m0, content)
    {
      assert content[i..][1..] == content[i + 1..];
      var panicked := TopElementOn(model, content[i]);
      if panicked {
        return Failure(Panic);
      }
      i := i + 1;
    }
    var text := model.AssembleModel();
    return Success(text);
  }

}
