/** `lexing_regex` of src/deserialize_usfm.rs: the USFM text is cut into tokens by one regular
    expression, the alternation of the category patterns, and each piece is then labelled with
    the first category, in declared order, whose own pattern matches somewhere inside it. The
    regular-expression engine is not modelled: the pieces cut by the combined expression are the
    input `caps`, and `search(category, text)` stands for the leftmost match of the category's
    pattern inside `text`. */
module UsfmLexer {
  import opened Wrappers

  datatype TokenType =
    | Chapter | PubChapter | Verses | Attribute | DefaultAttribute | EmptyMilestone
    | StartMilestoneTag | EndMilestoneMarker | EndTag | StartTag | BareSlash | Eol
    | NoBreakSpace | SoftLineBreak | WordLike | LineSpace | Punctuation | Unknown

  datatype TokenEvent = TokenEvent(tokenType: TokenType, value: string)

  /** The categories in the order in which they are declared and tried. */
  const Categories: seq<TokenType> := [
    Chapter, PubChapter, Verses, Attribute, DefaultAttribute, EmptyMilestone,
    StartMilestoneTag, EndMilestoneMarker, EndTag, StartTag, BareSlash, Eol,
    NoBreakSpace, SoftLineBreak, WordLike, LineSpace, Punctuation, Unknown]

  /** The position of a category in `Categories`. */
  function Rank(t: TokenType): (k: nat)
    ensures k < |Categories| && Categories[k] == t
  {
    match t
    case Chapter => 0
    case PubChapter => 1
    case Verses => 2
    case Attribute => 3
    case DefaultAttribute => 4
    case EmptyMilestone => 5
    case StartMilestoneTag => 6
    case EndMilestoneMarker => 7
    case EndTag => 8
    case StartTag => 9
    case BareSlash => 10
    case Eol => 11
    case NoBreakSpace => 12
    case SoftLineBreak => 13
    case WordLike => 14
    case LineSpace => 15
    case Punctuation => 16
    case Unknown => 17
  }

  /** The first position from `k` on whose category matches inside `cap`, or `|Categories|`. */
  function FirstMatching(search: (TokenType, string) -> Option<string>, cap: string, k: nat): (r: nat)
    requires k <= |Categories|
    ensures k <= r <= |Categories|
    ensures forall j :: k <= j < r ==> search(Categories[j], cap).None?
    ensures r < |Categories| ==> search(Categories[r], cap).Some?
    decreases |Categories| - k
  {
    if k == |Categories| || search(Categories[k], cap).Some? then k
    else FirstMatching(search, cap, k + 1)
  }

  /** The token for one piece: the first category in declared order whose pattern matches inside
      it, with that pattern's match as the value; none when no category matches. */
  function Classify(search: (TokenType, string) -> Option<string>, cap: string): (r: Option<TokenEvent>)
    ensures r.None? <==> forall t :: search(t, cap).None?
    ensures r.Some? ==> search(r.value.tokenType, cap) == Some(r.value.value)
    ensures r.Some? ==> forall t :: Rank(t) < Rank(r.value.tokenType) ==> search(t, cap).None?
  {
    var k := FirstMatching(search, cap, 0);
    if k < |Categories| then
      var t := Categories[k];
      assert Rank(t) == k by { RankInjective(t, k); }
      Some(TokenEvent(t, search(t, cap).value))
    else
      assert forall t :: search(t, cap).None? by {
        forall t ensures search(t, cap).None? {
          assert Categories[Rank(t)] == t;
        }
      }
      None
  }

  lemma RankInjective(t: TokenType, k: nat)
    requires k < |Categories| && Categories[k] == t
    ensures Rank(t) == k
  {
  }

  /** The tokens of all pieces in input order; pieces no category matches yield no token. */
  function ClassifyAll(search: (TokenType, string) -> Option<string>, caps: seq<string>): (r: seq<TokenEvent>)
    ensures |r| <= |caps|
    ensures (forall i :: 0 <= i < |caps| ==> Classify(search, caps[i]).Some?) ==>
      |r| == |caps| && forall i :: 0 <= i < |caps| ==> r[i] == Classify(search, caps[i]).value
  {
    if |caps| == 0 then []
    else
      ClassifyAll(search, caps[..|caps| - 1]) + Emitted(Classify(search, caps[|caps| - 1]))
  }

  function Emitted(token: Option<TokenEvent>): seq<TokenEvent>
  {
    if token.Some? then [token.value] else []
  }

  lemma ClassifyAllStep(search: (TokenType, string) -> Option<string>, caps: seq<string>, i: nat)
    requires i < |caps|
    ensures ClassifyAll(search, caps[..i + 1]) == ClassifyAll(search, caps[..i]) + Emitted(Classify(search, caps[i]))
  {
    assert caps[..i + 1][..i] == caps[..i];
  }

  /** `lexing_regex`: for every piece, the categories are tried in order and the first match is
      emitted, then the search for that piece stops. */
  method LexingRegex(search: (TokenType, string) -> Option<string>, caps: seq<string>) returns (events: seq<TokenEvent>)
    ensures events == ClassifyAll(search, caps)
  {
    events := [];
    var i := 0;
    while i < |caps|
      invariant 0 <= i <= |caps|
      invariant events == ClassifyAll(search, caps[..i])
    {
      var token := ClassifyOn(search, caps[i]);
      ClassifyAllStep(search, caps, i);
      events := events + Emitted(token);
      i := i + 1;
    }
    assert caps[..i] == caps;
  }

  /** The inner loop of `lexing_regex` over the categories for one piece. */
  method ClassifyOn(search: (TokenType, string) -> Option<string>, capStr: string) returns (token: Option<TokenEvent>)
    ensures token == Classify(search, capStr)
  {
    var k := 0;
    while k < |Categories|
      invariant 0 <= k <= |Categories|
      invariant FirstMatching(search, capStr, 0) == FirstMatching(search, capStr, k)
    {
      var lex := Categories[k];
      var m := search(lex, capStr);
      if m.Some? {
        ClassifyAt(search, capStr, k);
        return Some(TokenEvent(lex, m.value));
      }
      k := k + 1;
    }
    ClassifyNone(search, capStr);
    return None;
  }

  lemma ClassifyAt(search: (TokenType, string) -> Option<string>, cap: string, k: nat)
    requires k < |Categories| && search(Categories[k], cap).Some?
    requires FirstMatching(search, cap, 0) == FirstMatching(search, cap, k)
    ensures Classify(search, cap) == Some(TokenEvent(Categories[k], search(Categories[k], cap).value))
  {
  }

  lemma ClassifyNone(search: (TokenType, string) -> Option<string>, cap: string)
    requires FirstMatching(search, cap, 0) == |Categories|
    ensures Classify(search, cap) == None
  {
  }

  /** A piece cut out by the combined expression but re-labelled by a pattern that matches inside
      it: a default-attribute piece such as `| gloss x="y"` contains an attribute match, and the
      attribute pattern is tried first, so the piece becomes an attribute token whose value is
      only the inner match. */
  lemma {:induction false} EarlierCategoryWins(search: (TokenType, string) -> Option<string>, cap: string, inner: string)
    requires search(Chapter, cap).None? && search(PubChapter, cap).None? && search(Verses, cap).None?
    requires search(Attribute, cap) == Some(inner)
    ensures Classify(search, cap) == Some(TokenEvent(Attribute, inner))
  {
    var r := Classify(search, cap);
    assert r.Some?;
    assert Rank(r.value.tokenType) <= Rank(Attribute);
  }
}
