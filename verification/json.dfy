/** serde_json's `Value` with the accessors the converters call (`get`, `as_str`, `as_array`)
    and its compact `Display` (what `write!(w, "{}", value)` and `value.to_string()` print).
    Objects are `BTreeMap`s, so they iterate in key order. Numbers are integers here. */
module Json {
  import opened Wrappers
  import opened Strings
  import SM = SortedMap

  datatype Value =
    | Null
    | Bool(b: bool)
    | Number(n: int)
    | String(s: string)
    | Array(items: seq<Value>)
    | Object(members: SM.SortedMap<Value>)

  /** `value.get(key)`: a member of an object; `None` for a missing key or a non-object. */
  function Get(v: Value, key: string): (r: Option<Value>)
    ensures r.Some? <==> v.Object? && key in SM.Keys(v.members)
    ensures v.Object? ==> r == SM.Get(v.members, key)
  {
    if v.Object? then SM.Get(v.members, key) else None
  }

  /** `value.as_str()` */
  function AsStr(v: Value): (r: Option<string>)
    ensures r.Some? <==> v.String?
  {
    if v.String? then Some(v.s) else None
  }

  /** `value.get(key).and_then(|x| x.as_str())` */
  function GetStr(v: Value, key: string): (r: Option<string>)
  {
    match Get(v, key)
    case Some(x) => AsStr(x)
    case None => None
  }

  /** `value.get(key).and_then(|x| x.as_array())`, the children that the walks iterate over;
      no children when the key is missing or its value is not an array. */
  function GetArray(v: Value, key: string): seq<Value>
  {
    match Get(v, key)
    case Some(Array(items)) => items
    case _ => []
  }

  /** `value.get("type").and_then(|t| t.as_str())`: the kind of a USJ element. */
  function Kind(v: Value): Option<string>
  {
    GetStr(v, "type")
  }

  /** The position of the "content" member of an object. */
  function ContentIndex(v: Value): nat
    requires v.Object?
  {
    SM.IndexOf(v.members, "content")
  }

  /** The object's "content" member exists and is an array. */
  predicate HasItems(v: Value)
  {
    v.Object? && ContentIndex(v) < |v.members| && v.members[ContentIndex(v)].1.Array?
  }

  /** The children the walk visits: `obj.get("content").and_then(|c| c.as_array())`. */
  function Children(v: Value): (r: seq<Value>)
    ensures r == GetArray(v, "content")
  {
    if HasItems(v) then v.members[ContentIndex(v)].1.items else []
  }

  const HexDigits: string := "0123456789abcdef"

  /** serde_json's escape of one character inside a JSON string literal. */
  function EscapeChar(c: char): (r: string)
    ensures |r| >= 1
    ensures c != '"' && c != '\\' && c >= ' ' ==> r == [c]
    ensures c == '"' ==> r == "\\\""
    ensures c == '\\' ==> r == "\\\\"
    ensures c < ' ' ==> r[0] == '\\' && forall i :: 0 <= i < |r| ==> ' ' <= r[i] && r[i] != '"'
  {
    if c == '"' then "\\\""
    else if c == '\\' then "\\\\"
    else if c as int == 8 then "\\b"
    else if c == '\t' then "\\t"
    else if c == '\n' then "\\n"
    else if c as int == 12 then "\\f"
    else if c == '\r' then "\\r"
    else if c < ' ' then
      var n := c as int;
      "\\u00" + [HexDigits[n / 16], HexDigits[n % 16]]
    else [c]
  }

  /** The value of a lower-case hexadecimal digit; 16 for any other character. */
  function HexValue(d: char): (r: nat)
    ensures r <= 16
  {
    if '0' <= d <= '9' then d as int - '0' as int
    else if 'a' <= d <= 'f' then d as int - 'a' as int + 10
    else 16
  }

  lemma HexValueOfDigit(k: nat)
    requires k < 16
    ensures HexValue(HexDigits[k]) == k
  {
  }

  /** The character one escape of a JSON string literal stands for, as a JSON reader decodes
      it; `None` for text that is not a single escape or plain character. */
  function Unescape(t: string): Option<char>
  {
    if |t| == 1 && t[0] != '"' && t[0] != '\\' && t[0] >= ' ' then Some(t[0])
    else if |t| == 2 && t[0] == '\\' then
      if t[1] == '"' then Some('"')
      else if t[1] == '\\' then Some('\\')
      else if t[1] == 'b' then Some(8 as char)
      else if t[1] == 't' then Some('\t')
      else if t[1] == 'n' then Some('\n')
      else if t[1] == 'f' then Some(12 as char)
      else if t[1] == 'r' then Some('\r')
      else None
    else if |t| == 6 && t[..4] == "\\u00" && HexValue(t[4]) < 16 && HexValue(t[5]) < 16 then
      Some((16 * HexValue(t[4]) + HexValue(t[5])) as char)
    else None
  }

  /** Escaping one character and reading the escape back gives the character again. */
  lemma EscapeCharRoundTrip(c: char)
    ensures Unescape(EscapeChar(c)) == Some(c)
  {
    var r := EscapeChar(c);
    if c < ' ' && c as int != 8 && c != '\t' && c != '\n' && c as int != 12 && c != '\r' {
      var n := c as int;
      HexValueOfDigit(n / 16);
      HexValueOfDigit(n % 16);
      assert r[..4] == "\\u00";
    }
  }

  function EscapeString(s: string): string
  {
    if |s| == 0 then "" else EscapeChar(s[0]) + EscapeString(s[1..])
  }

  /** Inside an escaped string every quote is preceded by a backslash, so a reader finds the
      end of a printed string literal where the printer put it. */
  lemma {:induction false} EscapedQuotes(s: string)
    ensures forall i :: 0 <= i < |EscapeString(s)| && EscapeString(s)[i] == '"' ==>
      i > 0 && EscapeString(s)[i - 1] == '\\'
  {
    if |s| > 0 {
      EscapedQuotes(s[1..]);
      var head := EscapeChar(s[0]);
      var rest := EscapeString(s[1..]);
      var e := head + rest;
      assert EscapeString(s) == e;
      forall i | 0 <= i < |e| && e[i] == '"'
        ensures i > 0 && e[i - 1] == '\\'
      {
        if i >= |head| {
          var j := i - |head|;
          assert rest[j] == '"';
          assert j > 0 && rest[j - 1] == '\\';
          assert e[i - 1] == rest[j - 1];
        } else {
          assert head[i] == '"';
        }
      }
    }
  }

  /** A string printed by `Render` is a quote, its escaped text and a quote, with no unescaped
      quote in between; text free of quotes, backslashes and control characters is printed as is. */
  lemma RenderString(s: string)
    ensures var r := Render(String(s));
      && |r| >= 2 && r[0] == '"' && r[|r| - 1] == '"'
      && (forall i :: 0 < i < |r| - 1 && r[i] == '"' ==> r[i - 1] == '\\')
    ensures (forall i :: 0 <= i < |s| ==> s[i] != '"' && s[i] != '\\' && s[i] >= ' ') ==>
      Render(String(s)) == "\"" + s + "\""
  {
    var e := EscapeString(s);
    var r := Render(String(s));
    EscapedQuotes(s);
    assert r == "\"" + e + "\"";
    forall i | 0 < i < |r| - 1 && r[i] == '"'
      ensures r[i - 1] == '\\'
    {
      assert r[i] == e[i - 1];
      assert i - 1 > 0 && e[i - 2] == '\\';
      assert r[i - 1] == e[i - 2];
    }
    if forall i :: 0 <= i < |s| ==> s[i] != '"' && s[i] != '\\' && s[i] >= ' ' {
      PlainEscape(s);
    }
  }

  lemma {:induction false} PlainEscape(s: string)
    requires forall i :: 0 <= i < |s| ==> s[i] != '"' && s[i] != '\\' && s[i] >= ' '
    ensures EscapeString(s) == s
  {
    if |s| > 0 {
      PlainEscape(s[1..]);
      assert s == [s[0]] + s[1..];
    }
  }

  function Digits(n: nat): (r: string)
    ensures |r| > 0
  {
    if n < 10 then [HexDigits[n]] else Digits(n / 10) + [HexDigits[n % 10]]
  }

  function RenderNumber(n: int): string
  {
    if n < 0 then "-" + Digits(-n) else Digits(n)
  }

  /** Compact JSON text of a value, as serde_json's `Display` prints it. */
  function Render(v: Value): (r: string)
    decreases v, 1, 0
  {
    match v
    case Null => "null"
    case Bool(b) => if b then "true" else "false"
    case Number(n) => RenderNumber(n)
    case String(s) => "\"" + EscapeString(s) + "\""
    case Array(items) => "[" + RenderItems(v, 0) + "]"
    case Object(members) => "{" + RenderMembers(v, 0) + "}"
  }

  /** The elements of the array `v` from index `i` on, comma-separated. */
  function RenderItems(v: Value, i: nat): string
    requires v.Array? && i <= |v.items|
    decreases v, 0, |v.items| - i
  {
    if i == |v.items| then ""
    else
      var x := Render(v.items[i]);
      if i + 1 == |v.items| then x else x + "," + RenderItems(v, i + 1)
  }

  /** The members of the object `v` from index `i` on, as `"key":value`, comma-separated. */
  function RenderMembers(v: Value, i: nat): string
    requires v.Object? && i <= |v.members|
    decreases v, 0, |v.members| - i
  {
    if i == |v.members| then ""
    else
      var m := "\"" + EscapeString(v.members[i].0) + "\":" + Render(v.members[i].1);
      if i + 1 == |v.members| then m else m + "," + RenderMembers(v, i + 1)
  }
}
