/** String helpers used by the converters: `join`, `trim`, `replace` and the first run of a
    character class, as Rust's `Vec::join`, `str::trim`, `str::replace` and an unanchored `\d+`
    regex search compute them. A string is a sequence of Unicode scalar values, which is what
    Rust's `chars()` yields. */
module Strings {
  import opened Wrappers

  /** `parts.join(sep)` */
  function Join(parts: seq<string>, sep: string): (r: string)
    ensures |parts| == 0 ==> r == ""
    ensures |parts| == 1 ==> r == parts[0]
  {
    if |parts| == 0 then ""
    else if |parts| == 1 then parts[0]
    else parts[0] + sep + Join(parts[1..], sep)
  }

  /** Total number of characters of all the parts. */
  function TotalLength(parts: seq<string>): nat
  {
    if |parts| == 0 then 0 else |parts[0]| + TotalLength(parts[1..])
  }

  lemma {:induction false} JoinEmptyLength(parts: seq<string>)
    ensures |Join(parts, "")| == TotalLength(parts)
  {
    if |parts| > 1 {
      JoinEmptyLength(parts[1..]);
    }
  }

  lemma {:induction false} JoinAppend(parts: seq<string>, last: string, sep: string)
    requires |parts| > 0
    ensures Join(parts + [last], sep) == Join(parts, sep) + sep + last
  {
    if |parts| > 1 {
      assert (parts + [last])[1..] == parts[1..] + [last];
      JoinAppend(parts[1..], last, sep);
    } else {
      assert (parts + [last])[1..] == [last];
    }
  }

  /** Characters of `s` without the leading ones satisfying `isSpace`. */
  function TrimStart(s: string, isSpace: char -> bool): (r: string)
    ensures |r| <= |s| && r == s[|s| - |r|..]
    ensures |r| > 0 ==> !isSpace(r[0])
    ensures forall i :: 0 <= i < |s| - |r| ==> isSpace(s[i])
  {
    s[RunLength(s, isSpace)..]
  }

  /** Characters of `s` without the trailing ones satisfying `isSpace`. */
  function TrimEnd(s: string, isSpace: char -> bool): (r: string)
    ensures |r| <= |s| && r == s[..|r|]
    ensures |r| > 0 ==> !isSpace(r[|r| - 1])
    ensures forall i :: |r| <= i < |s| ==> isSpace(s[i])
  {
    if |s| > 0 && isSpace(s[|s| - 1]) then TrimEnd(s[..|s| - 1], isSpace) else s
  }

  /** `str::trim`: both ends, with the white-space class given as a predicate. */
  function Trim(s: string, isSpace: char -> bool): (r: string)
    ensures var k := RunLength(s, isSpace);
      && k + |r| <= |s| && r == s[k..k + |r|]
      && (forall i :: 0 <= i < k ==> isSpace(s[i]))
      && (forall i :: k + |r| <= i < |s| ==> isSpace(s[i]))
    ensures |r| > 0 ==> !isSpace(r[0]) && !isSpace(r[|r| - 1])
  {
    var t := TrimStart(s, isSpace);
    var r := TrimEnd(t, isSpace);
    assert r == t[..|r|];
    r
  }

  /** `s.replace(c, "")`: every occurrence of `c` removed, the other characters kept in order. */
  function RemoveChar(s: string, c: char): (r: string)
    ensures c !in r
    ensures forall x :: x != c ==> multiset(r)[x] == multiset(s)[x]
    ensures |r| <= |s|
    ensures |s| == 0 ==> r == ""
    ensures |s| == 1 ==> r == if s[0] == c then "" else s
    ensures c !in s ==> r == s
  {
    if |s| == 0 then ""
    else
      var rest := RemoveChar(s[1..], c);
      assert s == [s[0]] + s[1..];
      if s[0] == c then rest else [s[0]] + rest
  }

  /** Removal works piece by piece, so the kept characters stay in their order. */
  lemma {:induction false} RemoveCharAppend(a: string, b: string, c: char)
    ensures RemoveChar(a + b, c) == RemoveChar(a, c) + RemoveChar(b, c)
    decreases |a|
  {
    if |a| == 0 {
      assert a + b == b;
    } else {
      assert (a + b)[0] == a[0] && (a + b)[1..] == a[1..] + b;
      RemoveCharAppend(a[1..], b, c);
      if a[0] != c {
        calc {
          RemoveChar(a + b, c);
          [a[0]] + RemoveChar(a[1..] + b, c);
          [a[0]] + (RemoveChar(a[1..], c) + RemoveChar(b, c));
          ([a[0]] + RemoveChar(a[1..], c)) + RemoveChar(b, c);
        }
      }
    }
  }

  /** Length of the longest prefix of `s` made of characters in the class. */
  function RunLength(s: string, inClass: char -> bool): (n: nat)
    ensures n <= |s|
    ensures forall i :: 0 <= i < n ==> inClass(s[i])
    ensures n < |s| ==> !inClass(s[n])
  {
    if |s| > 0 && inClass(s[0]) then 1 + RunLength(s[1..], inClass) else 0
  }

  /** Index of the first character of `s` in the class (`|s|` when there is none). */
  function RunStart(s: string, inClass: char -> bool): (k: nat)
    ensures k <= |s|
    ensures forall i :: 0 <= i < k ==> !inClass(s[i])
    ensures k < |s| ==> inClass(s[k])
  {
    if |s| == 0 || inClass(s[0]) then 0 else 1 + RunStart(s[1..], inClass)
  }

  /** Leftmost match of the regex `C+` (C the class): the first maximal run of class
      characters, or `None` when no character of `s` is in the class. The run starts at the
      first class character and stops before the first character after it that is not. */
  function FirstRun(s: string, inClass: char -> bool): (r: Option<string>)
    ensures r.None? <==> forall i :: 0 <= i < |s| ==> !inClass(s[i])
    ensures r.Some? ==>
      var k := RunStart(s, inClass);
      && |r.value| > 0 && k + |r.value| <= |s|
      && s[k..k + |r.value|] == r.value
      && (forall i :: 0 <= i < |r.value| ==> inClass(r.value[i]))
      && (k + |r.value| < |s| ==> !inClass(s[k + |r.value|]))
  {
    var k := RunStart(s, inClass);
    if k == |s| then None
    else
      var n := RunLength(s[k..], inClass);
      Some(s[k..k + n])
  }

  /** Strict lexicographic order on strings, by code point: the order of Rust's `Ord for String`
      (byte-wise UTF-8 comparison orders code points the same way). */
  predicate Less(a: string, b: string)
  {
    if |a| == 0 then |b| > 0
    else if |b| == 0 then false
    else a[0] < b[0] || (a[0] == b[0] && Less(a[1..], b[1..]))
  }

  lemma {:induction false} LessIrreflexive(a: string)
    ensures !Less(a, a)
  {
    if |a| > 0 {
      LessIrreflexive(a[1..]);
    }
  }

  lemma {:induction false} LessTransitive(a: string, b: string, c: string)
    requires Less(a, b) && Less(b, c)
    ensures Less(a, c)
  {
    if |a| > 0 && |b| > 0 && |c| > 0 && a[0] == b[0] && b[0] == c[0] {
      LessTransitive(a[1..], b[1..], c[1..]);
    }
  }

  lemma {:induction false} LessTotal(a: string, b: string)
    ensures a == b || Less(a, b) || Less(b, a)
  {
    if |a| > 0 && |b| > 0 && a[0] == b[0] {
      LessTotal(a[1..], b[1..]);
      if a[1..] == b[1..] {
        assert a == [a[0]] + a[1..] && b == [b[0]] + b[1..];
      }
    }
  }
}
