/** Rust's `BTreeMap<String, V>`: an association list whose keys strictly increase in the
    order of `Strings.Less`, so that iterating over it visits the keys in key order. */
module SortedMap {
  import opened Wrappers
  import opened Strings

  predicate KeysIncreasing<V>(m: seq<(string, V)>)
  {
    forall i, j :: 0 <= i < j < |m| ==> Less(m[i].0, m[j].0)
  }

  type SortedMap<V> = m: seq<(string, V)> | KeysIncreasing(m) witness []

  function Keys<V>(m: seq<(string, V)>): set<string>
  {
    set i | 0 <= i < |m| :: m[i].0
  }

  /** `map.get(key)`: the value stored under `k`, if any. */
  function Get<V>(m: seq<(string, V)>, k: string): (r: Option<V>)
    ensures r.Some? <==> k in Keys(m)
    ensures r.Some? ==> exists i :: 0 <= i < |m| && m[i] == (k, r.value)
  {
    if |m| == 0 then None
    else if m[0].0 == k then Some(m[0].1)
    else
      assert Keys(m) == {m[0].0} + Keys(m[1..]) by {
        forall x | x in Keys(m) ensures x in {m[0].0} + Keys(m[1..]) {
          var i :| 0 <= i < |m| && m[i].0 == x;
          if i > 0 { assert m[1..][i - 1].0 == x; }
        }
      }
      var r := Get(m[1..], k);
      assert r.Some? ==> exists i :: 0 <= i < |m| && m[i] == (k, r.value) by {
        if r.Some? {
          var i :| 0 <= i < |m[1..]| && m[1..][i] == (k, r.value);
          assert m[i + 1] == (k, r.value);
        }
      }
      r
  }

  /** The position of key `k` (the length when it is absent). */
  function IndexOf<V>(m: seq<(string, V)>, k: string): (i: nat)
    ensures i <= |m|
    ensures i < |m| ==> m[i].0 == k && Get(m, k) == Some(m[i].1)
    ensures i == |m| ==> Get(m, k) == None
  {
    if |m| == 0 || m[0].0 == k then 0 else 1 + IndexOf(m[1..], k)
  }

  predicate ContainsKey<V>(m: seq<(string, V)>, k: string)
  {
    Get(m, k).Some?
  }

  lemma KeysOfSuffix<V>(m: seq<(string, V)>)
    requires |m| > 0
    ensures Keys(m) == {m[0].0} + Keys(m[1..])
  {
    forall x | x in Keys(m) ensures x in {m[0].0} + Keys(m[1..]) {
      var i :| 0 <= i < |m| && m[i].0 == x;
      if i > 0 { assert m[1..][i - 1].0 == x; }
    }
  }

  /** `map.insert(k, v)`: `k` now maps to `v`, every other key keeps its value, and the keys
      stay in increasing order. */
  function Insert<V>(m: SortedMap<V>, k: string, v: V): (r: SortedMap<V>)
    ensures Get(r, k) == Some(v)
    ensures forall k' :: k' != k ==> Get(r, k') == Get(m, k')
    ensures Keys(r) == Keys(m) + {k}
    ensures |r| == if k in Keys(m) then |m| else |m| + 1
  {
    if |m| == 0 then
      [(k, v)]
    else if m[0].0 == k then
      InsertReplaceHead(m, v)
    else if Less(k, m[0].0) then
      InsertBeforeHead(m, k, v)
    else
      LessTotal(k, m[0].0);
      var tail: SortedMap<V> := m[1..];
      var rest := Insert(tail, k, v);
      InsertAfterHead(m, k, rest)
  }

  function InsertReplaceHead<V>(m: SortedMap<V>, v: V): (r: SortedMap<V>)
    requires |m| > 0
    ensures var k := m[0].0;
      && Get(r, k) == Some(v)
      && (forall k' :: k' != k ==> Get(r, k') == Get(m, k'))
      && Keys(r) == Keys(m) && |r| == |m|
  {
    var k := m[0].0;
    var r: SortedMap<V> := [(k, v)] + m[1..];
    KeysOfSuffix(m);
    KeysOfSuffix(r);
    assert r[1..] == m[1..];
    NotInTail(m);
    r
  }

  function InsertBeforeHead<V>(m: SortedMap<V>, k: string, v: V): (r: SortedMap<V>)
    requires |m| > 0 && Less(k, m[0].0)
    ensures Get(r, k) == Some(v)
    ensures forall k' :: k' != k ==> Get(r, k') == Get(m, k')
    ensures Keys(r) == Keys(m) + {k} && k !in Keys(m) && |r| == |m| + 1
  {
    var r := [(k, v)] + m;
    assert KeysIncreasing(r) by {
      forall i, j | 0 <= i < j < |r| ensures Less(r[i].0, r[j].0) {
        if i == 0 && j > 1 { LessTransitive(k, m[0].0, m[j - 1].0); }
      }
    }
    KeysOfSuffix(r);
    assert r[1..] == m;
    assert k !in Keys(m) by {
      if k in Keys(m) {
        var i :| 0 <= i < |m| && m[i].0 == k;
        if i == 0 { LessIrreflexive(k); }
        else { LessTransitive(k, m[0].0, m[i].0); LessIrreflexive(k); }
      }
    }
    r
  }

  function InsertAfterHead<V>(m: SortedMap<V>, k: string, rest: SortedMap<V>): (r: SortedMap<V>)
    requires |m| > 0 && Less(m[0].0, k)
    requires Keys(rest) == Keys(m[1..]) + {k}
    ensures Keys(r) == Keys(m) + {k} && r == [m[0]] + rest
  {
    var r := [m[0]] + rest;
    assert KeysIncreasing(r) by {
      forall i, j | 0 <= i < j < |r| ensures Less(r[i].0, r[j].0) {
        if i == 0 {
          assert r[j].0 in Keys(rest) by { assert rest[j - 1] == r[j]; }
          if r[j].0 != k {
            var t :| 0 <= t < |m[1..]| && m[1..][t].0 == r[j].0;
            assert m[t + 1].0 == r[j].0;
          }
        } else {
          assert r[i] == rest[i - 1] && r[j] == rest[j - 1];
        }
      }
    }
    KeysOfSuffix(m);
    KeysOfSuffix(r);
    assert r[1..] == rest;
    r
  }

  lemma NotInTail<V>(m: SortedMap<V>)
    requires |m| > 0
    ensures m[0].0 !in Keys(m[1..])
  {
    if m[0].0 in Keys(m[1..]) {
      var i :| 0 <= i < |m[1..]| && m[1..][i].0 == m[0].0;
      assert Less(m[0].0, m[i + 1].0);
      LessIrreflexive(m[0].0);
    }
  }
}
