/**
 * PHP's ordered associative arrays with string keys, as used by the scripts for
 * `$images[$side]`, `$items[$label]` and `$items[$title]`: a sequence of (key, value)
 * pairs in insertion order. `$m[$k] = $v` replaces the value of an existing key in
 * place and appends a new key at the end; ksort() reorders by key.
 */
module Assoc {
  import opened Common

  type Entries = seq<(string, string)>

  function Keys(m: Entries): seq<string>
  {
    seq(|m|, i requires 0 <= i < |m| => m[i].0)
  }

  ghost predicate UniqueKeys(m: Entries)
  {
    forall i, j :: 0 <= i < j < |m| ==> m[i].0 != m[j].0
  }

  /** $m[$k] when isset, else None. */
  function Get(m: Entries, k: string): Option<string>
  {
    if m == [] then None
    else if m[0].0 == k then Some(m[0].1)
    else Get(m[1..], k)
  }

  /** $m[$k] = $v */
  function Put(m: Entries, k: string, v: string): Entries
  {
    if m == [] then [(k, v)]
    else if m[0].0 == k then [(k, v)] + m[1..]
    else [m[0]] + Put(m[1..], k, v)
  }

  lemma {:induction false} KeysCons(e: (string, string), m: Entries)
    ensures Keys([e] + m) == [e.0] + Keys(m)
  {
  }

  /** A key already present keeps its position; only its value changes. */
  lemma {:induction false} PutExisting(m: Entries, k: string, v: string)
    requires k in Keys(m)
    ensures Keys(Put(m, k, v)) == Keys(m)
    ensures forall i :: 0 <= i < |m| && m[i].0 != k ==> Put(m, k, v)[i] == m[i]
  {
    if m[0].0 == k {
      KeysCons((k, v), m[1..]);
      KeysCons(m[0], m[1..]);
      assert m == [m[0]] + m[1..];
    } else {
      KeysCons(m[0], m[1..]);
      assert m == [m[0]] + m[1..];
      assert k in Keys(m[1..]);
      PutExisting(m[1..], k, v);
      KeysCons(m[0], Put(m[1..], k, v));
    }
  }

  /** A new key is appended at the end. */
  lemma {:induction false} PutNew(m: Entries, k: string, v: string)
    requires k !in Keys(m)
    ensures Put(m, k, v) == m + [(k, v)]
  {
    if m != [] {
      KeysCons(m[0], m[1..]);
      assert m == [m[0]] + m[1..];
      PutNew(m[1..], k, v);
    }
  }

  /** Reading back after $m[$k] = $v. */
  lemma {:induction false} GetPut(m: Entries, k: string, v: string, k': string)
    ensures Get(Put(m, k, v), k') == if k' == k then Some(v) else Get(m, k')
  {
    if m != [] && m[0].0 != k {
      GetPut(m[1..], k, v, k');
    }
  }

  lemma {:induction false} GetIsIn(m: Entries, k: string)
    ensures Get(m, k).Some? <==> k in Keys(m)
    ensures Get(m, k).Some? ==> (k, Get(m, k).value) in m
  {
    if m != [] {
      KeysCons(m[0], m[1..]);
      assert m == [m[0]] + m[1..];
      GetIsIn(m[1..], k);
    }
  }

  /** With unique keys, Get finds exactly the pairs of the array. */
  lemma {:induction false} GetUnique(m: Entries, k: string, v: string)
    requires UniqueKeys(m)
    ensures Get(m, k) == Some(v) <==> (k, v) in m
  {
    if m != [] {
      assert UniqueKeys(m[1..]) by {
        forall i, j | 0 <= i < j < |m[1..]| ensures m[1..][i].0 != m[1..][j].0 {
          assert m[1..][i] == m[i + 1] && m[1..][j] == m[j + 1];
        }
      }
      GetUnique(m[1..], k, v);
      assert m == [m[0]] + m[1..];
    }
  }

  /** Assignment never creates a second copy of a key. */
  lemma {:induction false} PutUnique(m: Entries, k: string, v: string)
    requires UniqueKeys(m)
    ensures UniqueKeys(Put(m, k, v))
  {
    if k in Keys(m) {
      PutExisting(m, k, v);
      var r := Put(m, k, v);
      forall i, j | 0 <= i < j < |r| ensures r[i].0 != r[j].0 {
        assert Keys(r)[i] == Keys(m)[i] && Keys(r)[j] == Keys(m)[j];
      }
    } else {
      PutNew(m, k, v);
      var r := m + [(k, v)];
      forall i, j | 0 <= i < j < |r| ensures r[i].0 != r[j].0 {
        if j == |m| {
          assert Keys(m)[i] == m[i].0;
        }
      }
    }
  }

  /** unset($m[$k]), and DOM removeAttribute(): every pair with key k is dropped, the rest keep their order. */
  function Remove(m: Entries, k: string): (r: Entries)
    ensures |r| <= |m|
  {
    if m == [] then []
    else if m[0].0 == k then Remove(m[1..], k)
    else [m[0]] + Remove(m[1..], k)
  }

  /** After removal the key is gone and every other key reads as before. */
  lemma {:induction false} GetRemove(m: Entries, k: string, k': string)
    ensures Get(Remove(m, k), k') == if k' == k then None else Get(m, k')
  {
    if m != [] {
      GetRemove(m[1..], k, k');
    }
  }

  /** Removing an absent key changes nothing. */
  lemma {:induction false} RemoveAbsent(m: Entries, k: string)
    requires Get(m, k).None?
    ensures Remove(m, k) == m
  {
    if m != [] {
      RemoveAbsent(m[1..], k);
      assert m == [m[0]] + m[1..];
    }
  }

  // ----- ksort() on string keys -----

  /** strcmp(a, b) < 0: byte order of UTF-8 text, which is code point order. */
  predicate Below(a: string, b: string)
  {
    if a == [] then b != []
    else if b == [] then false
    else if a[0] != b[0] then a[0] < b[0]
    else Below(a[1..], b[1..])
  }

  lemma {:induction false} BelowIrreflexive(a: string)
    ensures !Below(a, a)
  {
    if a != [] { BelowIrreflexive(a[1..]); }
  }

  lemma {:induction false} BelowTransitive(a: string, b: string, c: string)
    requires Below(a, b) && Below(b, c)
    ensures Below(a, c)
  {
    if a != [] && b != [] && c != [] && a[0] == b[0] && b[0] == c[0] {
      BelowTransitive(a[1..], b[1..], c[1..]);
    }
  }

  lemma {:induction false} BelowTotal(a: string, b: string)
    requires a != b
    ensures Below(a, b) || Below(b, a)
  {
    if a != [] && b != [] && a[0] == b[0] {
      assert a == [a[0]] + a[1..] && b == [b[0]] + b[1..];
      BelowTotal(a[1..], b[1..]);
    }
  }

  ghost predicate SortedByKey(m: Entries)
  {
    forall i, j :: 0 <= i < j < |m| ==> Below(m[i].0, m[j].0)
  }

  function InsertByKey(m: Entries, e: (string, string)): Entries
  {
    if m == [] then [e]
    else if Below(e.0, m[0].0) then [e] + m
    else [m[0]] + InsertByKey(m[1..], e)
  }

  /** ksort($m): the pairs ordered by key. */
  function KSort(m: Entries): Entries
  {
    if m == [] then [] else InsertByKey(KSort(m[..|m| - 1]), m[|m| - 1])
  }

  lemma {:induction false} InsertByKeyElements(m: Entries, e: (string, string))
    ensures |InsertByKey(m, e)| == |m| + 1
    ensures forall x :: x in InsertByKey(m, e) <==> x in m || x == e
  {
    if m != [] && !Below(e.0, m[0].0) {
      InsertByKeyElements(m[1..], e);
      assert m == [m[0]] + m[1..];
    }
  }

  lemma {:induction false} InsertByKeySorted(m: Entries, e: (string, string))
    requires SortedByKey(m)
    requires forall i :: 0 <= i < |m| ==> m[i].0 != e.0
    ensures SortedByKey(InsertByKey(m, e))
  {
    if m == [] {
    } else if Below(e.0, m[0].0) {
      var r := [e] + m;
      forall i, j | 0 <= i < j < |r| ensures Below(r[i].0, r[j].0) {
        if i == 0 && j > 1 {
          BelowTransitive(e.0, m[0].0, m[j - 1].0);
        }
      }
    } else {
      BelowTotal(e.0, m[0].0);
      var tail := m[1..];
      InsertByKeySorted(tail, e);
      InsertByKeyElements(tail, e);
      var ins := InsertByKey(tail, e);
      var r := [m[0]] + ins;
      forall i, j | 0 <= i < j < |r| ensures Below(r[i].0, r[j].0) {
        if i == 0 {
          assert r[j] in ins;
          var x := r[j];
          if x != e {
            assert x in tail;
            var k :| 0 <= k < |tail| && tail[k] == x;
            assert m[k + 1] == x;
          }
        } else {
          assert r[i] == ins[i - 1] && r[j] == ins[j - 1];
        }
      }
    }
  }

  /** ksort() keeps every pair, and with distinct keys leaves them in strictly increasing key order. */
  lemma {:induction false} KSortCorrect(m: Entries)
    requires UniqueKeys(m)
    ensures |KSort(m)| == |m|
    ensures forall x :: x in KSort(m) <==> x in m
    ensures SortedByKey(KSort(m))
  {
    if m != [] {
      var init := m[..|m| - 1];
      var last := m[|m| - 1];
      assert UniqueKeys(init);
      KSortCorrect(init);
      var s := KSort(init);
      InsertByKeyElements(s, last);
      forall i | 0 <= i < |s| ensures s[i].0 != last.0 {
        assert s[i] in s;
        assert s[i] in init;
        var k :| 0 <= k < |init| && init[k] == s[i];
      }
      InsertByKeySorted(s, last);
      assert m == init + [last];
    }
  }

  /** Strictly increasing keys are distinct keys. */
  lemma {:induction false} SortedUnique(m: Entries)
    requires SortedByKey(m)
    ensures UniqueKeys(m)
  {
    forall i, j | 0 <= i < j < |m| ensures m[i].0 != m[j].0 {
      if m[i].0 == m[j].0 { BelowIrreflexive(m[i].0); }
    }
  }
}
