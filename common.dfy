/**
 * Shared vocabulary of the model: an Option wrapper and the handful of PHP string
 * functions the scripts rely on (explode, implode, str_replace, trim, substr, ucfirst),
 * written over `string`, Dafny's seq<char>.
 */
module Common {

  datatype Option<T> = None | Some(value: T)

  /** The characters PHP's trim() strips: space, tab, LF, CR, NUL and vertical tab. */
  predicate IsTrimmed(c: char) {
    c == ' ' || c == '\t' || c == '\n' || c == '\r' || c == '\0' || c as int == 11
  }

  /** PCRE's \d without the u flag: an ASCII digit. */
  predicate IsDigit(c: char) { '0' <= c <= '9' }

  predicate AllDigits(s: string) { forall k :: 0 <= k < |s| ==> IsDigit(s[k]) }

  predicate StartsWith(s: string, p: string) { |p| <= |s| && s[..|p|] == p }

  predicate EndsWith(s: string, p: string) { |p| <= |s| && s[|s| - |p|..] == p }

  /** strpos($s, $p) !== FALSE */
  predicate Contains(s: string, p: string)
    decreases |s|
  {
    StartsWith(s, p) || (s != [] && Contains(s[1..], p))
  }

  /** Drops one final line feed: the only one PCRE's `$` lets a match stop in front of. */
  function Chomp(s: string): (r: string)
    ensures s == r || s == r + "\n"
  {
    if s != [] && s[|s| - 1] == '\n' then s[..|s| - 1] else s
  }

  function TrimLeft(s: string): string
    decreases |s|
  {
    if s != [] && IsTrimmed(s[0]) then TrimLeft(s[1..]) else s
  }

  function TrimRight(s: string): string
    decreases |s|
  {
    if s != [] && IsTrimmed(s[|s| - 1]) then TrimRight(s[..|s| - 1]) else s
  }

  /** ltrim() keeps a suffix that starts with a kept character, and drops only blanks. */
  lemma {:induction false} TrimLeftSpec(s: string)
    ensures var r := TrimLeft(s);
      |r| <= |s| && r == s[|s| - |r|..] && (r != [] ==> !IsTrimmed(r[0])) &&
      forall k :: 0 <= k < |s| - |r| ==> IsTrimmed(s[k])
    decreases |s|
  {
    if s != [] && IsTrimmed(s[0]) {
      TrimLeftSpec(s[1..]);
    }
  }

  /** rtrim() keeps a prefix that ends with a kept character, and drops only blanks. */
  lemma {:induction false} TrimRightSpec(s: string)
    ensures var r := TrimRight(s);
      |r| <= |s| && r == s[..|r|] && (r != [] ==> !IsTrimmed(r[|r| - 1])) &&
      forall k :: |r| <= k < |s| ==> IsTrimmed(s[k])
    decreases |s|
  {
    if s != [] && IsTrimmed(s[|s| - 1]) {
      TrimRightSpec(s[..|s| - 1]);
    }
  }

  /** PHP trim(): strips IsTrimmed characters from both ends. */
  function Trim(s: string): string {
    TrimRight(TrimLeft(s))
  }

  /** A string that starts and ends with a character trim() keeps is its own trim. */
  lemma {:induction false} TrimKeeps(s: string)
    requires s != [] && !IsTrimmed(s[0]) && !IsTrimmed(s[|s| - 1])
    ensures Trim(s) == s
  {
  }

  /** trim() removes a final line feed from a line whose own ends are not blank. */
  lemma {:induction false} TrimDropsNewline(s: string)
    requires s != [] && !IsTrimmed(s[0]) && !IsTrimmed(s[|s| - 1])
    ensures Trim(s + "\n") == s
  {
    var t := s + "\n";
    assert TrimLeft(t) == t;
    assert t[..|t| - 1] == s;
    assert TrimRight(t) == TrimRight(s);
  }

  /** The result of trim() neither starts nor ends with a blank. */
  lemma {:induction false} TrimEnds(s: string)
    ensures Trim(s) != [] ==> !IsTrimmed(Trim(s)[0]) && !IsTrimmed(Trim(s)[|Trim(s)| - 1])
  {
    var l := TrimLeft(s);
    var r := TrimRight(l);
    TrimLeftSpec(s);
    TrimRightSpec(l);
    if r != [] {
      assert r[0] == l[0];
    }
  }

  /** trim() adds no character: one missing from s is missing from its trim. */
  lemma {:induction false} TrimAbsent(s: string, c: char)
    requires c !in s
    ensures c !in Trim(s)
  {
    var l := TrimLeft(s);
    TrimLeftSpec(s);
    TrimRightSpec(l);
    var r := Trim(s);
    forall k | 0 <= k < |r| ensures r[k] != c {
      assert r[k] == l[k] == s[|s| - |l| + k];
    }
  }

  /** Every string of the list, trimmed. */
  function TrimEach(xs: seq<string>): (r: seq<string>)
    ensures |r| == |xs|
  {
    if xs == [] then [] else TrimEach(xs[..|xs| - 1]) + [Trim(xs[|xs| - 1])]
  }

  /** The i-th trimmed string is the i-th string, trimmed. */
  lemma {:induction false} TrimEachAt(xs: seq<string>, i: nat)
    requires i < |xs|
    ensures TrimEach(xs)[i] == Trim(xs[i])
  {
    var n := |xs| - 1;
    var init := TrimEach(xs[..n]);
    assert TrimEach(xs) == init + [Trim(xs[n])];
    if i < n {
      TrimEachAt(xs[..n], i);
      assert xs[..n][i] == xs[i];
      assert TrimEach(xs)[i] == init[i];
    }
  }

  /** PHP explode($sep, $s): the pieces between non-overlapping occurrences of sep, left to right. */
  function SplitOn(s: string, sep: string): (parts: seq<string>)
    requires sep != []
    ensures |parts| >= 1
    decreases |s|
  {
    if StartsWith(s, sep) then [""] + SplitOn(s[|sep|..], sep)
    else if s == [] then [""]
    else
      var rest := SplitOn(s[1..], sep);
      [[s[0]] + rest[0]] + rest[1..]
  }

  /** PHP implode($sep, $parts). */
  function Join(parts: seq<string>, sep: string): string
  {
    if |parts| == 0 then ""
    else if |parts| == 1 then parts[0]
    else parts[0] + sep + Join(parts[1..], sep)
  }

  /** $s[$i] of explode($c, $s), or "" (PHP's null in a string) when there is no such piece. */
  function Segment(s: string, c: char, i: nat): string
  {
    var parts := SplitOn(s, [c]);
    if i < |parts| then parts[i] else ""
  }

  /** Text before the first occurrence of c (the whole string when c does not occur). */
  function Before(s: string, c: char): (r: string)
    ensures c !in r
    ensures StartsWith(s, r)
    ensures r == s || (|r| < |s| && s[|r|] == c)
  {
    if s == [] then []
    else if s[0] == c then []
    else [s[0]] + Before(s[1..], c)
  }

  /** PHP str_replace($pat, $rep, $s) for one search string: left to right, non-overlapping. */
  function ReplaceAll(s: string, pat: string, rep: string): string
    requires pat != []
    decreases |s|
  {
    if StartsWith(s, pat) then rep + ReplaceAll(s[|pat|..], pat, rep)
    else if s == [] then []
    else [s[0]] + ReplaceAll(s[1..], pat, rep)
  }

  /** PHP substr($s, 0, $n). */
  function Prefix(s: string, n: nat): (r: string)
    ensures |r| == if |s| <= n then |s| else n
    ensures StartsWith(s, r)
  {
    if |s| <= n then s else s[..n]
  }

  /** ucfirst() on an ASCII lower-case first letter; every other string is unchanged. */
  function UcFirst(s: string): (r: string)
    ensures |r| == |s| && (s != [] ==> r[1..] == s[1..])
    ensures s != [] && 'a' <= s[0] <= 'z' ==> r[0] == (s[0] as int - 32) as char
  {
    if s != [] && 'a' <= s[0] <= 'z' then [(s[0] as int - 32) as char] + s[1..] else s
  }

  /** implode() of a piece followed by a non-empty list. */
  lemma {:induction false} JoinCons(a: string, rest: seq<string>, sep: string)
    requires |rest| >= 1
    ensures Join([a] + rest, sep) == a + sep + Join(rest, sep)
  {
    assert ([a] + rest)[1..] == rest;
  }

  /** explode() then implode() with the same separator gives the string back. */
  lemma {:induction false} JoinSplit(s: string, sep: string)
    requires sep != []
    ensures Join(SplitOn(s, sep), sep) == s
    decreases |s|
  {
    if StartsWith(s, sep) {
      var t := s[|sep|..];
      JoinSplit(t, sep);
      var rest := SplitOn(t, sep);
      assert SplitOn(s, sep) == [""] + rest;
      JoinCons("", rest, sep);
      assert s == sep + t;
    } else if s != [] {
      var t := s[1..];
      JoinSplit(t, sep);
      var rest := SplitOn(t, sep);
      assert SplitOn(s, sep) == [[s[0]] + rest[0]] + rest[1..];
      JoinSplitStep(s[0], rest, sep);
      assert s == [s[0]] + t;
    }
  }

  lemma {:induction false} JoinSplitStep(c: char, rest: seq<string>, sep: string)
    requires |rest| >= 1
    ensures Join([[c] + rest[0]] + rest[1..], sep) == [c] + Join(rest, sep)
  {
    if |rest| > 1 {
      JoinCons([c] + rest[0], rest[1..], sep);
      JoinCons(rest[0], rest[1..], sep);
      assert rest == [rest[0]] + rest[1..];
    }
  }

  /** A first piece free of the separator's first character is split off unchanged. */
  lemma {:induction false} SplitOnPrefix(p: string, t: string, sep: string)
    requires sep != [] && sep[0] !in p
    ensures SplitOn(p + t, sep) == [p + SplitOn(t, sep)[0]] + SplitOn(t, sep)[1..]
    decreases |p|
  {
    if p == [] {
      var r := SplitOn(t, sep);
      assert p + t == t;
      assert p + r[0] == r[0];
      assert r == [r[0]] + r[1..];
    } else {
      var s := p + t;
      assert s[0] == p[0];
      assert !StartsWith(s, sep);
      assert s[1..] == p[1..] + t;
      SplitOnPrefix(p[1..], t, sep);
      assert [s[0]] + (p[1..] + SplitOn(t, sep)[0]) == p + SplitOn(t, sep)[0];
    }
  }

  /** implode() then explode() gives the pieces back when no piece holds the separator's first character. */
  lemma {:induction false} SplitJoin(parts: seq<string>, sep: string)
    requires sep != [] && |parts| >= 1
    requires forall i :: 0 <= i < |parts| ==> sep[0] !in parts[i]
    ensures SplitOn(Join(parts, sep), sep) == parts
    decreases |parts|
  {
    if |parts| == 1 {
      SplitOnPrefix(parts[0], "", sep);
      assert parts[0] + "" == parts[0];
    } else {
      var tail := Join(parts[1..], sep);
      SplitJoin(parts[1..], sep);
      assert Join(parts, sep) == parts[0] + (sep + tail);
      SplitOnPrefix(parts[0], sep + tail, sep);
      assert StartsWith(sep + tail, sep);
      assert (sep + tail)[|sep|..] == tail;
      assert SplitOn(sep + tail, sep) == [""] + parts[1..];
      assert parts[0] + "" == parts[0];
    }
  }

  /** The first piece of explode() is the text before the first separator character. */
  lemma {:induction false} FirstSegment(p: string, t: string, c: char)
    requires c !in p
    ensures Segment(p + [c] + t, c, 0) == p
    ensures Segment(p, c, 0) == p
  {
    SplitOnPrefix(p, [c] + t, [c]);
    assert p + [c] + t == p + ([c] + t);
    assert StartsWith([c] + t, [c]);
    assert SplitOn([c] + t, [c])[0] == "";
    assert p + "" == p;
    SplitOnPrefix(p, "", [c]);
    assert p + "" == p;
  }

  /** implode() of a non-empty list with one more piece at the end. */
  lemma {:induction false} JoinSnoc(parts: seq<string>, x: string, sep: string)
    requires |parts| >= 1
    ensures Join(parts + [x], sep) == Join(parts, sep) + sep + x
    decreases |parts|
  {
    if |parts| > 1 {
      JoinSnoc(parts[1..], x, sep);
      assert (parts + [x])[1..] == parts[1..] + [x];
    } else {
      assert (parts + [x])[1..] == [x];
    }
  }

  /** The text after `http://` or `https://`, the schemes `^https?://` accepts. */
  function AfterScheme(s: string): (r: Option<string>)
    ensures r.Some? ==> (|s| - |r.value| == 7 || |s| - |r.value| == 8) && r.value == s[|s| - |r.value|..]
  {
    if StartsWith(s, "http://") then Some(s[7..])
    else if StartsWith(s, "https://") then Some(s[8..])
    else None
  }

  /** Concatenation regrouped to the right, one step at a time. */
  lemma {:induction false} ConcatAssoc(a: string, b: string, c: string)
    ensures a + b + c == a + (b + c)
  {
  }

  /** The pieces of `a`, one character, `b` and `x` laid end to end are found again by slicing. */
  lemma {:induction false} SlicesOfJoined(a: string, c: char, b: string, x: string)
    ensures var s := a + [c] + b + x;
      s[..|a|] == a && s[|a|] == c && s[|a| + 1..|a| + 1 + |b|] == b && s[|a| + 1 + |b|..] == x
  {
    var s := a + [c] + b + x;
    assert s[..|a|] == a;
    assert s[|a| + 1..|a| + 1 + |b|] == b;
    assert s[|a| + 1 + |b|..] == x;
  }

  /**
   * Some element of a non-empty list at or after `start` satisfies p exactly when one of the
   * earlier ones or the last one does.
   */
  lemma {:induction false} ExistsSnoc<T>(s: seq<T>, init: seq<T>, start: nat, p: T -> bool)
    requires s != [] && init == s[..|s| - 1]
    ensures (exists i :: start <= i < |s| && p(s[i])) <==>
      (exists i :: start <= i < |init| && p(init[i])) || (start <= |init| && p(s[|init|]))
  {
    var n := |init|;
    if exists i :: start <= i < |s| && p(s[i]) {
      var i :| start <= i < |s| && p(s[i]);
      if i < n { assert init[i] == s[i]; }
    }
    if exists i :: start <= i < n && p(init[i]) {
      var i :| start <= i < n && p(init[i]);
      assert s[i] == init[i];
    }
  }

  /** The elements of s that satisfy p, each mapped through f, in order. */
  function Keep<T, U>(s: seq<T>, p: T -> bool, f: T -> U): seq<U>
  {
    if s == [] then []
    else Keep(s[..|s| - 1], p, f) + (if p(s[|s| - 1]) then [f(s[|s| - 1])] else [])
  }

  /** Every element that satisfies p is kept. */
  lemma {:induction false} KeepHas<T, U>(s: seq<T>, p: T -> bool, f: T -> U, i: nat)
    requires i < |s| && p(s[i])
    ensures f(s[i]) in Keep(s, p, f)
  {
    var n := |s| - 1;
    if i < n {
      assert s[..n][i] == s[i];
      KeepHas(s[..n], p, f, i);
    }
  }

  /** Everything kept comes from an element that satisfies p. */
  lemma {:induction false} KeepFrom<T, U>(s: seq<T>, p: T -> bool, f: T -> U, y: U) returns (i: nat)
    requires y in Keep(s, p, f)
    ensures i < |s| && p(s[i]) && y == f(s[i])
  {
    var n := |s| - 1;
    if y in Keep(s[..n], p, f) {
      i := KeepFrom(s[..n], p, f, y);
      assert s[..n][i] == s[i];
    } else {
      i := n;
    }
  }

  /** Something is kept exactly when it comes from an element that satisfies p. */
  lemma {:induction false} KeepExact<T, U>(s: seq<T>, p: T -> bool, f: T -> U, y: U)
    ensures y in Keep(s, p, f) <==> exists i :: 0 <= i < |s| && p(s[i]) && f(s[i]) == y
  {
    if y in Keep(s, p, f) {
      var i := KeepFrom(s, p, f, y);
    }
    if exists i :: 0 <= i < |s| && p(s[i]) && f(s[i]) == y {
      var i :| 0 <= i < |s| && p(s[i]) && f(s[i]) == y;
      KeepHas(s, p, f, i);
    }
  }

  /** The last element of s that satisfies p, if any. */
  function LastWhere<T>(s: seq<T>, p: T -> bool): Option<T>
  {
    if s == [] then None
    else if p(s[|s| - 1]) then Some(s[|s| - 1])
    else LastWhere(s[..|s| - 1], p)
  }

  /** When some element satisfies p, there is a last one. */
  lemma {:induction false} LastWhereFinds<T>(s: seq<T>, p: T -> bool, i: nat)
    requires i < |s| && p(s[i])
    ensures LastWhere(s, p).Some?
  {
    var n := |s| - 1;
    if !p(s[n]) {
      assert s[..n][i] == s[i];
      LastWhereFinds(s[..n], p, i);
    }
  }

  /** The last element found is an element of s that satisfies p. */
  lemma {:induction false} LastWhereIndex<T>(s: seq<T>, p: T -> bool) returns (i: nat)
    requires LastWhere(s, p).Some?
    ensures i < |s| && p(s[i]) && LastWhere(s, p) == Some(s[i])
  {
    var n := |s| - 1;
    if p(s[n]) {
      i := n;
    } else {
      i := LastWhereIndex(s[..n], p);
      assert s[..n][i] == s[i];
    }
  }

  /** Appending text keeps a prefix. */
  lemma {:induction false} StartsWithAppend(a: string, b: string, p: string)
    requires StartsWith(a, p)
    ensures StartsWith(a + b, p)
  {
    assert (a + b)[..|p|] == a[..|p|];
  }

  /** Both schemes are accepted, and what follows them is returned whole. */
  lemma {:induction false} AfterSchemeOf(scheme: string, r: string)
    requires scheme == "http://" || scheme == "https://"
    ensures AfterScheme(scheme + r) == Some(r)
  {
    var s := scheme + r;
    assert s[..|scheme|] == scheme && s[|scheme|..] == r;
    if scheme == "https://" {
      assert s[4] == 's';
    }
  }
}
