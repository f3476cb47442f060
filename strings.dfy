/**
 * The pieces of Go's `strings`, `unicode` and `sort` packages, and of the RE2
 * class `\s`, that the parsers rely on. Go strings are compared byte-wise in
 * UTF-8; on Unicode scalar values that is the same order as comparing code
 * points, which is what `LessEq` does on Dafny's `char`.
 */
module Strings {

  /** unicode.IsSpace: the Latin-1 spaces and the other White_Space characters. */
  const UnicodeSpaces: set<char> :=
    {'\t', '\n', '\U{B}', '\U{C}', '\r', ' ', '\U{85}', '\U{A0}', '\U{1680}',
     '\U{2000}', '\U{2001}', '\U{2002}', '\U{2003}', '\U{2004}', '\U{2005}',
     '\U{2006}', '\U{2007}', '\U{2008}', '\U{2009}', '\U{200A}',
     '\U{2028}', '\U{2029}', '\U{202F}', '\U{205F}', '\U{3000}'}

  /**
   * Tab, newline, form feed, carriage return and space: the characters RE2's
   * `\s` matches, and also the separators between the tokens of an HTML class
   * attribute.
   */
  predicate IsAsciiSpace(c: char) {
    c == '\t' || c == '\n' || c == '\U{C}' || c == '\r' || c == ' '
  }

  predicate HasPrefix(s: string, p: string) {
    |p| <= |s| && s[..|p|] == p
  }

  predicate HasSuffix(s: string, p: string) {
    |p| <= |s| && s[|s| - |p|..] == p
  }

  /** strings.Contains: `sub` occurs somewhere in `s`. */
  predicate Contains(s: string, sub: string)
    decreases |s|
  {
    HasPrefix(s, sub) || (s != [] && Contains(s[1..], sub))
  }

  lemma {:induction false} ContainsAt(s: string, sub: string, i: nat)
    requires i + |sub| <= |s| && s[i..i + |sub|] == sub
    ensures Contains(s, sub)
    decreases i
  {
    if i > 0 {
      assert s[1..][i - 1..i - 1 + |sub|] == s[i..i + |sub|];
      ContainsAt(s[1..], sub, i - 1);
    }
  }

  /** Where `sub` occurs in `s`. */
  lemma {:induction false} ContainsWitness(s: string, sub: string) returns (k: nat)
    requires Contains(s, sub)
    ensures k + |sub| <= |s| && s[k..k + |sub|] == sub
    decreases |s|
  {
    if HasPrefix(s, sub) {
      k := 0;
    } else {
      var j := ContainsWitness(s[1..], sub);
      k := j + 1;
      assert s[k..k + |sub|] == s[1..][j..j + |sub|];
    }
  }

  /** What occurs in `b` occurs in `a + b`. */
  lemma {:induction false} ContainsSuffix(a: string, b: string, sub: string)
    requires Contains(b, sub)
    ensures Contains(a + b, sub)
  {
    var j := ContainsWitness(b, sub);
    assert (a + b)[|a| + j..|a| + j + |sub|] == b[j..j + |sub|];
    ContainsAt(a + b, sub, |a| + j);
  }

  lemma {:induction false} PrefixContains(s: string, p: string)
    requires HasPrefix(s, p)
    ensures Contains(s, p)
  {
  }

  /** strings.TrimLeft with a cutset: drops the longest prefix made of cutset characters. */
  function TrimLeft(s: string, cut: set<char>): (r: string)
    ensures |r| <= |s|
    decreases |s|
  {
    if s != [] && s[0] in cut then TrimLeft(s[1..], cut) else s
  }

  /** TrimLeft keeps a suffix, drops only cutset characters, and stops at the first other one. */
  lemma {:induction false} TrimLeftSpec(s: string, cut: set<char>)
    ensures var r := TrimLeft(s, cut);
      && |r| <= |s| && r == s[|s| - |r|..]
      && (forall i :: 0 <= i < |s| - |r| ==> s[i] in cut)
      && (r == [] || r[0] !in cut)
    decreases |s|
  {
    if s != [] && s[0] in cut {
      TrimLeftSpec(s[1..], cut);
      var r := TrimLeft(s, cut);
      assert s[1..][|s| - 1 - |r|..] == s[|s| - |r|..];
      forall i | 0 <= i < |s| - |r| ensures s[i] in cut {
        if i > 0 { assert s[i] == s[1..][i - 1]; }
      }
    }
  }

  /** strings.TrimRight with a cutset: drops the longest suffix made of cutset characters. */
  function TrimRight(s: string, cut: set<char>): (r: string)
    ensures |r| <= |s|
    decreases |s|
  {
    if s != [] && s[|s| - 1] in cut then TrimRight(s[..|s| - 1], cut) else s
  }

  /** TrimRight keeps a prefix, drops only cutset characters, and stops at the last other one. */
  lemma {:induction false} TrimRightSpec(s: string, cut: set<char>)
    ensures var r := TrimRight(s, cut);
      && |r| <= |s| && r == s[..|r|]
      && (forall i :: |r| <= i < |s| ==> s[i] in cut)
      && (r == [] || r[|r| - 1] !in cut)
    decreases |s|
  {
    if s != [] && s[|s| - 1] in cut {
      TrimRightSpec(s[..|s| - 1], cut);
      var r := TrimRight(s, cut);
      assert s[..|s| - 1][..|r|] == s[..|r|];
      forall i | |r| <= i < |s| ensures s[i] in cut {
        if i < |s| - 1 { assert s[i] == s[..|s| - 1][i]; }
      }
    }
  }

  /** strings.Trim: both ends. */
  function Trim(s: string, cut: set<char>): string {
    TrimRight(TrimLeft(s, cut), cut)
  }

  /** strings.TrimSpace. */
  function TrimSpace(s: string): string {
    Trim(s, UnicodeSpaces)
  }

  /** What Trim promises: the result is the slice of the input left after removing the
      `k` leading and the trailing cutset characters, and it neither starts nor ends with one. */
  lemma TrimSpec(s: string, cut: set<char>)
    ensures var r := Trim(s, cut);
      var k := |s| - |TrimLeft(s, cut)|;
      && (r == [] || (r[0] !in cut && r[|r| - 1] !in cut))
      && k + |r| <= |s| && r == s[k..k + |r|]
      && (forall i :: 0 <= i < k ==> s[i] in cut)
      && (forall i :: k + |r| <= i < |s| ==> s[i] in cut)
  {
    var l := TrimLeft(s, cut);
    var r := TrimRight(l, cut);
    var k := |s| - |l|;
    TrimLeftSpec(s, cut);
    TrimRightSpec(l, cut);
    assert r == s[k..k + |r|];
    if r != [] {
      assert r[0] == l[0];
    }
    forall i | k + |r| <= i < |s| ensures s[i] in cut {
      assert s[i] == l[i - k];
    }
  }

  /** Trimming both ends keeps the property that no two `\s` characters are adjacent. */
  lemma TrimKeepsSeparatedSpaces(s: string, cut: set<char>)
    requires forall i :: 0 <= i < |s| - 1 ==> !(IsAsciiSpace(s[i]) && IsAsciiSpace(s[i + 1]))
    ensures var r := Trim(s, cut);
      forall i :: 0 <= i < |r| - 1 ==> !(IsAsciiSpace(r[i]) && IsAsciiSpace(r[i + 1]))
  {
    TrimSpec(s, cut);
    var r := Trim(s, cut);
    var k := |s| - |TrimLeft(s, cut)|;
    forall i | 0 <= i < |r| - 1 ensures !(IsAsciiSpace(r[i]) && IsAsciiSpace(r[i + 1])) {
      assert r[i] == s[k + i] && r[i + 1] == s[k + i + 1];
    }
  }

  /** strings.TrimSuffix. */
  function TrimSuffix(s: string, suffix: string): (r: string)
    ensures HasSuffix(s, suffix) ==> r + suffix == s
    ensures !HasSuffix(s, suffix) ==> r == s
  {
    if HasSuffix(s, suffix) then s[..|s| - |suffix|] else s
  }

  /** Length of the leading run of `\s` characters. */
  function SpaceRun(s: string): (n: nat)
    ensures n <= |s|
    decreases |s|
  {
    if s == [] || !IsAsciiSpace(s[0]) then 0 else 1 + SpaceRun(s[1..])
  }

  /** A white-space prefix followed by something else is the whole run. */
  lemma {:induction false} SpaceRunOf(w: string, rest: string)
    requires forall i :: 0 <= i < |w| ==> IsAsciiSpace(w[i])
    requires rest == [] || !IsAsciiSpace(rest[0])
    ensures SpaceRun(w + rest) == |w|
    decreases |w|
  {
    if w != [] {
      assert (w + rest)[1..] == w[1..] + rest;
      SpaceRunOf(w[1..], rest);
    } else {
      assert w + rest == rest;
    }
  }

  /**
   * regexp.MustCompile(`\s\s+`).ReplaceAllString(s, " "): scanning from the left,
   * every maximal run of two or more `\s` characters becomes one space; a lone
   * `\s` character is kept as it is. No two `\s` characters are left side by side.
   */
  function CollapseSpaceRuns(s: string): string
    decreases |s|
  {
    if |s| >= 2 && IsAsciiSpace(s[0]) && IsAsciiSpace(s[1]) then
      " " + CollapseSpaceRuns(s[SpaceRun(s)..])
    else if s == [] then
      []
    else
      [s[0]] + CollapseSpaceRuns(s[1..])
  }

  /** After a run the next character, if any, is not a `\s` character. */
  lemma {:induction false} SpaceRunEnds(s: string)
    ensures SpaceRun(s) < |s| ==> !IsAsciiSpace(s[SpaceRun(s)])
    decreases |s|
  {
    if s != [] && IsAsciiSpace(s[0]) {
      SpaceRunEnds(s[1..]);
      if SpaceRun(s) < |s| {
        assert s[SpaceRun(s)] == s[1..][SpaceRun(s[1..])];
      }
    }
  }

  /** The collapsed text starts with a `\s` character exactly when the input does, and has no two side by side. */
  lemma {:induction false} CollapseSpaceRunsSpec(s: string)
    ensures var r := CollapseSpaceRuns(s);
      && ((r != [] && IsAsciiSpace(r[0])) <==> (s != [] && IsAsciiSpace(s[0])))
      && forall i :: 0 <= i < |r| - 1 ==> !(IsAsciiSpace(r[i]) && IsAsciiSpace(r[i + 1]))
    decreases |s|
  {
    var r := CollapseSpaceRuns(s);
    if |s| >= 2 && IsAsciiSpace(s[0]) && IsAsciiSpace(s[1]) {
      var t := s[SpaceRun(s)..];
      SpaceRunEnds(s);
      CollapseSpaceRunsSpec(t);
      var rt := CollapseSpaceRuns(t);
      assert r == " " + rt;
      forall i | 0 <= i < |r| - 1 ensures !(IsAsciiSpace(r[i]) && IsAsciiSpace(r[i + 1])) {
        if i > 0 { assert r[i] == rt[i - 1] && r[i + 1] == rt[i]; }
      }
    } else if s != [] {
      var t := s[1..];
      CollapseSpaceRunsSpec(t);
      var rt := CollapseSpaceRuns(t);
      assert r == [s[0]] + rt;
      forall i | 0 <= i < |r| - 1 ensures !(IsAsciiSpace(r[i]) && IsAsciiSpace(r[i + 1])) {
        if i > 0 { assert r[i] == rt[i - 1] && r[i + 1] == rt[i]; }
      }
    }
  }

  /** The characters of `s` that are not `\s` characters, in order. */
  function NonSpaces(s: string): string {
    if s == [] then [] else (if IsAsciiSpace(s[0]) then [] else [s[0]]) + NonSpaces(s[1..])
  }

  lemma {:induction false} NonSpacesAppend(a: string, b: string)
    ensures NonSpaces(a + b) == NonSpaces(a) + NonSpaces(b)
  {
    if a != [] {
      assert (a + b)[1..] == a[1..] + b;
      NonSpacesAppend(a[1..], b);
    } else {
      assert a + b == b;
    }
  }

  lemma {:induction false} NonSpacesAfterRun(s: string)
    ensures NonSpaces(s) == NonSpaces(s[SpaceRun(s)..])
    decreases |s|
  {
    if s != [] && IsAsciiSpace(s[0]) {
      NonSpacesAfterRun(s[1..]);
      assert s[1..][SpaceRun(s[1..])..] == s[SpaceRun(s)..];
    }
  }

  /** Collapsing runs of white space changes only white space: the other characters stay, in order. */
  lemma {:induction false} CollapseKeepsNonSpaces(s: string)
    ensures NonSpaces(CollapseSpaceRuns(s)) == NonSpaces(s)
    decreases |s|
  {
    if |s| >= 2 && IsAsciiSpace(s[0]) && IsAsciiSpace(s[1]) {
      var t := s[SpaceRun(s)..];
      CollapseKeepsNonSpaces(t);
      NonSpacesAppend(" ", CollapseSpaceRuns(t));
      NonSpacesAfterRun(s);
    } else if s != [] {
      CollapseKeepsNonSpaces(s[1..]);
      NonSpacesAppend([s[0]], CollapseSpaceRuns(s[1..]));
    }
  }

  /** `r` is `s` with `k` leading and some trailing characters of `cut` removed. */
  predicate TrimmedAt(s: string, r: string, k: nat, cut: set<char>) {
    && k + |r| <= |s| && r == s[k..k + |r|]
    && (forall i :: 0 <= i < k ==> s[i] in cut)
    && (forall i :: k + |r| <= i < |s| ==> s[i] in cut)
  }

  /** strings.ToLower on ASCII letters; every other character is kept. */
  function ToLower(s: string): string {
    seq(|s|, i requires 0 <= i < |s| =>
      if 'A' <= s[i] <= 'Z' then (s[i] as int - 'A' as int + 'a' as int) as char else s[i])
  }

  /** ToLower keeps the length, leaves no upper-case ASCII letter and changes nothing else. */
  lemma ToLowerSpec(s: string)
    ensures var r := ToLower(s);
      && |r| == |s|
      && (forall i :: 0 <= i < |s| ==> !('A' <= r[i] <= 'Z'))
      && (forall i :: 0 <= i < |s| ==> !('A' <= s[i] <= 'Z') ==> r[i] == s[i])
      && (forall i :: 0 <= i < |s| ==> 'A' <= s[i] <= 'Z' ==> r[i] as int == s[i] as int + 32)
  {
  }

  /** strings.Join(parts, ""). */
  function Concat(parts: seq<string>): string {
    if parts == [] then "" else parts[0] + Concat(parts[1..])
  }

  lemma {:induction false} ConcatAppend(a: seq<string>, b: seq<string>)
    ensures Concat(a + b) == Concat(a) + Concat(b)
  {
    if a != [] {
      assert (a + b)[1..] == a[1..] + b;
      ConcatAppend(a[1..], b);
    } else {
      assert a + b == b;
    }
  }

  /** strings.Join. */
  function Join(parts: seq<string>, sep: string): string {
    if parts == [] then ""
    else if |parts| == 1 then parts[0]
    else parts[0] + sep + Join(parts[1..], sep)
  }

  /** The length of the leading run of non-separator characters. */
  function WordLength(s: string): (n: nat)
    ensures n <= |s|
    decreases |s|
  {
    if s == [] || IsAsciiSpace(s[0]) then 0 else 1 + WordLength(s[1..])
  }

  /** strings.Fields on the HTML separators: the tokens of a class attribute, in order. */
  function Fields(s: string): seq<string>
    decreases |s|
  {
    if s == [] then []
    else if IsAsciiSpace(s[0]) then Fields(s[1..])
    else
      var n := WordLength(s);
      [s[..n]] + Fields(s[n..])
  }

  lemma {:induction false} WordLengthSpec(s: string)
    ensures var n := WordLength(s);
      && (forall i :: 0 <= i < n ==> !IsAsciiSpace(s[i]))
      && (n < |s| ==> IsAsciiSpace(s[n]))
    decreases |s|
  {
    if s != [] && !IsAsciiSpace(s[0]) {
      WordLengthSpec(s[1..]);
      var n := WordLength(s);
      forall i | 0 <= i < n ensures !IsAsciiSpace(s[i]) {
        if i > 0 { assert s[i] == s[1..][i - 1]; }
      }
      if n < |s| { assert s[n] == s[1..][n - 1]; }
    }
  }

  /** A class token: non-empty, with no separator in it. */
  predicate IsToken(w: string) {
    w != [] && forall i :: 0 <= i < |w| ==> !IsAsciiSpace(w[i])
  }

  /** Every token Fields yields is a proper token. */
  lemma {:induction false} FieldsSpec(s: string)
    ensures forall k :: 0 <= k < |Fields(s)| ==> IsToken(Fields(s)[k])
    decreases |s|
  {
    if s != [] {
      if IsAsciiSpace(s[0]) {
        FieldsSpec(s[1..]);
      } else {
        var n := WordLength(s);
        WordLengthSpec(s);
        FieldsSpec(s[n..]);
        var r := Fields(s);
        assert r == [s[..n]] + Fields(s[n..]);
        forall k | 0 <= k < |r| ensures IsToken(r[k]) {
          if k > 0 { assert r[k] == Fields(s[n..])[k - 1]; }
        }
      }
    }
  }

  lemma {:induction false} WordLengthOfToken(w: string)
    requires forall i :: 0 <= i < |w| ==> !IsAsciiSpace(w[i])
    ensures WordLength(w) == |w|
    decreases |w|
  {
    if w != [] {
      assert forall i :: 0 <= i < |w[1..]| ==> w[1..][i] == w[i + 1];
      WordLengthOfToken(w[1..]);
    }
  }

  /** A class attribute holding one token has that token as its only field. */
  lemma FieldsOfToken(w: string)
    requires IsToken(w)
    ensures Fields(w) == [w]
  {
    WordLengthOfToken(w);
    assert w[..|w|] == w;
    assert w[|w|..] == [];
  }

  /** A token never straddles a separator: any token of `s` is a token of `s + t` whenever
      `t` starts with a separator. */
  lemma {:induction false} FieldsOfSeparated(s: string, t: string)
    requires t != [] && IsAsciiSpace(t[0])
    ensures Fields(s + t) == Fields(s) + Fields(t)
    decreases |s|
  {
    if s == [] {
      assert s + t == t;
    } else if IsAsciiSpace(s[0]) {
      assert (s + t)[1..] == s[1..] + t;
      FieldsOfSeparated(s[1..], t);
    } else {
      var n := WordLength(s);
      WordLengthOfSeparated(s, t);
      assert (s + t)[..n] == s[..n];
      assert (s + t)[n..] == s[n..] + t;
      FieldsOfSeparated(s[n..], t);
    }
  }

  lemma {:induction false} WordLengthOfSeparated(s: string, t: string)
    requires t != [] && IsAsciiSpace(t[0])
    ensures WordLength(s + t) == WordLength(s)
    decreases |s|
  {
    if s == [] {
      assert s + t == t;
    } else if !IsAsciiSpace(s[0]) {
      assert (s + t)[1..] == s[1..] + t;
      WordLengthOfSeparated(s[1..], t);
    }
  }

  // ---------------------------------------------------------------------------
  // Ordering and sort.Strings

  /** Lexicographic order by code point (Go's `<=` on strings). */
  predicate LessEq(a: string, b: string)
    decreases |a|
  {
    a == [] || (b != [] && (a[0] < b[0] || (a[0] == b[0] && LessEq(a[1..], b[1..]))))
  }

  lemma {:induction false} LessEqTotal(a: string, b: string)
    ensures LessEq(a, b) || LessEq(b, a)
    decreases |a|
  {
    if a != [] && b != [] && a[0] == b[0] {
      LessEqTotal(a[1..], b[1..]);
    }
  }

  lemma {:induction false} LessEqTransitive(a: string, b: string, c: string)
    requires LessEq(a, b) && LessEq(b, c)
    ensures LessEq(a, c)
    decreases |a|
  {
    if a != [] && a[0] == b[0] && b[0] == c[0] {
      LessEqTransitive(a[1..], b[1..], c[1..]);
    }
  }

  lemma {:induction false} LessEqAntisymmetric(a: string, b: string)
    requires LessEq(a, b) && LessEq(b, a)
    ensures a == b
    decreases |a|
  {
    if a != [] {
      LessEqAntisymmetric(a[1..], b[1..]);
      assert a == [a[0]] + a[1..] && b == [b[0]] + b[1..];
    }
  }

  lemma {:induction false} LessEqReflexive(a: string)
    ensures LessEq(a, a)
    decreases |a|
  {
    if a != [] {
      LessEqReflexive(a[1..]);
    }
  }

  predicate Sorted(s: seq<string>) {
    forall i, j :: 0 <= i < j < |s| ==> LessEq(s[i], s[j])
  }

  /** One step of insertion sort: `x` goes in front of the first element it does not exceed. */
  function Insert(x: string, s: seq<string>): seq<string> {
    if s == [] then [x]
    else if LessEq(x, s[0]) then [x] + s
    else [s[0]] + Insert(x, s[1..])
  }

  lemma SortedCons(y: string, t: seq<string>)
    requires Sorted(t) && forall z :: z in multiset(t) ==> LessEq(y, z)
    ensures Sorted([y] + t)
  {
    var u := [y] + t;
    forall i, j | 0 <= i < j < |u| ensures LessEq(u[i], u[j]) {
      if i == 0 {
        assert u[j] == t[j - 1] && t[j - 1] in multiset(t);
      } else {
        assert u[i] == t[i - 1] && u[j] == t[j - 1];
      }
    }
  }

  lemma SortedTail(s: seq<string>)
    requires Sorted(s) && s != []
    ensures Sorted(s[1..])
  {
    var tail := s[1..];
    forall i, j | 0 <= i < j < |tail| ensures LessEq(tail[i], tail[j]) {
      assert tail[i] == s[i + 1] && tail[j] == s[j + 1];
    }
  }

  lemma {:induction false} InsertSpec(x: string, s: seq<string>)
    requires Sorted(s)
    ensures Sorted(Insert(x, s))
    ensures multiset(Insert(x, s)) == multiset(s) + multiset{x}
  {
    if s == [] {
    } else if LessEq(x, s[0]) {
      forall z | z in multiset(s) ensures LessEq(x, z) {
        var j :| 0 <= j < |s| && s[j] == z;
        if j > 0 { LessEqTransitive(x, s[0], s[j]); }
      }
      SortedCons(x, s);
    } else {
      LessEqTotal(x, s[0]);
      var tail := s[1..];
      SortedTail(s);
      InsertSpec(x, tail);
      var t := Insert(x, tail);
      assert s == [s[0]] + tail;
      forall z | z in multiset(t) ensures LessEq(s[0], z) {
        if z != x {
          assert z in multiset(tail);
          var j :| 0 <= j < |tail| && tail[j] == z;
          assert s[j + 1] == z;
        }
      }
      SortedCons(s[0], t);
      assert Insert(x, s) == [s[0]] + t;
    }
  }

  /** sort.Strings. */
  function Sort(s: seq<string>): seq<string> {
    if s == [] then [] else Insert(s[0], Sort(s[1..]))
  }

  /** Sort yields ascending order and a permutation of its input. */
  lemma {:induction false} SortSpec(s: seq<string>)
    ensures Sorted(Sort(s))
    ensures multiset(Sort(s)) == multiset(s)
  {
    if s != [] {
      SortSpec(s[1..]);
      InsertSpec(s[0], Sort(s[1..]));
      assert s == [s[0]] + s[1..];
    }
  }

  lemma SortedHeadIsLeast(a: seq<string>, y: string)
    requires Sorted(a) && y in a
    ensures LessEq(a[0], y)
  {
    var i :| 0 <= i < |a| && a[i] == y;
    if i == 0 { LessEqReflexive(y); }
  }

  lemma MultisetOfTail(a: seq<string>)
    requires a != []
    ensures multiset(a[1..]) == multiset(a) - multiset{a[0]}
  {
    assert a == [a[0]] + a[1..];
  }

  /** A sorted permutation is unique, so any sorting algorithm (sort.Strings is not an
      insertion sort) yields exactly what `Sort` yields. */
  lemma {:induction false} SortedPermutationUnique(a: seq<string>, b: seq<string>)
    requires Sorted(a) && Sorted(b) && multiset(a) == multiset(b)
    ensures a == b
    decreases |a|
  {
    assert |a| == |multiset(a)| == |multiset(b)| == |b|;
    if a != [] {
      assert a[0] in multiset(b);
      assert b[0] in multiset(a);
      SortedHeadIsLeast(b, a[0]);
      SortedHeadIsLeast(a, b[0]);
      LessEqAntisymmetric(a[0], b[0]);
      MultisetOfTail(a);
      MultisetOfTail(b);
      SortedTail(a);
      SortedTail(b);
      SortedPermutationUnique(a[1..], b[1..]);
      assert a == [a[0]] + a[1..] && b == [b[0]] + b[1..];
    }
  }
}
