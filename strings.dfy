/** The parts of Python's `str` that the converter relies on, restricted to
    ASCII text: `split`, `join`, `strip`, `lower`, `startswith`, slicing,
    `re.sub` of a negated character class, and decimal formatting. */
module Strings {

  datatype Option<T> = None | Some(value: T)

  // ---------------------------------------------------------------------
  // Character classes

  predicate IsUpper(c: char) { 'A' <= c <= 'Z' }
  predicate IsLower(c: char) { 'a' <= c <= 'z' }
  predicate IsLetter(c: char) { IsUpper(c) || IsLower(c) }
  predicate IsDigit(c: char) { '0' <= c <= '9' }

  /** `\w` for ASCII text: letters, digits and the underscore. */
  predicate IsWordChar(c: char) { IsLetter(c) || IsDigit(c) || c == '_' }

  /** The complement of the class `[^a-zA-Z ]`. */
  predicate IsLetterOrSpace(c: char) { IsLetter(c) || c == ' ' }

  /** `str.isspace` for ASCII: tab, line feed, vertical tab, form feed,
      carriage return, the four information separators and space. */
  predicate IsSpace(c: char) {
    c == ' ' || 9 <= c as int <= 13 || 28 <= c as int <= 31
  }

  function Count(s: string, c: char): nat {
    if s == [] then 0 else (if s[0] == c then 1 else 0) + Count(s[1..], c)
  }

  lemma {:induction false} CountAppend(a: string, b: string, c: char)
    ensures Count(a + b, c) == Count(a, c) + Count(b, c)
  {
    if a == [] {
      assert a + b == b;
    } else {
      assert (a + b)[0] == a[0];
      assert (a + b)[1..] == a[1..] + b;
      CountAppend(a[1..], b, c);
    }
  }

  lemma {:induction false} CountAbsent(s: string, c: char)
    requires c !in s
    ensures Count(s, c) == 0
  {
    if s != [] {
      CountAbsent(s[1..], c);
    }
  }

  /** Two strings of equal length that agree, position by position, on
      whether the character is `c` hold the same number of `c`s. */
  lemma {:induction false} CountAligned(s: string, t: string, c: char)
    requires |s| == |t|
    requires forall i :: 0 <= i < |s| ==> (s[i] == c <==> t[i] == c)
    ensures Count(s, c) == Count(t, c)
  {
    if s != [] {
      CountAligned(s[1..], t[1..], c);
    }
  }

  lemma ConcatAssoc<T>(a: seq<T>, b: seq<T>, c: seq<T>)
    ensures (a + b) + c == a + (b + c)
  {
  }

  // ---------------------------------------------------------------------
  // lower, startswith

  function LowerChar(c: char): char {
    if IsUpper(c) then (c as int + 32) as char else c
  }

  /** `str.lower` on ASCII text. */
  function Lower(s: string): (r: string)
    ensures |r| == |s|
    ensures forall i :: 0 <= i < |s| ==> r[i] == LowerChar(s[i])
    ensures forall ch :: ch in r ==> !IsUpper(ch)
  {
    seq(|s|, i requires 0 <= i < |s| => LowerChar(s[i]))
  }

  predicate StartsWith(s: string, prefix: string) {
    |prefix| <= |s| && s[..|prefix|] == prefix
  }

  // ---------------------------------------------------------------------
  // strip

  function LeadingSpaces(s: string): (k: nat)
    ensures k <= |s|
    ensures forall i :: 0 <= i < k ==> IsSpace(s[i])
    ensures k < |s| ==> !IsSpace(s[k])
  {
    if s != [] && IsSpace(s[0]) then 1 + LeadingSpaces(s[1..]) else 0
  }

  function TrailingSpaces(s: string): (k: nat)
    ensures k <= |s|
    ensures forall i :: |s| - k <= i < |s| ==> IsSpace(s[i])
    ensures k < |s| ==> !IsSpace(s[|s| - 1 - k])
  {
    if s != [] && IsSpace(s[|s| - 1]) then 1 + TrailingSpaces(s[..|s| - 1]) else 0
  }

  /** `str.strip()`: drops the leading and the trailing whitespace, and
      nothing else. */
  function Strip(s: string): (r: string)
    ensures LeadingSpaces(s) + |r| <= |s|
    ensures r == s[LeadingSpaces(s)..LeadingSpaces(s) + |r|]
    ensures forall i :: LeadingSpaces(s) + |r| <= i < |s| ==> IsSpace(s[i])
    ensures r != [] ==> !IsSpace(r[0]) && !IsSpace(r[|r| - 1])
  {
    var a := LeadingSpaces(s);
    if a == |s| then []
    else
      var b := TrailingSpaces(s);
      assert b < |s| - a;
      s[a..|s| - b]
  }

  lemma StripChars(s: string)
    ensures forall ch :: ch in Strip(s) ==> ch in s
  {
    var r := Strip(s);
    var a := LeadingSpaces(s);
    forall ch | ch in r ensures ch in s {
      var k :| 0 <= k < |r| && r[k] == ch;
      assert s[a + k] == ch;
    }
  }

  // ---------------------------------------------------------------------
  // split and join

  function IndexOf(s: string, c: char): (i: nat)
    requires c in s
    ensures i < |s| && s[i] == c && c !in s[..i]
  {
    if s[0] == c then 0 else 1 + IndexOf(s[1..], c)
  }

  /** `sep.join(parts)`. */
  function Join(parts: seq<string>, sep: string): string {
    if parts == [] then ""
    else if |parts| == 1 then parts[0]
    else parts[0] + sep + Join(parts[1..], sep)
  }

  /** `s.split(c)` with no limit: the pieces between consecutive
      occurrences of `c`; there is always at least one piece. */
  function Split(s: string, c: char): (parts: seq<string>)
    ensures |parts| == Count(s, c) + 1
    ensures forall i :: 0 <= i < |parts| ==> c !in parts[i]
    decreases |s|
  {
    if c !in s then
      CountAbsent(s, c);
      [s]
    else
      var i := IndexOf(s, c);
      var rest := Split(s[i + 1..], c);
      CountAfterFirst(s, c);
      [s[..i]] + rest
  }

  /** Joining the pieces with `c` gives the string back. */
  lemma {:induction false} SplitJoin(s: string, c: char)
    ensures Join(Split(s, c), [c]) == s
    decreases |s|
  {
    if c in s {
      var i := IndexOf(s, c);
      var rest := Split(s[i + 1..], c);
      SplitJoin(s[i + 1..], c);
      JoinBack(s, i, c, rest, Split(s, c));
    }
  }

  /** `s.split(c, n)` for `n >= 0`: at most `n` cuts, made at the first
      occurrences of `c`; the last piece absorbs the remainder. */
  function SplitAtMost(s: string, c: char, n: nat): (parts: seq<string>)
    ensures 1 <= |parts| <= n + 1
    decreases n
  {
    if n == 0 || c !in s then [s]
    else
      var i := IndexOf(s, c);
      [s[..i]] + SplitAtMost(s[i + 1..], c, n - 1)
  }

  /** Joining the pieces with `c` gives the string back. */
  lemma {:induction false} SplitAtMostJoin(s: string, c: char, n: nat)
    ensures Join(SplitAtMost(s, c, n), [c]) == s
    decreases n
  {
    if n > 0 && c in s {
      var i := IndexOf(s, c);
      var rest := SplitAtMost(s[i + 1..], c, n - 1);
      SplitAtMostJoin(s[i + 1..], c, n - 1);
      JoinBack(s, i, c, rest, SplitAtMost(s, c, n));
    }
  }

  /** The cuts are made at the first occurrences: no piece but the last
      holds `c`. */
  lemma {:induction false} SplitAtMostPieces(s: string, c: char, n: nat)
    ensures forall j :: 0 <= j < |SplitAtMost(s, c, n)| - 1 ==> c !in SplitAtMost(s, c, n)[j]
    decreases n
  {
    if n > 0 && c in s {
      var i := IndexOf(s, c);
      var rest := SplitAtMost(s[i + 1..], c, n - 1);
      SplitAtMostPieces(s[i + 1..], c, n - 1);
      PiecesBack(s[..i], rest, c, SplitAtMost(s, c, n));
    }
  }

  lemma PiecesBack(p: string, rest: seq<string>, c: char, parts: seq<string>)
    requires c !in p && parts == [p] + rest
    requires forall j :: 0 <= j < |rest| - 1 ==> c !in rest[j]
    ensures forall j :: 0 <= j < |parts| - 1 ==> c !in parts[j]
  {
    forall j | 0 <= j < |parts| - 1
      ensures c !in parts[j]
    {
      if j > 0 {
        assert parts[j] == rest[j - 1];
      }
    }
  }

  /** The number of pieces: one more than the cuts, which are all the
      occurrences of `c` up to the limit. */
  lemma {:induction false} SplitAtMostCount(s: string, c: char, n: nat)
    ensures |SplitAtMost(s, c, n)| == (if Count(s, c) < n then Count(s, c) else n) + 1
    decreases n
  {
    if c !in s {
      CountAbsent(s, c);
    } else if n > 0 {
      var i := IndexOf(s, c);
      var rest := SplitAtMost(s[i + 1..], c, n - 1);
      assert SplitAtMost(s, c, n) == [s[..i]] + rest;
      SplitAtMostCount(s[i + 1..], c, n - 1);
      CountAfterFirst(s, c);
    }
  }

  /** Below the limit the last piece holds no `c` either. */
  lemma {:induction false} SplitAtMostLast(s: string, c: char, n: nat)
    ensures var parts := SplitAtMost(s, c, n);
            |parts| < n + 1 ==> c !in parts[|parts| - 1]
    decreases n
  {
    if n > 0 && c in s {
      var i := IndexOf(s, c);
      var rest := SplitAtMost(s[i + 1..], c, n - 1);
      assert SplitAtMost(s, c, n) == [s[..i]] + rest;
      SplitAtMostLast(s[i + 1..], c, n - 1);
      LastOfCons(s[..i], rest);
    } else {
      assert SplitAtMost(s, c, n) == [s];
    }
  }

  lemma LastOfCons<T>(x: T, r: seq<T>)
    requires r != []
    ensures |[x] + r| == |r| + 1 && ([x] + r)[|r|] == r[|r| - 1]
  {
  }

  /** Putting back the cut: the piece before `c`, then `c`, then the
      join of the pieces after it. */
  lemma JoinBack(s: string, i: nat, c: char, rest: seq<string>, parts: seq<string>)
    requires i < |s| && s[i] == c
    requires rest != [] && Join(rest, [c]) == s[i + 1..]
    requires parts == [s[..i]] + rest
    ensures Join(parts, [c]) == s
  {
    JoinCons(s[..i], rest, [c]);
    assert s[..i] + [c] + s[i + 1..] == s;
  }

  /** Cutting at the first occurrence of `c` takes one occurrence away. */
  lemma CountAfterFirst(s: string, c: char)
    requires c in s
    ensures Count(s, c) == Count(s[IndexOf(s, c) + 1..], c) + 1
  {
    var i := IndexOf(s, c);
    assert s == s[..i] + [c] + s[i + 1..];
    CountAppend(s[..i] + [c], s[i + 1..], c);
    CountAppend(s[..i], [c], c);
    CountAbsent(s[..i], c);
  }

  lemma JoinCons(p: string, rest: seq<string>, sep: string)
    requires rest != []
    ensures Join([p] + rest, sep) == p + sep + Join(rest, sep)
  {
    assert ([p] + rest)[1..] == rest;
  }

  /** `s.split(c, n)`: a negative `n` means no limit, as in Python. */
  function SplitN(s: string, c: char, n: int): (parts: seq<string>)
    ensures |parts| >= 1
    ensures n >= 0 ==> |parts| <= n + 1
  {
    if n < 0 then Split(s, c) else SplitAtMost(s, c, n)
  }

  lemma SplitNJoin(s: string, c: char, n: int)
    ensures Join(SplitN(s, c, n), [c]) == s
  {
    if n < 0 {
      SplitJoin(s, c);
    } else {
      SplitAtMostJoin(s, c, n);
    }
  }

  lemma {:induction false} SplitChars(s: string, c: char)
    ensures forall i, ch :: 0 <= i < |Split(s, c)| && ch in Split(s, c)[i] ==> ch in s
    decreases |s|
  {
    if c in s {
      var i := IndexOf(s, c);
      var rest := Split(s[i + 1..], c);
      SplitChars(s[i + 1..], c);
      assert Split(s, c) == [s[..i]] + rest;
      forall j, ch | 0 <= j < |Split(s, c)| && ch in Split(s, c)[j]
        ensures ch in s
      {
        if j == 0 {
          var k :| 0 <= k < i && s[..i][k] == ch;
          assert s[k] == ch;
        } else {
          var tail := s[i + 1..];
          assert ch in rest[j - 1];
          assert ch in tail;
          var k :| 0 <= k < |tail| && tail[k] == ch;
          assert s[i + 1 + k] == ch;
        }
      }
    }
  }

  // ---------------------------------------------------------------------
  // split() on whitespace

  function WordLength(s: string): (k: nat)
    requires s != [] && !IsSpace(s[0])
    ensures 1 <= k <= |s|
    ensures forall i :: 0 <= i < k ==> !IsSpace(s[i])
    ensures k < |s| ==> IsSpace(s[k])
  {
    if |s| == 1 || IsSpace(s[1]) then 1 else 1 + WordLength(s[1..])
  }

  /** `s.split()` with no separator: the maximal runs of non-whitespace
      characters, in order. */
  function Words(s: string): (ws: seq<string>)
    ensures forall i :: 0 <= i < |ws| ==> ws[i] != []
    ensures forall i, ch :: 0 <= i < |ws| && ch in ws[i] ==> ch in s && !IsSpace(ch)
    decreases |s|
  {
    if s == [] then []
    else if IsSpace(s[0]) then
      assert forall ch :: ch in s[1..] ==> ch in s;
      Words(s[1..])
    else
      var k := WordLength(s);
      assert forall ch :: ch in s[..k] ==> ch in s;
      assert forall ch :: ch in s[k..] ==> ch in s;
      [s[..k]] + Words(s[k..])
  }

  /** The length of the first word is the only length whose characters are
      all non-space and that ends at a space or at the end. */
  lemma WordLengthIs(s: string, k: nat)
    requires s != [] && !IsSpace(s[0]) && 1 <= k <= |s|
    requires forall i :: 0 <= i < k ==> !IsSpace(s[i])
    requires k < |s| ==> IsSpace(s[k])
    ensures WordLength(s) == k
  {
  }

  /** A string holding only whitespace has no words. */
  lemma {:induction false} WordsBlank(s: string)
    requires forall i :: 0 <= i < |s| ==> IsSpace(s[i])
    ensures Words(s) == []
    decreases |s|
  {
    if s != [] {
      WordsBlank(s[1..]);
    }
  }

  /** A non-empty string without whitespace is one word. */
  lemma WordsWord(w: string)
    requires w != [] && forall i :: 0 <= i < |w| ==> !IsSpace(w[i])
    ensures Words(w) == [w]
  {
    WordLengthIs(w, |w|);
    assert w[..|w|] == w;
    assert w[|w|..] == [];
  }

  /** Splitting at a whitespace character: the words of both sides, in
      order. */
  lemma {:induction false} WordsSplit(a: string, c: char, b: string)
    requires IsSpace(c)
    ensures Words(a + [c] + b) == Words(a) + Words(b)
    decreases |a|
  {
    var s := a + [c] + b;
    if a == [] {
      assert s[1..] == b;
    } else if IsSpace(a[0]) {
      assert s[1..] == a[1..] + [c] + b;
      WordsSplit(a[1..], c, b);
    } else {
      var k := WordLength(a);
      WordLengthIs(s, k);
      assert s[..k] == a[..k];
      assert s[k..] == a[k..] + [c] + b;
      WordsSplit(a[k..], c, b);
    }
  }

  // ---------------------------------------------------------------------
  // re.sub('[^...]+', rep, s)

  function RunLength(s: string, keep: char -> bool): (k: nat)
    requires s != [] && !keep(s[0])
    ensures 1 <= k <= |s|
    ensures forall i :: 0 <= i < k ==> !keep(s[i])
    ensures k < |s| ==> keep(s[k])
  {
    if |s| == 1 || keep(s[1]) then 1 else 1 + RunLength(s[1..], keep)
  }

  /** `re.sub('[^K]+', [rep], s)` where `keep` is the class K: every
      maximal run of characters outside K becomes one `rep`. */
  function SubRuns(s: string, keep: char -> bool, rep: char): (r: string)
    ensures |r| <= |s|
    ensures r == [] <==> s == []
    decreases |s|
  {
    if s == [] then []
    else if keep(s[0]) then [s[0]] + SubRuns(s[1..], keep, rep)
    else
      var k := RunLength(s, keep);
      [rep] + SubRuns(s[k..], keep, rep)
  }

  /** Every character of the result is `rep` or a kept character of the
      input. */
  lemma {:induction false} SubRunsChars(s: string, keep: char -> bool, rep: char)
    ensures forall ch :: ch in SubRuns(s, keep, rep) ==> ch == rep || (ch in s && keep(ch))
    decreases |s|
  {
    if s != [] {
      if keep(s[0]) {
        SubRunsChars(s[1..], keep, rep);
        assert forall ch :: ch in s[1..] ==> ch in s;
      } else {
        var k := RunLength(s, keep);
        SubRunsChars(s[k..], keep, rep);
        assert forall ch :: ch in s[k..] ==> ch in s;
      }
    }
  }

  /** Text made only of kept characters is left unchanged. */
  lemma {:induction false} SubRunsKeepsKept(s: string, keep: char -> bool, rep: char)
    requires forall i :: 0 <= i < |s| ==> keep(s[i])
    ensures SubRuns(s, keep, rep) == s
  {
    if s != [] {
      SubRunsKeepsKept(s[1..], keep, rep);
    }
  }

  /** A run made only of characters outside the class becomes one `rep`. */
  lemma SubRunsOneRun(s: string, keep: char -> bool, rep: char)
    requires s != []
    requires forall i :: 0 <= i < |s| ==> !keep(s[i])
    ensures SubRuns(s, keep, rep) == [rep]
  {
    var k := RunLength(s, keep);
    assert k == |s|;
  }

  /** One character outside the class between two runs of kept text
      becomes `rep`. */
  lemma SubRunsOneSeparator(a: string, d: char, b: string, keep: char -> bool, rep: char)
    requires forall i :: 0 <= i < |a| ==> keep(a[i])
    requires forall i :: 0 <= i < |b| ==> keep(b[i])
    requires !keep(d)
    ensures SubRuns(a + [d] + b, keep, rep) == a + [rep] + b
  {
    SubRunsKeepsKept(a, keep, rep);
    SubRunsKeepsKept(b, keep, rep);
    SubRunsOneRun([d], keep, rep);
    SubRunsAppend(a, [d], keep, rep);
    SubRunsAppend(a + [d], b, keep, rep);
  }

  /** Substitution distributes over a cut that does not split a run:
      together with the two lemmas above this says each maximal run is
      replaced by exactly one `rep` and nothing else changes. */
  lemma {:induction false} SubRunsAppend(x: string, y: string, keep: char -> bool, rep: char)
    requires x == [] || y == [] || keep(x[|x| - 1]) || keep(y[0])
    ensures SubRuns(x + y, keep, rep) == SubRuns(x, keep, rep) + SubRuns(y, keep, rep)
    decreases |x|, 1
  {
    if x == [] {
      assert x + y == y;
    } else if y == [] {
      assert x + y == x;
    } else if keep(x[0]) {
      SubRunsAppendKept(x, y, keep, rep);
    } else {
      SubRunsAppendRun(x, y, keep, rep);
    }
  }

  lemma {:induction false} SubRunsAppendKept(x: string, y: string, keep: char -> bool, rep: char)
    requires x != [] && y != [] && keep(x[0])
    requires keep(x[|x| - 1]) || keep(y[0])
    ensures SubRuns(x + y, keep, rep) == SubRuns(x, keep, rep) + SubRuns(y, keep, rep)
    decreases |x|, 0
  {
    var a := x[1..];
    SubRunsKeptFirst(x, y, a, keep, rep);
    SubRunsAppend(a, y, keep, rep);
    Regroup(SubRuns(x + y, keep, rep), [x[0]], SubRuns(a + y, keep, rep),
            SubRuns(a, keep, rep), SubRuns(y, keep, rep), SubRuns(x, keep, rep));
  }

  /** `p + (u + v) == (p + u) + v`, with each side given by name. */
  lemma Regroup<T>(lhs: seq<T>, p: seq<T>, w: seq<T>, u: seq<T>, v: seq<T>, px: seq<T>)
    requires lhs == p + w && w == u + v && px == p + u
    ensures lhs == px + v
  {
  }

  /** The first step of the substitution on `x` and on `x + y` when the
      first character is kept. */
  lemma SubRunsKeptFirst(x: string, y: string, a: string, keep: char -> bool, rep: char)
    requires x != [] && keep(x[0]) && a == x[1..]
    ensures SubRuns(x + y, keep, rep) == [x[0]] + SubRuns(a + y, keep, rep)
    ensures SubRuns(x, keep, rep) == [x[0]] + SubRuns(a, keep, rep)
  {
    assert (x + y)[0] == x[0];
    assert (x + y)[1..] == a + y;
  }

  lemma {:induction false} SubRunsAppendRun(x: string, y: string, keep: char -> bool, rep: char)
    requires x != [] && y != [] && !keep(x[0])
    requires keep(x[|x| - 1]) || keep(y[0])
    ensures SubRuns(x + y, keep, rep) == SubRuns(x, keep, rep) + SubRuns(y, keep, rep)
    decreases |x|, 0
  {
    var k := RunLength(x, keep);
    var a := x[k..];
    SubRunsRunFirst(x, y, a, keep, rep);
    if k < |x| {
      assert a[|a| - 1] == x[|x| - 1];
      SubRunsAppend(a, y, keep, rep);
    } else {
      assert a + y == y;
    }
    Regroup(SubRuns(x + y, keep, rep), [rep], SubRuns(a + y, keep, rep),
            SubRuns(a, keep, rep), SubRuns(y, keep, rep), SubRuns(x, keep, rep));
  }

  /** The first step of the substitution on `x` and on `x + y` when `x`
      opens with a run outside the class that `y` does not continue. */
  lemma SubRunsRunFirst(x: string, y: string, a: string, keep: char -> bool, rep: char)
    requires x != [] && !keep(x[0])
    requires RunLength(x, keep) < |x| || y == [] || keep(y[0])
    requires a == x[RunLength(x, keep)..]
    ensures SubRuns(x + y, keep, rep) == [rep] + SubRuns(a + y, keep, rep)
    ensures SubRuns(x, keep, rep) == [rep] + SubRuns(a, keep, rep)
  {
    var k := RunLength(x, keep);
    SubRunsRunHead(x, keep, rep, k, a);
    assert (x + y)[0] == x[0];
    RunLengthPrefix(x, y, keep);
    assert (x + y)[k..] == a + y;
    SubRunsRunHead(x + y, keep, rep, k, a + y);
  }

  lemma SubRunsRunHead(s: string, keep: char -> bool, rep: char, k: nat, a: string)
    requires s != [] && !keep(s[0]) && k == RunLength(s, keep) && a == s[k..]
    ensures SubRuns(s, keep, rep) == [rep] + SubRuns(a, keep, rep)
  {
  }

  lemma {:induction false} RunLengthPrefix(x: string, y: string, keep: char -> bool)
    requires x != [] && !keep(x[0])
    requires RunLength(x, keep) < |x| || y == [] || keep(y[0])
    ensures RunLength(x + y, keep) == RunLength(x, keep)
  {
    var k := RunLength(x, keep);
    assert forall i :: 0 <= i < k ==> (x + y)[i] == x[i];
    assert k < |x + y| ==> (x + y)[k] == (if k < |x| then x[k] else y[0]);
  }

  /** Substituting twice is substituting once, when `rep` is itself kept. */
  lemma SubRunsIdempotent(s: string, keep: char -> bool, rep: char)
    requires keep(rep)
    ensures SubRuns(SubRuns(s, keep, rep), keep, rep) == SubRuns(s, keep, rep)
  {
    var r := SubRuns(s, keep, rep);
    SubRunsChars(s, keep, rep);
    assert forall i :: 0 <= i < |r| ==> r[i] in r;
    SubRunsKeepsKept(r, keep, rep);
  }

  // ---------------------------------------------------------------------
  // Decimal formatting and slicing

  function DigitChar(d: nat): char
    requires d < 10
  {
    ('0' as int + d) as char
  }

  /** `str(n)` for a natural number. */
  function NatToString(n: nat): (s: string)
    ensures s != []
    ensures forall i :: 0 <= i < |s| ==> IsDigit(s[i])
    decreases n
  {
    if n < 10 then [DigitChar(n)] else NatToString(n / 10) + [DigitChar(n % 10)]
  }

  /** The value of a string of decimal digits: the inverse of NatToString. */
  function ParseDigits(s: string): nat
    requires forall i :: 0 <= i < |s| ==> IsDigit(s[i])
  {
    if s == [] then 0
    else
      assert IsDigit(s[|s| - 1]);
      10 * ParseDigits(s[..|s| - 1]) + (s[|s| - 1] as int - '0' as int)
  }

  lemma {:induction false} ParseNatToString(n: nat)
    ensures ParseDigits(NatToString(n)) == n
    decreases n
  {
    if n >= 10 {
      var s := NatToString(n);
      assert s[..|s| - 1] == NatToString(n / 10);
      ParseNatToString(n / 10);
    }
  }

  lemma NatToStringInjective(a: nat, b: nat)
    requires NatToString(a) == NatToString(b)
    ensures a == b
  {
    ParseNatToString(a);
    ParseNatToString(b);
  }

  /** Python's `s[i:j]` for `0 <= i`, `0 <= j`: both bounds are clamped to
      the length, and an empty slice results when `j <= i`. */
  function Slice(s: string, i: nat, j: nat): (r: string)
    ensures |r| == (if j <= i || |s| <= i then 0 else (if j < |s| then j else |s|) - i)
    ensures forall k :: 0 <= k < |r| ==> r[k] == s[i + k]
  {
    var lo := if i < |s| then i else |s|;
    var hi := if j < |s| then j else |s|;
    if hi <= lo then [] else s[lo..hi]
  }
}
