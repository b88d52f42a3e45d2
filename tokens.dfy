/** The tokenisers the legacy text detector applies to its input:
    - `re.findall(r'\b\w+\b', s)`: the maximal runs of word characters (Runs);
    - `s.split()`: the maximal runs of non-whitespace characters (Runs again);
    - `s.strip()`: the text without surrounding whitespace (Strip);
    - `re.split(r'[.!?]+', s)`: the pieces between runs of sentence
      terminators (SplitOnTerminators).
    Characters are classified as Python classifies `str`, except that `\w` and
    `lower()` are taken on ASCII only. */
module Tokens {

  /** `\w` on ASCII: letters, digits and the underscore. */
  predicate IsWordChar(c: char)
  {
    ('a' <= c <= 'z') || ('A' <= c <= 'Z') || ('0' <= c <= '9') || c == '_'
  }

  /** Python's `str.isspace`, the class `strip()` and `split()` remove. */
  predicate IsSpace(c: char)
  {
    var n := c as int;
    (9 <= n <= 13) || (28 <= n <= 32) || n == 0x85 || n == 0xA0 || n == 0x1680
    || (0x2000 <= n <= 0x200A) || n == 0x2028 || n == 0x2029 || n == 0x202F
    || n == 0x205F || n == 0x3000
  }

  predicate IsNonSpace(c: char)
  {
    !IsSpace(c)
  }

  /** The character class `[.!?]`. */
  predicate IsTerminator(c: char)
  {
    c == '.' || c == '!' || c == '?'
  }

  predicate IsNonTerminator(c: char)
  {
    !IsTerminator(c)
  }

  /** `str.lower()` on ASCII letters: a capital becomes its small letter and
      every other character is kept. */
  function LowerChar(c: char): (r: char)
    ensures IsWordChar(r) == IsWordChar(c)
    ensures !('A' <= r <= 'Z')
    ensures !('A' <= c <= 'Z') ==> r == c
    ensures 'A' <= c <= 'Z' ==> 'a' <= r <= 'z' && r as int - 'a' as int == c as int - 'A' as int
  {
    if 'A' <= c <= 'Z' then (c as int + 32) as char else c
  }

  /** `c` and `d` are one character, or the capital and small form of one
      ASCII letter. */
  predicate SameUpToCase(c: char, d: char)
  {
    c == d
    || ('A' <= c <= 'Z' && d as int == c as int + 32)
    || ('A' <= d <= 'Z' && c as int == d as int + 32)
  }

  /** Lower-casing identifies exactly the characters that differ only in
      ASCII case, so "The" and "the" become one word and nothing else merges. */
  lemma LowerCharEqual(c: char, d: char)
    ensures LowerChar(c) == LowerChar(d) <==> SameUpToCase(c, d)
  {
  }

  function Lower(s: string): (r: string)
    ensures |r| == |s|
    ensures forall i :: 0 <= i < |s| ==> r[i] == LowerChar(s[i])
  {
    seq(|s|, i requires 0 <= i < |s| => LowerChar(s[i]))
  }

  /** Two texts lower-case to the same text exactly when they agree up to
      ASCII case, character by character. */
  lemma LowerEqual(s: string, t: string)
    ensures Lower(s) == Lower(t) <==> |s| == |t| && forall i :: 0 <= i < |s| ==> SameUpToCase(s[i], t[i])
  {
    if |s| == |t| {
      if Lower(s) == Lower(t) {
        forall i | 0 <= i < |s| ensures SameUpToCase(s[i], t[i]) {
          LowerCharEqual(s[i], t[i]);
        }
      }
      if forall i :: 0 <= i < |s| ==> SameUpToCase(s[i], t[i]) {
        forall i | 0 <= i < |s| ensures Lower(s)[i] == Lower(t)[i] {
          LowerCharEqual(s[i], t[i]);
        }
      }
    }
  }

  /** A non-empty string all of whose characters satisfy `p`. */
  predicate IsRun(w: string, p: char -> bool)
  {
    w != [] && forall i :: 0 <= i < |w| ==> p(w[i])
  }

  predicate NoneSatisfy(s: string, p: char -> bool)
  {
    forall i :: 0 <= i < |s| ==> !p(s[i])
  }

  /** The length of the longest prefix of `s` whose characters satisfy `p`. */
  function RunLength(s: string, p: char -> bool): (n: nat)
    ensures n <= |s|
    ensures forall i :: 0 <= i < n ==> p(s[i])
    ensures n < |s| ==> !p(s[n])
  {
    if s == [] || !p(s[0]) then 0 else 1 + RunLength(s[1..], p)
  }

  /** The three facts RunLength ensures determine it. */
  lemma RunLengthUnique(s: string, p: char -> bool, m: nat)
    requires m <= |s|
    requires forall i :: 0 <= i < m ==> p(s[i])
    requires m < |s| ==> !p(s[m])
    ensures RunLength(s, p) == m
  {
  }

  /** The maximal runs of `p`-characters of `s`, left to right. */
  function Runs(s: string, p: char -> bool): (r: seq<string>)
    ensures forall k :: 0 <= k < |r| ==> IsRun(r[k], p)
    decreases |s|
  {
    if s == [] then []
    else if !p(s[0]) then Runs(s[1..], p)
    else
      var n := RunLength(s, p);
      [s[..n]] + Runs(s[n..], p)
  }

  lemma ConcatAssoc<T>(x: seq<T>, y: seq<T>, z: seq<T>)
    ensures (x + y) + z == x + (y + z)
  {
  }

  function Flatten(ws: seq<string>): string
  {
    if ws == [] then [] else ws[0] + Flatten(ws[1..])
  }

  /** The characters of `s` that satisfy `p`, in order. */
  function Filter(s: string, p: char -> bool): (r: string)
  {
    if s == [] then [] else (if p(s[0]) then [s[0]] else []) + Filter(s[1..], p)
  }

  lemma {:induction false} FilterAppend(a: string, b: string, p: char -> bool)
    ensures Filter(a + b, p) == Filter(a, p) + Filter(b, p)
    decreases |a|
  {
    if a == [] {
      assert a + b == b;
    } else {
      var head := if p(a[0]) then [a[0]] else [];
      assert (a + b)[0] == a[0];
      assert (a + b)[1..] == a[1..] + b;
      FilterAppend(a[1..], b, p);
      calc {
        Filter(a + b, p);
        head + Filter(a[1..] + b, p);
        head + (Filter(a[1..], p) + Filter(b, p));
        (head + Filter(a[1..], p)) + Filter(b, p);
      }
    }
  }

  lemma {:induction false} FilterOfRun(w: string, p: char -> bool)
    requires forall i :: 0 <= i < |w| ==> p(w[i])
    ensures Filter(w, p) == w
    decreases |w|
  {
    if w != [] {
      FilterOfRun(w[1..], p);
    }
  }

  lemma FlattenCons(w: string, ws: seq<string>)
    ensures Flatten([w] + ws) == w + Flatten(ws)
  {
    assert ([w] + ws)[0] == w;
    assert ([w] + ws)[1..] == ws;
  }

  /** Concatenating the runs gives back exactly the `p`-characters of `s`:
      tokenisation drops the separators and nothing else. */
  lemma {:induction false} RunsCover(s: string, p: char -> bool)
    ensures Flatten(Runs(s, p)) == Filter(s, p)
    decreases |s|
  {
    if s == [] {
    } else if !p(s[0]) {
      RunsCover(s[1..], p);
    } else {
      var n := RunLength(s, p);
      RunsCover(s[n..], p);
      FlattenCons(s[..n], Runs(s[n..], p));
      assert s == s[..n] + s[n..];
      FilterAppend(s[..n], s[n..], p);
      FilterOfRun(s[..n], p);
    }
  }

  /** A leading stretch of separators contributes no run. */
  lemma {:induction false} RunsSkip(s: string, p: char -> bool, i: nat)
    requires i <= |s|
    requires forall k :: 0 <= k < i ==> !p(s[k])
    ensures Runs(s, p) == Runs(s[i..], p)
    decreases i
  {
    if i > 0 {
      RunsSkip(s[1..], p, i - 1);
      assert s[1..][i - 1..] == s[i..];
    }
  }

  /** A separator splits the text: the runs of `a + [c] + b` are those of `a`
      followed by those of `b`. */
  lemma {:induction false} RunsSplit(a: string, c: char, b: string, p: char -> bool)
    requires !p(c)
    ensures Runs(a + [c] + b, p) == Runs(a, p) + Runs(b, p)
    decreases |a|
  {
    var s := a + [c] + b;
    if a == [] {
      assert s == [c] + b;
      assert s[1..] == b;
    } else if !p(a[0]) {
      assert s[0] == a[0];
      assert s[1..] == a[1..] + [c] + b;
      RunsSplit(a[1..], c, b, p);
    } else {
      var m := RunLength(a, p);
      forall i | 0 <= i < m ensures p(s[i]) {
        assert s[i] == a[i];
      }
      if m < |a| {
        assert s[m] == a[m];
      } else {
        assert s[m] == c;
      }
      RunLengthUnique(s, p, m);
      assert s[..m] == a[..m];
      assert s[m..] == a[m..] + [c] + b;
      RunsSplit(a[m..], c, b, p);
    }
  }

  /** A single run is its own only token. */
  lemma RunsOfRun(w: string, p: char -> bool)
    requires IsRun(w, p)
    ensures Runs(w, p) == [w]
  {
    RunLengthUnique(w, p, |w|);
    assert w[..|w|] == w;
  }

  /** A string with some `p`-character has at least one run. */
  lemma {:induction false} RunsNonEmpty(s: string, p: char -> bool, i: nat)
    requires i < |s| && p(s[i])
    ensures |Runs(s, p)| >= 1
    decreases i
  {
    if !p(s[0]) {
      RunsNonEmpty(s[1..], p, i - 1);
    }
  }

  /** No runs exactly when no character satisfies `p`. */
  lemma RunsEmptyIff(s: string, p: char -> bool)
    ensures Runs(s, p) == [] <==> NoneSatisfy(s, p)
  {
    if NoneSatisfy(s, p) {
      RunsSkip(s, p, |s|);
      assert s[|s|..] == [];
    } else {
      var i :| 0 <= i < |s| && p(s[i]);
      RunsNonEmpty(s, p, i);
    }
  }

  // ---------------------------------------------------------------------------
  // str.strip()

  function StripStart(s: string): (r: string)
    ensures |r| <= |s| && r == s[|s| - |r|..]
    ensures forall i :: 0 <= i < |s| - |r| ==> IsSpace(s[i])
    ensures r != [] ==> !IsSpace(r[0])
  {
    if s != [] && IsSpace(s[0]) then StripStart(s[1..]) else s
  }

  function StripEnd(s: string): (r: string)
    ensures |r| <= |s| && r == s[..|r|]
    ensures forall i :: |r| <= i < |s| ==> IsSpace(s[i])
    ensures r != [] ==> !IsSpace(r[|r| - 1])
  {
    if s != [] && IsSpace(s[|s| - 1]) then StripEnd(s[..|s| - 1]) else s
  }

  /** A non-empty string that starts and ends with a non-whitespace
      character, as `strip()` leaves every non-blank string. */
  predicate IsStripped(w: string)
  {
    w != [] && IsNonSpace(w[0]) && IsNonSpace(w[|w| - 1])
  }

  /** `s.strip()`: empty exactly when `s` is all whitespace; otherwise it
      begins and ends with a non-whitespace character of `s`. */
  function Strip(s: string): (r: string)
    ensures |r| <= |s|
    ensures r == [] <==> NoneSatisfy(s, IsNonSpace)
    ensures r != [] ==> IsStripped(r)
  {
    var t := StripStart(s);
    var r := StripEnd(t);
    StripBlank(s);
    assert r != [] ==> r[0] == t[0];
    r
  }

  lemma SliceOfSuffix(s: string, a: nat, n: nat)
    requires a + n <= |s|
    ensures s[a..][..n] == s[a..a + n]
  {
  }

  /** Where `strip()` cuts the text: the length of its leading whitespace. */
  function StripOffset(s: string): nat
  {
    |s| - |StripStart(s)|
  }

  /** `strip()` keeps one contiguous part of the text, from its offset on. */
  lemma StripSlice(s: string)
    ensures StripOffset(s) + |Strip(s)| <= |s|
    ensures Strip(s) == s[StripOffset(s)..StripOffset(s) + |Strip(s)|]
  {
    var t := StripStart(s);
    var r := StripEnd(t);
    var a := StripOffset(s);
    assert Strip(s) == r;
    assert t == s[a..] && r == t[..|r|];
    SliceOfSuffix(s, a, |r|);
  }

  /** What `strip()` removes around that part is whitespace. */
  lemma StripRemovesSpace(s: string)
    ensures StripOffset(s) + |Strip(s)| <= |s|
    ensures NoneSatisfy(s[..StripOffset(s)], IsNonSpace)
    ensures NoneSatisfy(s[StripOffset(s) + |Strip(s)|..], IsNonSpace)
  {
    var t := StripStart(s);
    var r := StripEnd(t);
    var a := StripOffset(s);
    assert Strip(s) == r;
    var head := s[..a];
    forall i | 0 <= i < |head| ensures !IsNonSpace(head[i]) {
      assert head[i] == s[i];
    }
    var tail := s[a + |r|..];
    forall i | 0 <= i < |tail| ensures !IsNonSpace(tail[i]) {
      assert tail[i] == t[|r| + i];
    }
  }

  /** Stripping a text without a terminator leaves none. */
  lemma StripKeepsNoTerminator(s: string)
    requires NoneSatisfy(s, IsTerminator)
    ensures NoneSatisfy(Strip(s), IsTerminator)
  {
    StripSlice(s);
    var a := StripOffset(s);
    forall i | 0 <= i < |Strip(s)| ensures !IsTerminator(Strip(s)[i]) {
      assert Strip(s)[i] == s[a + i];
    }
  }

  lemma StripBlank(s: string)
    ensures StripEnd(StripStart(s)) == [] <==> NoneSatisfy(s, IsNonSpace)
  {
    var t := StripStart(s);
    var r := StripEnd(t);
    if r == [] {
      if t != [] {
        assert false;
      }
    } else {
      assert r[0] == t[0];
    }
  }

  // ---------------------------------------------------------------------------
  // re.split(r'[.!?]+', s)

  /** The pieces of `s` between maximal runs of terminators; a terminator at
      either end yields an empty piece there, as `re.split` does. */
  function SplitOnTerminators(s: string): (r: seq<string>)
    ensures |r| >= 1
    ensures forall k :: 0 <= k < |r| ==> NoneSatisfy(r[k], IsTerminator)
    decreases |s|
  {
    var i := RunLength(s, IsNonTerminator);
    if i == |s| then [s]
    else
      var j := i + RunLength(s[i..], IsTerminator);
      [s[..i]] + SplitOnTerminators(s[j..])
  }

  /** A text without terminators is one piece. */
  lemma SplitWithoutTerminator(s: string)
    requires NoneSatisfy(s, IsTerminator)
    ensures SplitOnTerminators(s) == [s]
  {
    RunLengthUnique(s, IsNonTerminator, |s|);
  }

  /** One step of the split on a text with a terminator: the leading piece
      `s[..i]`, the run of terminators `s[i..j]` after it, and the rest. */
  lemma SplitStep(s: string) returns (i: nat, j: nat)
    requires RunLength(s, IsNonTerminator) < |s|
    ensures i < j <= |s|
    ensures SplitOnTerminators(s) == [s[..i]] + SplitOnTerminators(s[j..])
    ensures Runs(s, IsTerminator) == [s[i..j]] + Runs(s[j..], IsTerminator)
    ensures s == s[..i] + s[i..j] + s[j..]
  {
    i := RunLength(s, IsNonTerminator);
    var t := s[i..];
    var n := RunLength(t, IsTerminator);
    j := i + n;
    assert IsTerminator(t[0]);
    RunsSkip(s, IsTerminator, i);
    RunsAtRunStart(t, IsTerminator);
    SuffixSlices(s, i, j);
  }

  /** A text that starts with a `p`-character starts with its first run. */
  lemma RunsAtRunStart(t: string, p: char -> bool)
    requires t != [] && p(t[0])
    ensures Runs(t, p) == [t[..RunLength(t, p)]] + Runs(t[RunLength(t, p)..], p)
  {
  }

  /** Cutting `s` at `i` and `j`: the slices of the suffix from `i` are
      slices of `s`, and the three parts make up `s`. */
  lemma SuffixSlices(s: string, i: nat, j: nat)
    requires i <= j <= |s|
    ensures s[i..][j - i..] == s[j..] && s[i..][..j - i] == s[i..j]
    ensures s == s[..i] + s[i..j] + s[j..]
  {
  }

  /** A text without a terminator outside its last piece has no run of
      terminators. */
  lemma SplitLast(s: string)
    requires RunLength(s, IsNonTerminator) == |s|
    ensures SplitOnTerminators(s) == [s]
    ensures Runs(s, IsTerminator) == []
  {
    RunsSkip(s, IsTerminator, |s|);
    assert s[|s|..] == [];
  }

  /** There is one piece more than there are runs of terminators. */
  lemma {:induction false} SplitCountsTerminatorRuns(s: string)
    ensures |SplitOnTerminators(s)| == 1 + |Runs(s, IsTerminator)|
    decreases |s|
  {
    if RunLength(s, IsNonTerminator) == |s| {
      SplitLast(s);
    } else {
      var i, j := SplitStep(s);
      SplitCountsTerminatorRuns(s[j..]);
    }
  }

  /** The pieces with the separators between them: `pieces[0] + seps[0] +
      pieces[1] + ... + pieces[n]`. */
  function Interleave(pieces: seq<string>, seps: seq<string>): string
    requires |pieces| == |seps| + 1
    decreases |seps|
  {
    if seps == [] then pieces[0] else pieces[0] + seps[0] + Interleave(pieces[1..], seps[1..])
  }

  /** `re.split` loses nothing: putting the runs of terminators back between
      the pieces gives the text again. */
  lemma {:induction false} SplitRoundTrip(s: string)
    ensures |SplitOnTerminators(s)| == |Runs(s, IsTerminator)| + 1
    ensures Interleave(SplitOnTerminators(s), Runs(s, IsTerminator)) == s
    decreases |s|
  {
    if RunLength(s, IsNonTerminator) == |s| {
      SplitLast(s);
    } else {
      var i, j := SplitStep(s);
      var pieces := SplitOnTerminators(s);
      var seps := Runs(s, IsTerminator);
      assert pieces[0] == s[..i] && pieces[1..] == SplitOnTerminators(s[j..]);
      assert seps[0] == s[i..j] && seps[1..] == Runs(s[j..], IsTerminator);
      SplitRoundTrip(s[j..]);
    }
  }
}
