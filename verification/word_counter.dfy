/**
 The word counter of the notepad: `text.trim()`, then 0 for an empty result and
 otherwise the length of `text.split("\\s+")`.

 Two character classes meet here and differ:
 - `String.trim()` strips every character at or below U+0020 (control characters included);
 - `\s` in `java.util.regex` (without UNICODE_CHARACTER_CLASS) is only
   space, `\t`, `\n`, `\x0B`, `\f` and `\r`.
 So a control character such as U+0001 at either edge is trimmed away, while one in the
 interior is a word of its own.
 */
module WordCounter {

  /** A character `String.trim()` removes from the ends: code point at most U+0020. */
  predicate IsTrimmable(c: char) {
    c <= ' '
  }

  /** A character matched by the regex class `\s`: U+0009 to U+000D, or space. */
  predicate IsSpace(c: char) {
    c == ' ' || ('\t' <= c <= '\r')
  }

  /** Every `\s` character is also removed by `trim`. */
  lemma SpaceIsTrimmable(c: char)
    ensures IsSpace(c) ==> IsTrimmable(c)
  {
  }

  predicate AllTrimmable(s: string) {
    forall k :: 0 <= k < |s| ==> IsTrimmable(s[k])
  }

  // ---------------------------------------------------------------------------
  // String.trim()
  // ---------------------------------------------------------------------------

  /** The first loop of `trim`: from `st`, advance past characters at or below U+0020. */
  function TrimStart(s: string, st: nat): (r: nat)
    requires st <= |s|
    ensures st <= r <= |s|
    ensures forall k :: st <= k < r ==> IsTrimmable(s[k])
    ensures r == |s| || !IsTrimmable(s[r])
    decreases |s| - st
  {
    if st < |s| && IsTrimmable(s[st]) then TrimStart(s, st + 1) else st
  }

  /** The second loop of `trim`: while `st < len`, pull `len` back past characters at or
      below U+0020. */
  function TrimEnd(s: string, st: nat, len: nat): (r: nat)
    requires st <= len <= |s|
    ensures st <= r <= len
    ensures forall k :: r <= k < len ==> IsTrimmable(s[k])
    ensures r == st || !IsTrimmable(s[r - 1])
  {
    if st < len && IsTrimmable(s[len - 1]) then TrimEnd(s, st, len - 1) else len
  }

  /** `s[i..j]` is what trimming leaves: all outside it is trimmable and, unless it is
      empty, it starts and ends with a character that is not. */
  ghost predicate TrimmedAt(s: string, i: int, j: int) {
    && 0 <= i <= j <= |s|
    && (forall k :: 0 <= k < i ==> IsTrimmable(s[k]))
    && (forall k :: j <= k < |s| ==> IsTrimmable(s[k]))
    && (i < j ==> !IsTrimmable(s[i]) && !IsTrimmable(s[j - 1]))
  }

  /** The bounds `trim` cuts at. */
  lemma TrimCuts(s: string)
    ensures TrimmedAt(s, TrimStart(s, 0), TrimEnd(s, TrimStart(s, 0), |s|))
  {
    var st := TrimStart(s, 0);
    var len := TrimEnd(s, st, |s|);
    if st == |s| {
      assert len == st;
    }
  }

  /** `String.trim()`: `s[st..len]` for the cuts of its two loops. Nothing is left exactly
      when every character is trimmable, and what is left starts and ends with a character
      above U+0020. */
  function Trim(s: string): (r: string)
    ensures r == [] <==> AllTrimmable(s)
    ensures r != [] ==> !IsTrimmable(r[0]) && !IsTrimmable(r[|r| - 1])
  {
    var st := TrimStart(s, 0);
    var len := TrimEnd(s, st, |s|);
    TrimCuts(s);
    s[st..len]
  }

  /** The cuts of `trim` are the only ones with the trimming property, so any bounds
      with it give `Trim`. */
  lemma TrimUnique(s: string, i: int, j: int)
    requires TrimmedAt(s, i, j)
    ensures Trim(s) == s[i..j]
  {
    var st := TrimStart(s, 0);
    var len := TrimEnd(s, st, |s|);
    TrimCuts(s);
    if i == j {
      assert AllTrimmable(s);
    } else {
      assert !IsTrimmable(s[i]) && !IsTrimmable(s[j - 1]);
      assert st == i;
      assert len == j;
    }
  }

  /** What `Trim` leaves is the part of `s` between its cuts. */
  lemma TrimBounds(s: string) returns (i: int, j: int)
    ensures TrimmedAt(s, i, j) && Trim(s) == s[i..j]
  {
    i := TrimStart(s, 0);
    j := TrimEnd(s, i, |s|);
    TrimCuts(s);
  }

  /** Trimming twice is trimming once. */
  lemma TrimIdempotent(s: string)
    ensures Trim(Trim(s)) == Trim(s)
  {
    var t := Trim(s);
    TrimUnique(t, 0, |t|);
    assert t[0..|t|] == t;
  }

  /** Padding with trimmable characters moves the trimming bounds by the padding in front. */
  lemma TrimmedAtPadded(p: string, s: string, q: string, i: int, j: int)
    requires AllTrimmable(p) && AllTrimmable(q) && TrimmedAt(s, i, j)
    ensures TrimmedAt(p + s + q, |p| + i, |p| + j)
    ensures (p + s + q)[|p| + i..|p| + j] == s[i..j]
  {
    var x := p + s + q;
    forall k | 0 <= k < |p| + i ensures IsTrimmable(x[k]) {
      if k < |p| {
        assert x[k] == p[k];
      } else {
        assert x[k] == s[k - |p|];
      }
    }
    forall k | |p| + j <= k < |x| ensures IsTrimmable(x[k]) {
      if k < |p| + |s| {
        assert x[k] == s[k - |p|];
      } else {
        assert x[k] == q[k - |p| - |s|];
      }
    }
    if i < j {
      assert x[|p| + i] == s[i];
      assert x[|p| + j - 1] == s[j - 1];
    }
    assert x[|p|..|p| + |s|] == s;
  }

  /** Adding trimmable characters at either end does not change what `trim` leaves. */
  lemma TrimPadded(p: string, s: string, q: string)
    requires AllTrimmable(p) && AllTrimmable(q)
    ensures Trim(p + s + q) == Trim(s)
  {
    var i, j := TrimBounds(s);
    TrimmedAtPadded(p, s, q, i, j);
    TrimUnique(p + s + q, |p| + i, |p| + j);
  }

  // ---------------------------------------------------------------------------
  // String.split("\\s+")
  // ---------------------------------------------------------------------------

  /** No character of `w` is matched by `\s`. */
  predicate NoSpace(w: string) {
    forall k :: 0 <= k < |w| ==> !IsSpace(w[k])
  }

  /** The text up to the first match of `\s+`, or all of `s` when there is none. */
  function LeadingToken(s: string): (w: string)
    ensures |w| <= |s| && w == s[..|w|]
    ensures NoSpace(w)
    ensures |w| == |s| || IsSpace(s[|w|])
  {
    if s == [] || IsSpace(s[0]) then
      []
    else
      var w := LeadingToken(s[1..]);
      assert forall k :: 1 <= k <= |w| ==> s[k] == s[1..][k - 1];
      [s[0]] + w
  }

  /** What follows one greedy match of `\s+` at the front of `s`. */
  function SkipSpaces(s: string): (r: string)
    ensures |r| <= |s| && r == s[|s| - |r|..]
    ensures forall k :: 0 <= k < |s| - |r| ==> IsSpace(s[k])
    ensures r == [] || !IsSpace(r[0])
  {
    if s != [] && IsSpace(s[0]) then
      var r := SkipSpaces(s[1..]);
      assert forall k :: 1 <= k < |s| - |r| ==> s[k] == s[1..][k - 1];
      r
    else
      s
  }

  /** The substrings between successive matches of `\s+`, before `split` drops trailing
      empty strings: one more than the number of matches, none holding a `\s` character. */
  function Fields(s: string): (f: seq<string>)
    ensures |f| >= 1
    ensures forall i :: 0 <= i < |f| ==> NoSpace(f[i])
    decreases |s|
  {
    var w := LeadingToken(s);
    if |w| == |s| then
      [s]
    else
      var rest := s[|w|..];
      assert IsSpace(rest[0]);
      var next := SkipSpaces(rest);
      assert next != [] ==> next[0] == rest[|rest| - |next|];
      assert |next| < |rest|;
      [w] + Fields(next)
  }

  /** `split` with limit 0 removes the empty strings at the end of its list. */
  function DropTrailingEmpty(f: seq<string>): (g: seq<string>)
    ensures |g| <= |f| && g == f[..|g|]
    ensures g == [] || g[|g| - 1] != []
    ensures forall i :: |g| <= i < |f| ==> f[i] == []
  {
    if f != [] && f[|f| - 1] == [] then
      DropTrailingEmpty(f[..|f| - 1])
    else
      f
  }

  /** `s.split("\\s+")`: the whole of `s` when `\s+` never matches, otherwise the
      fields with trailing empty ones removed. */
  function Split(s: string): (parts: seq<string>)
    ensures forall i :: 0 <= i < |parts| ==> NoSpace(parts[i])
  {
    if |LeadingToken(s)| == |s| then
      [s]
    else
      DropTrailingEmpty(Fields(s))
  }

  // ---------------------------------------------------------------------------
  // The meaning of the count: maximal runs of non-\s characters
  // ---------------------------------------------------------------------------

  /** Position `i` of `s` is the last character of a maximal run of non-`\s` characters. */
  predicate EndsRun(s: string, i: int)
    requires 0 <= i < |s|
  {
    !IsSpace(s[i]) && (i + 1 == |s| || IsSpace(s[i + 1]))
  }

  /** The number of maximal runs of non-`\s` characters in `s`, one per position ending one. */
  function Runs(s: string): nat {
    if s == [] then 0 else (if EndsRun(s, 0) then 1 else 0) + Runs(s[1..])
  }

  /** A non-empty token followed by nothing or by a `\s` character adds one run. */
  lemma {:induction false} RunsAfterToken(w: string, r: string)
    requires w != [] && NoSpace(w)
    requires r == [] || IsSpace(r[0])
    ensures Runs(w + r) == 1 + Runs(r)
  {
    var s := w + r;
    assert s[1..] == w[1..] + r;
    if |w| > 1 {
      assert s[1] == w[1];
      RunsAfterToken(w[1..], r);
    }
  }

  /** Leading `\s` characters add no run. */
  lemma {:induction false} RunsSkipSpaces(s: string)
    ensures Runs(SkipSpaces(s)) == Runs(s)
  {
    if s != [] && IsSpace(s[0]) {
      RunsSkipSpaces(s[1..]);
    }
  }

  /** One step of `Fields` on a text that starts and ends outside `\s` and holds a `\s`
      character: the leading token is a run of its own, and what follows the next
      `\s+` match again starts and ends outside `\s`. */
  lemma FieldsStep(s: string) returns (next: string)
    requires s != [] && !IsSpace(s[0]) && !IsSpace(s[|s| - 1])
    requires |LeadingToken(s)| < |s|
    ensures LeadingToken(s) != []
    ensures next != [] && !IsSpace(next[0]) && !IsSpace(next[|next| - 1]) && |next| < |s|
    ensures Fields(s) == [LeadingToken(s)] + Fields(next)
    ensures Runs(s) == 1 + Runs(next)
  {
    var w := LeadingToken(s);
    assert w != [];
    var rest := s[|w|..];
    next := SkipSpaces(rest);
    assert s == w + rest;
    RunsAfterToken(w, rest);
    RunsSkipSpaces(rest);
    assert next != [] by {
      assert rest[|rest| - 1] == s[|s| - 1];
    }
    assert next[|next| - 1] == s[|s| - 1];
  }

  /** A text that starts and ends outside `\s` has one field per run. */
  lemma {:induction false} FieldsAreRuns(s: string)
    requires s != [] && !IsSpace(s[0]) && !IsSpace(s[|s| - 1])
    ensures |Fields(s)| == Runs(s)
    decreases |s|
  {
    var w := LeadingToken(s);
    if |w| == |s| {
      assert w + [] == s;
      RunsAfterToken(w, []);
    } else {
      var next := FieldsStep(s);
      FieldsAreRuns(next);
    }
  }

  /** A text that starts and ends outside `\s` has no empty field. */
  lemma {:induction false} FieldsNonEmpty(s: string)
    requires s != [] && !IsSpace(s[0]) && !IsSpace(s[|s| - 1])
    ensures forall i :: 0 <= i < |Fields(s)| ==> Fields(s)[i] != []
    decreases |s|
  {
    if |LeadingToken(s)| < |s| {
      var next := FieldsStep(s);
      FieldsNonEmpty(next);
    }
  }

  /** On trimmed, non-empty text `split` returns one piece per run, none of them empty. */
  lemma SplitTrimmed(t: string)
    requires t != [] && !IsTrimmable(t[0]) && !IsTrimmable(t[|t| - 1])
    ensures |Split(t)| == Runs(t)
    ensures forall i :: 0 <= i < |Split(t)| ==> Split(t)[i] != []
  {
    SpaceIsTrimmable(t[0]);
    SpaceIsTrimmable(t[|t| - 1]);
    FieldsAreRuns(t);
    FieldsNonEmpty(t);
    var f := Fields(t);
    if |LeadingToken(t)| != |t| {
      assert f[|f| - 1] != [];
      assert DropTrailingEmpty(f) == f;
    }
  }

  /** The notepad's word count (the number shown as "Words: n"): the number of
      maximal runs of non-`\s` characters in the trimmed text. */
  function WordCount(text: string): (n: nat)
    ensures n == Runs(Trim(text))
  {
    var t := Trim(text);
    if t == [] then 0 else SplitTrimmed(t); |Split(t)|
  }

  /** Every word `split` yields from the trimmed text is non-empty and free of `\s`. */
  lemma WordsOfTrimmedText(text: string)
    requires Trim(text) != []
    ensures forall i :: 0 <= i < |Split(Trim(text))| ==>
      Split(Trim(text))[i] != [] && NoSpace(Split(Trim(text))[i])
  {
    SplitTrimmed(Trim(text));
  }

  /** The count is 0 exactly for texts made only of characters at or below U+0020. */
  lemma WordCountZeroIff(text: string)
    ensures WordCount(text) == 0 <==> AllTrimmable(text)
  {
    var t := Trim(text);
    if t != [] {
      SpaceIsTrimmable(t[0]);
      var w := LeadingToken(t);
      assert t == w + t[|w|..];
      RunsAfterToken(w, t[|w|..]);
    }
  }

  /** `k` runs need `k` characters and `k - 1` separators between them. */
  lemma {:induction false} RunsBound(s: string)
    ensures Runs(s) <= (|s| + 1) / 2
  {
    if s != [] {
      if EndsRun(s, 0) && |s| > 1 {
        assert s[1..][1..] == s[2..];
        assert !EndsRun(s[1..], 0);
        RunsBound(s[2..]);
      } else {
        RunsBound(s[1..]);
      }
    }
  }

  /** A non-empty trimmed text has between 1 and (|trimmed| + 1) / 2 words. */
  lemma WordCountBounds(text: string)
    requires Trim(text) != []
    ensures 1 <= WordCount(text) <= (|Trim(text)| + 1) / 2
  {
    WordCountZeroIff(text);
    RunsBound(Trim(text));
  }

  /** Characters at or below U+0020 added at either end do not change the count. */
  lemma WordCountPadded(p: string, text: string, q: string)
    requires AllTrimmable(p) && AllTrimmable(q)
    ensures WordCount(p + text + q) == WordCount(text)
  {
    TrimPadded(p, text, q);
  }

  /** Texts of blanks only count 0 words. */
  lemma WordCountBlankExamples()
    ensures WordCount("") == 0
    ensures WordCount("  ") == 0
  {
    WordCountZeroIff("");
    WordCountZeroIff("  ");
  }

  /** A leading `\s` character starts no run. */
  lemma RunsAfterSpace(c: char, r: string)
    requires IsSpace(c)
    ensures Runs([c] + r) == Runs(r)
  {
    assert ([c] + r)[1..] == r;
  }

  /** A text that starts and ends above U+0020 is left whole by `trim`. */
  lemma TrimKeeps(s: string)
    requires s != [] && !IsTrimmable(s[0]) && !IsTrimmable(s[|s| - 1])
    ensures Trim(s) == s
  {
    TrimUnique(s, 0, |s|);
  }

  /** "a b  c" holds three maximal runs of non-`\s` characters. */
  lemma RunsOfSpacesSample()
    ensures Runs("a b  c") == 3
  {
    var s := "a b  c";
    assert s == "a" + " b  c";
    RunsAfterToken("a", " b  c");
    assert " b  c" == [' '] + "b  c";
    RunsAfterSpace(' ', "b  c");
    assert "b  c" == "b" + "  c";
    RunsAfterToken("b", "  c");
    assert "  c" == [' '] + " c";
    RunsAfterSpace(' ', " c");
    assert " c" == [' '] + "c";
    RunsAfterSpace(' ', "c");
    assert "c" == "c" + [];
    RunsAfterToken("c", []);
  }

  /** Runs of spaces of any length separate words. */
  lemma WordCountSpacesExample()
    ensures WordCount("a b  c") == 3
  {
    var s := "a b  c";
    TrimKeeps(s);
    RunsOfSpacesSample();
  }

  /** "a \U{1} b" holds three maximal runs of non-`\s` characters. */
  lemma RunsOfInteriorControlSample()
    ensures Runs("a \U{1} b") == 3
  {
    var s := "a \U{1} b";
    assert s == "a" + " \U{1} b";
    RunsAfterToken("a", " \U{1} b");
    assert " \U{1} b" == [' '] + "\U{1} b";
    RunsAfterSpace(' ', "\U{1} b");
    assert "\U{1} b" == "\U{1}" + " b";
    RunsAfterToken("\U{1}", " b");
    assert " b" == [' '] + "b";
    RunsAfterSpace(' ', "b");
    assert "b" == "b" + [];
    RunsAfterToken("b", []);
  }

  /** U+0001 is not `\s`, so between spaces it is a word of its own. */
  lemma WordCountInteriorControlExample()
    ensures WordCount("a \U{1} b") == 3
  {
    var s := "a \U{1} b";
    TrimKeeps(s);
    RunsOfInteriorControlSample();
  }

  /** U+0001 at the front is removed by `trim` and is no word. */
  lemma WordCountEdgeControlExample()
    ensures WordCount("\U{1} a") == 1
  {
    var s := "\U{1} a";
    TrimUnique(s, 2, 3);
    assert s[2..3] == "a";
  }
}
