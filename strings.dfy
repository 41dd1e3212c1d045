/** The Python `str` operations the core relies on, over Unicode code points (`char`). */
module Strings {

  /** Python's `str.isspace()`; `str.strip()`, `str.split()` and the pattern `\s` all test it. */
  predicate IsSpace(c: char) {
    || ('\t' <= c <= '\r')
    || ('\U{1C}' <= c <= '\U{1F}')
    || c == ' ' || c == '\U{85}' || c == '\U{A0}' || c == '\U{1680}'
    || ('\U{2000}' <= c <= '\U{200A}')
    || c == '\U{2028}' || c == '\U{2029}' || c == '\U{202F}' || c == '\U{205F}' || c == '\U{3000}'
  }

  /** `c.lower()` for ASCII letters; every other code point is left as it is. */
  function Lower(c: char): char {
    if 'A' <= c <= 'Z' then (c as int + 32) as char else c
  }

  /** `s.lower()`, code point by code point. */
  function LowerStr(s: string): (r: string)
    ensures |r| == |s|
    ensures forall k :: 0 <= k < |s| ==> r[k] == Lower(s[k])
  {
    seq(|s|, k requires 0 <= k < |s| => Lower(s[k]))
  }

  lemma LowerIdempotent(c: char)
    ensures Lower(Lower(c)) == Lower(c)
  {
  }

  lemma LowerStrAppend(a: string, b: string)
    ensures LowerStr(a + b) == LowerStr(a) + LowerStr(b)
  {
    assert LowerStr(a + b) == LowerStr(a) + LowerStr(b);
  }

  lemma LowerStrIdempotent(s: string)
    ensures LowerStr(LowerStr(s)) == LowerStr(s)
  {
    forall k | 0 <= k < |s| ensures LowerStr(LowerStr(s))[k] == LowerStr(s)[k] {
      LowerIdempotent(s[k]);
    }
  }

  /** Lower-casing commutes with slicing. */
  lemma LowerStrSlice(s: string, i: nat, j: nat)
    requires i <= j <= |s|
    ensures LowerStr(s)[i..j] == LowerStr(s[i..j])
  {
  }

  /** Lower-casing leaves a string without ASCII capitals unchanged. */
  lemma LowerStrUnchanged(s: string)
    requires forall k :: 0 <= k < |s| ==> !('A' <= s[k] <= 'Z')
    ensures LowerStr(s) == s
  {
  }

  /** The leading-whitespace half of `s.strip()`. */
  function StripLeft(s: string): (r: string)
    ensures |r| <= |s| && r == s[|s| - |r|..]
    ensures r != [] ==> !IsSpace(r[0])
    ensures forall k :: 0 <= k < |s| - |r| ==> IsSpace(s[k])
    decreases |s|
  {
    if s != [] && IsSpace(s[0]) then StripLeft(s[1..]) else s
  }

  /** The trailing-whitespace half of `s.strip()`. */
  function StripRight(s: string): (r: string)
    ensures |r| <= |s| && r == s[..|r|]
    ensures r != [] ==> !IsSpace(r[|r| - 1])
    ensures forall k :: |r| <= k < |s| ==> IsSpace(s[k])
    decreases |s|
  {
    if s != [] && IsSpace(s[|s| - 1]) then StripRight(s[..|s| - 1]) else s
  }

  /** `s.strip()`: `s` without its leading and trailing whitespace. */
  function Strip(s: string): (r: string)
    ensures r != [] ==> !IsSpace(r[0]) && !IsSpace(r[|r| - 1])
    ensures forall c :: c in r ==> c in s
  {
    var l := StripLeft(s);
    SliceChars(s, |s| - |l|, |s|);
    var r := StripRight(l);
    SliceChars(l, 0, |r|);
    r
  }

  /** `r` is `s[a..b]`, and everything of `s` outside `[a, b)` is whitespace. */
  predicate CutsOnlySpaces(s: string, a: int, b: int, r: string) {
    && 0 <= a <= b <= |s| && r == s[a..b]
    && (forall k :: 0 <= k < a ==> IsSpace(s[k]))
    && (forall k :: b <= k < |s| ==> IsSpace(s[k]))
  }

  /** `s.strip()` is the middle of `s`: only whitespace is cut off, at either end. */
  lemma StripSlice(s: string)
    ensures exists a, b :: CutsOnlySpaces(s, a, b, Strip(s))
  {
    var l := StripLeft(s);
    var r := StripRight(l);
    var a := |s| - |l|;
    assert Strip(s) == r;
    assert l == s[a..];
    PrefixOfSuffix(s, a, |r|);
    SpacesAfter(s, a, |r|);
    assert CutsOnlySpaces(s, a, a + |r|, r);
  }

  lemma PrefixOfSuffix(s: string, a: nat, n: nat)
    requires a + n <= |s|
    ensures s[a..][..n] == s[a..a + n]
  {
  }

  /** Whitespace from position `from` of `s[a..]` on is whitespace from `a + from` of `s` on. */
  lemma SpacesAfter(s: string, a: nat, from: nat)
    requires a <= |s| && from <= |s| - a
    requires forall k :: from <= k < |s| - a ==> IsSpace(s[a..][k])
    ensures forall k :: a + from <= k < |s| ==> IsSpace(s[k])
  {
    forall k | a + from <= k < |s| ensures IsSpace(s[k]) {
      assert s[k] == s[a..][k - a];
    }
  }

  /** Every character of a slice is a character of the string. */
  lemma SliceChars(s: string, i: nat, j: nat)
    requires i <= j <= |s|
    ensures forall c :: c in s[i..j] ==> c in s
  {
  }

  /** `re.sub(r'\s+', ' ', s)`: every maximal run of whitespace becomes one `' '`. */
  function CollapseSpaces(s: string): (r: string)
    ensures r == [] <==> s == []
    ensures r != [] ==> (IsSpace(r[0]) <==> IsSpace(s[0]))
    decreases |s|
  {
    if s == [] then []
    else if IsSpace(s[0]) then [' '] + CollapseSpaces(StripLeft(s[1..]))
    else [s[0]] + CollapseSpaces(s[1..])
  }

  /** Every character of the collapsed string is a `' '` or a non-whitespace character of `s`. */
  lemma {:induction false} CollapseSpacesChars(s: string)
    ensures forall k :: 0 <= k < |CollapseSpaces(s)| ==>
      CollapseSpaces(s)[k] == ' ' || (CollapseSpaces(s)[k] in s && !IsSpace(CollapseSpaces(s)[k]))
    decreases |s|
  {
    if s != [] {
      var rest := CollapseRest(s);
      CollapseSpacesChars(rest);
      var r, tail := CollapseSpaces(s), CollapseSpaces(rest);
      assert r == [r[0]] + tail;
      forall k | 0 <= k < |r| ensures r[k] == ' ' || (r[k] in s && !IsSpace(r[k])) {
        if k > 0 {
          assert r[k] == tail[k - 1];
        }
      }
    }
  }

  /** What CollapseSpaces recurs on after the first character. */
  function CollapseRest(s: string): (rest: string)
    requires s != []
    ensures |rest| < |s|
    ensures forall c :: c in rest ==> c in s
    ensures CollapseSpaces(s) == [if IsSpace(s[0]) then ' ' else s[0]] + CollapseSpaces(rest)
  {
    if IsSpace(s[0]) then
      assert forall c :: c in StripLeft(s[1..]) ==> c in s[1..];
      StripLeft(s[1..])
    else s[1..]
  }

  /** The collapsed string never has two whitespace characters in a row. */
  lemma {:induction false} CollapseSpacesNoRuns(s: string)
    ensures forall k :: 0 <= k < |CollapseSpaces(s)| - 1 ==>
      !(IsSpace(CollapseSpaces(s)[k]) && IsSpace(CollapseSpaces(s)[k + 1]))
    decreases |s|
  {
    if s != [] {
      var rest := if IsSpace(s[0]) then StripLeft(s[1..]) else s[1..];
      CollapseSpacesNoRuns(rest);
      var r := CollapseSpaces(s);
      assert r[1..] == CollapseSpaces(rest);
    }
  }

  /** The collapsed string ends in whitespace exactly when `s` does. */
  lemma {:induction false} CollapseSpacesLast(s: string)
    requires s != []
    ensures IsSpace(CollapseSpaces(s)[|CollapseSpaces(s)| - 1]) <==> IsSpace(s[|s| - 1])
    decreases |s|
  {
    var r := CollapseSpaces(s);
    if IsSpace(s[0]) {
      var rest := StripLeft(s[1..]);
      assert r == [' '] + CollapseSpaces(rest);
      if rest == [] {
        assert r == [' '];
        assert |s| == 1 || IsSpace(s[1..][|s| - 2]);
      } else {
        CollapseSpacesLast(rest);
        assert rest[|rest| - 1] == s[|s| - 1];
        assert r[|r| - 1] == CollapseSpaces(rest)[|CollapseSpaces(rest)| - 1];
      }
    } else if |s| > 1 {
      var rest := s[1..];
      assert r == [s[0]] + CollapseSpaces(rest);
      CollapseSpacesLast(rest);
      assert r[|r| - 1] == CollapseSpaces(rest)[|CollapseSpaces(rest)| - 1];
    } else {
      assert r == [s[0]];
    }
  }

  /** Whitespace appears only as single `' '` characters. */
  predicate SingleSpaced(s: string) {
    && (forall k :: 0 <= k < |s| && IsSpace(s[k]) ==> s[k] == ' ')
    && (forall k :: 0 <= k < |s| - 1 ==> !(IsSpace(s[k]) && IsSpace(s[k + 1])))
  }

  /** No whitespace at either end. */
  predicate Trimmed(s: string) {
    s != [] ==> !IsSpace(s[0]) && !IsSpace(s[|s| - 1])
  }

  /** `strip()` leaves a trimmed string as it is. */
  lemma StripUnchanged(s: string)
    requires Trimmed(s)
    ensures Strip(s) == s
  {
  }

  /** Collapsing leaves a single-spaced string as it is. */
  lemma {:induction false} CollapseSpacesUnchanged(s: string)
    requires SingleSpaced(s)
    ensures CollapseSpaces(s) == s
    decreases |s|
  {
    if s != [] {
      var rest := CollapseRest(s);
      assert rest == s[1..] by {
        if IsSpace(s[0]) && |s| > 1 {
          assert !IsSpace(s[1..][0]);
        }
      }
      assert SingleSpaced(rest) by {
        forall k | 0 <= k < |rest| - 1 ensures !(IsSpace(rest[k]) && IsSpace(rest[k + 1])) {
          assert rest[k] == s[k + 1] && rest[k + 1] == s[k + 2];
        }
      }
      CollapseSpacesUnchanged(rest);
      assert s == [s[0]] + rest;
    }
  }

  /** `s.replace(pat, rep)`: the leftmost non-overlapping occurrences of `pat` are replaced, scanning left to right. */
  function Replace(s: string, pat: string, rep: string): (r: string)
    requires pat != []
    ensures !Contains(s, pat) ==> r == s
    ensures forall k :: 0 <= k < |r| ==> r[k] in s || r[k] in rep
    ensures |pat| == 1 && pat[0] !in rep ==> pat[0] !in r
    ensures Contains(s, pat) ==> Contains(r, rep)
    decreases |s|
  {
    if s == [] then []
    else if IsPrefix(pat, s) then
      var tail := Replace(s[|pat|..], pat, rep);
      assert forall k :: 0 <= k < |tail| && tail[k] in s[|pat|..] ==> tail[k] in s;
      assert (rep + tail)[..|rep|] == rep;
      rep + tail
    else
      var tail := Replace(s[1..], pat, rep);
      assert forall k :: 0 <= k < |tail| && tail[k] in s[1..] ==> tail[k] in s;
      assert |pat| == 1 ==> s[0] != pat[0];
      assert ([s[0]] + tail)[1..] == tail;
      [s[0]] + tail
  }

  /** `s` without any occurrence of the character `c`, the rest in order. */
  function Drop(s: string, c: char): string
    decreases |s|
  {
    if s == [] then [] else (if s[0] == c then [] else [s[0]]) + Drop(s[1..], c)
  }

  /** `s.replace(c, '')` deletes every `c` and keeps every other character, in order. */
  lemma {:induction false} ReplaceCharByNothing(s: string, c: char)
    ensures Replace(s, [c], "") == Drop(s, c)
    decreases |s|
  {
    if s != [] {
      ReplaceCharByNothing(s[1..], c);
      if s[0] == c {
        assert IsPrefix([c], s) && s[|[c]|..] == s[1..];
      } else {
        assert !IsPrefix([c], s);
      }
    }
  }

  /** At the first occurrence of `pat`, at `i` (no occurrence ends before `i + |pat|`), the text
      before it is kept, `rep` takes its place, and replacing goes on after it. */
  lemma {:induction false} ReplaceAtFirst(s: string, pat: string, rep: string, i: nat)
    requires pat != [] && i + |pat| <= |s| && s[i..i + |pat|] == pat && !Contains(s[..i + |pat| - 1], pat)
    ensures Replace(s, pat, rep) == s[..i] + rep + Replace(s[i + |pat|..], pat, rep)
    decreases i
  {
    if i == 0 {
      ReplaceAtStart(s, pat, rep);
    } else {
      OccurrenceInTail(s, pat, i);
      ReplaceAtFirst(s[1..], pat, rep, i - 1);
      ReplaceAfterSkip(s, pat, rep, i);
    }
  }

  /** The step of ReplaceAtFirst: a first character that starts no occurrence is kept in front. */
  lemma ReplaceAfterSkip(s: string, pat: string, rep: string, i: nat)
    requires pat != [] && 0 < i && i + |pat| <= |s| && !IsPrefix(pat, s)
    requires Replace(s[1..], pat, rep) == s[1..][..i - 1] + rep + Replace(s[1..][i - 1 + |pat|..], pat, rep)
    ensures Replace(s, pat, rep) == s[..i] + rep + Replace(s[i + |pat|..], pat, rep)
  {
    ReplaceSkips(s, pat, rep);
    TailSlices(s, i, |pat|);
    Regroup(Replace(s, pat, rep), s[0], Replace(s[1..], pat, rep), s[1..][..i - 1], s[..i], rep, Replace(s[i + |pat|..], pat, rep));
  }

  /** An occurrence at the start is replaced at once. */
  lemma ReplaceAtStart(s: string, pat: string, rep: string)
    requires pat != [] && |pat| <= |s| && s[..|pat|] == pat
    ensures Replace(s, pat, rep) == s[..0] + rep + Replace(s[0 + |pat|..], pat, rep)
  {
    assert IsPrefix(pat, s);
    assert s[..0] + rep == rep;
  }

  /** Slices of `s[1..]` as slices of `s`. */
  lemma TailSlices(s: string, i: nat, n: nat)
    requires 0 < i && i + n <= |s|
    ensures [s[0]] + s[1..][..i - 1] == s[..i]
    ensures s[1..][i - 1 + n..] == s[i + n..]
  {
  }

  /** `[c] + (a + r + z)` regrouped as `([c] + a) + r + z`. */
  lemma Regroup(x: string, c: char, y: string, a: string, b: string, r: string, z: string)
    requires x == [c] + y && y == a + r + z && [c] + a == b
    ensures x == b + r + z
  {
  }

  /** Where `pat` does not start `s`, its first character is kept. */
  lemma ReplaceSkips(s: string, pat: string, rep: string)
    requires pat != [] && s != [] && !IsPrefix(pat, s)
    ensures Replace(s, pat, rep) == [s[0]] + Replace(s[1..], pat, rep)
  {
  }

  /** The first occurrence of `pat` at `i` in `s` is the first at `i - 1` in `s[1..]`. */
  lemma OccurrenceInTail(s: string, pat: string, i: nat)
    requires pat != [] && 0 < i && i + |pat| <= |s| && s[i..i + |pat|] == pat && !Contains(s[..i + |pat| - 1], pat)
    ensures s[1..][i - 1..i - 1 + |pat|] == pat && !Contains(s[1..][..i - 1 + |pat| - 1], pat)
    ensures !IsPrefix(pat, s)
  {
    var x := s[..i + |pat| - 1];
    assert x[1..] == s[1..][..i - 1 + |pat| - 1];
    assert x[..|pat|] == s[..|pat|];
  }

  predicate IsPrefix(p: string, s: string) {
    |p| <= |s| && s[..|p|] == p
  }

  /** Python's `sub in s`. */
  predicate Contains(s: string, sub: string)
    decreases |s|
  {
    IsPrefix(sub, s) || (s != [] && Contains(s[1..], sub))
  }

  /** `sub` occurs in `s` at position `i`. */
  predicate OccursAt(s: string, sub: string, i: int) {
    0 <= i <= |s| - |sub| && s[i..i + |sub|] == sub
  }

  /** `sub in s` holds exactly when `sub` occurs in `s` at some position. */
  lemma {:induction false} ContainsMeaning(s: string, sub: string)
    ensures Contains(s, sub) <==> exists i :: OccursAt(s, sub, i)
    decreases |s|
  {
    if IsPrefix(sub, s) {
      assert OccursAt(s, sub, 0);
    } else if s != [] {
      ContainsMeaning(s[1..], sub);
      if Contains(s[1..], sub) {
        var j :| OccursAt(s[1..], sub, j);
        assert s[1..][j..j + |sub|] == s[j + 1..j + 1 + |sub|];
        assert OccursAt(s, sub, j + 1);
      }
      if exists i :: OccursAt(s, sub, i) {
        var i :| OccursAt(s, sub, i);
        assert |sub| <= |s| ==> s[0..|sub|] == s[..|sub|];
        assert i != 0;
        assert s[1..][i - 1..i - 1 + |sub|] == s[i..i + |sub|];
        assert OccursAt(s[1..], sub, i - 1);
      }
    }
  }

  /** `s.split(sep)` with an explicit one-character separator: empty pieces are kept, and
      `"".split(sep) == [""]`. */
  function SplitOn(s: string, sep: char): (parts: seq<string>)
    ensures |parts| >= 1
    ensures forall k :: 0 <= k < |parts| ==> sep !in parts[k]
    decreases |s|
  {
    if s == [] then [""]
    else
      var rest := SplitOn(s[1..], sep);
      if s[0] == sep then [""] + rest
      else [[s[0]] + rest[0]] + rest[1..]
  }

  /** `sep.join(parts)` with a one-character separator. */
  function Join(parts: seq<string>, sep: char): string
    decreases |parts|
  {
    if parts == [] then ""
    else if |parts| == 1 then parts[0]
    else parts[0] + [sep] + Join(parts[1..], sep)
  }

  /** Splitting on a separator and joining with it again gives back the string. */
  lemma {:induction false} JoinSplitOn(s: string, sep: char)
    ensures Join(SplitOn(s, sep), sep) == s
    decreases |s|
  {
    if s != [] {
      var rest := SplitOn(s[1..], sep);
      JoinSplitOn(s[1..], sep);
      if s[0] == sep {
        assert SplitOn(s, sep) == [""] + rest;
        assert ([""] + rest)[1..] == rest;
      } else {
        var parts := [[s[0]] + rest[0]] + rest[1..];
        assert SplitOn(s, sep) == parts;
        if |rest| > 1 {
          assert parts[1..] == rest[1..];
          assert Join(rest, sep) == rest[0] + [sep] + Join(rest[1..], sep);
        }
      }
    }
  }

  /** Splitting a trimmed, single-spaced, non-empty string on `' '` gives only words. */
  lemma {:induction false} SplitOnSingleSpaced(s: string)
    requires s != [] && Trimmed(s) && SingleSpaced(s)
    ensures forall k :: 0 <= k < |SplitOn(s, ' ')| ==> IsWord(SplitOn(s, ' ')[k])
    decreases |s|
  {
    var parts := SplitOn(s, ' ');
    if |s| == 1 {
      var rest := SplitOn(s[1..], ' ');
      assert rest == [""];
      assert parts == [[s[0]] + rest[0]] + rest[1..];
      assert [s[0]] + rest[0] == [s[0]];
    } else if s[1] == ' ' {
      var t := s[2..];
      assert SplitOn(s[1..], ' ') == [""] + SplitOn(t, ' ') by {
        assert s[1..][1..] == t;
      }
      var rest := SplitOn(s[1..], ' ');
      assert parts == [[s[0]] + rest[0]] + rest[1..];
      assert rest[0] == "" && rest[1..] == SplitOn(t, ' ');
      assert [s[0]] + rest[0] == [s[0]];
      assert SingleSpaced(t) by {
        forall k | 0 <= k < |t| - 1 ensures !(IsSpace(t[k]) && IsSpace(t[k + 1])) {
          assert t[k] == s[k + 2] && t[k + 1] == s[k + 3];
        }
      }
      SplitOnSingleSpaced(t);
    } else {
      var t := s[1..];
      assert SingleSpaced(t) by {
        forall k | 0 <= k < |t| - 1 ensures !(IsSpace(t[k]) && IsSpace(t[k + 1])) {
          assert t[k] == s[k + 1] && t[k + 1] == s[k + 2];
        }
      }
      SplitOnSingleSpaced(t);
      var rest := SplitOn(t, ' ');
      assert parts == [[s[0]] + rest[0]] + rest[1..];
      forall k | 0 <= k < |parts| ensures IsWord(parts[k]) {
        if k > 0 {
          assert parts[k] == rest[k];
        }
      }
    }
  }

  /** A word of `s.split()`: non-empty and free of whitespace. */
  predicate IsWord(w: string) {
    w != [] && forall k :: 0 <= k < |w| ==> !IsSpace(w[k])
  }

  /** `s.split()` with no separator: the maximal runs of non-whitespace, in order. */
  function SplitWs(s: string): (words: seq<string>)
    ensures s != [] && !IsSpace(s[0]) ==> words != []
    ensures forall k :: 0 <= k < |words| ==> IsWord(words[k])
    decreases |s|
  {
    if s == [] then []
    else if IsSpace(s[0]) then SplitWs(s[1..])
    else
      var rest := SplitWs(s[1..]);
      if |s| > 1 && !IsSpace(s[1]) then [[s[0]] + rest[0]] + rest[1..]
      else [[s[0]]] + rest
  }

  /** A word followed by whitespace (or nothing) is split off as the first word. */
  lemma {:induction false} SplitWsWord(w: string, t: string)
    requires IsWord(w)
    requires t == [] || IsSpace(t[0])
    ensures SplitWs(w + t) == [w] + SplitWs(t)
    decreases |w|
  {
    if |w| == 1 {
      assert w == [w[0]];
      assert (w + t)[0] == w[0];
      assert (w + t)[1..] == t;
      assert t != [] ==> (w + t)[1] == t[0];
    } else {
      SplitWsWord(w[1..], t);
      assert (w + t)[1..] == w[1..] + t;
      assert [w[0]] + w[1..] == w;
    }
  }

  /** Splitting the words joined by single spaces gives the words back. */
  lemma {:induction false} SplitWsJoin(words: seq<string>)
    requires forall k :: 0 <= k < |words| ==> IsWord(words[k])
    ensures SplitWs(Join(words, ' ')) == words
    decreases |words|
  {
    if |words| == 1 {
      SplitWsWord(words[0], "");
      assert words[0] + "" == words[0];
    } else if |words| > 1 {
      var t := [' '] + Join(words[1..], ' ');
      SplitWsJoin(words[1..]);
      SplitWsWord(words[0], t);
      assert Join(words, ' ') == words[0] + t;
      assert t[1..] == Join(words[1..], ' ');
      assert [words[0]] + words[1..] == words;
    }
  }

  /** A string does not contain a non-empty string whose first character it lacks. */
  lemma {:induction false} FirstCharMissing(s: string, sub: string)
    requires sub != [] && sub[0] !in s
    ensures !Contains(s, sub)
    decreases |s|
  {
    if s != [] {
      assert !IsPrefix(sub, s) by {
        assert |sub| <= |s| ==> s[..|sub|][0] == s[0];
      }
      FirstCharMissing(s[1..], sub);
    }
  }

  /** A string without `c` does not contain the one-character string `[c]`. */
  lemma {:induction false} NotContainsChar(s: string, c: char)
    requires c !in s
    ensures !Contains(s, [c])
    decreases |s|
  {
    if s != [] {
      assert s[0] != c;
      NotContainsChar(s[1..], c);
    }
  }

  /** Every character of a word of `s.split()` is a character of `s`. */
  lemma {:induction false} SplitWsChars(s: string)
    ensures forall k, c :: 0 <= k < |SplitWs(s)| && c in SplitWs(s)[k] ==> c in s
    decreases |s|
  {
    if s != [] {
      SplitWsChars(s[1..]);
      assert forall c :: c in s[1..] ==> c in s;
      var rest := SplitWs(s[1..]);
      if !IsSpace(s[0]) {
        if |s| > 1 && !IsSpace(s[1]) {
          var words := [[s[0]] + rest[0]] + rest[1..];
          assert SplitWs(s) == words;
          forall k, c | 0 <= k < |words| && c in words[k] ensures c in s {
            if k > 0 {
              assert words[k] == rest[k];
            } else {
              assert c == s[0] || c in rest[0];
            }
          }
        } else {
          assert SplitWs(s) == [[s[0]]] + rest;
        }
      }
    }
  }

  /** The non-whitespace characters of `s`, in order. */
  function NonSpace(s: string): string
    decreases |s|
  {
    if s == [] then [] else (if IsSpace(s[0]) then [] else [s[0]]) + NonSpace(s[1..])
  }

  lemma {:induction false} NonSpaceStripLeft(s: string)
    ensures NonSpace(StripLeft(s)) == NonSpace(s)
    decreases |s|
  {
    if s != [] && IsSpace(s[0]) {
      NonSpaceStripLeft(s[1..]);
      assert NonSpace(s) == [] + NonSpace(s[1..]);
    }
  }

  /** Collapsing keeps every non-whitespace character of `s`, in order. */
  lemma {:induction false} CollapseSpacesKeepsText(s: string)
    ensures NonSpace(CollapseSpaces(s)) == NonSpace(s)
    decreases |s|
  {
    if s != [] {
      var rest := CollapseRest(s);
      CollapseSpacesKeepsText(rest);
      var r := CollapseSpaces(s);
      assert r[1..] == CollapseSpaces(rest);
      if IsSpace(s[0]) {
        NonSpaceStripLeft(s[1..]);
        assert NonSpace(r) == [] + NonSpace(r[1..]);
        assert NonSpace(s) == [] + NonSpace(s[1..]);
      }
    }
  }

  /** A collapsed trimmed string is trimmed and single-spaced. */
  lemma CollapseTrimmed(s: string)
    requires Trimmed(s)
    ensures Trimmed(CollapseSpaces(s)) && SingleSpaced(CollapseSpaces(s))
  {
    var r := CollapseSpaces(s);
    CollapseSpacesChars(s);
    CollapseSpacesNoRuns(s);
    if r != [] {
      CollapseSpacesLast(s);
    }
  }

  /** Whitespace only: no words. */
  lemma {:induction false} SplitWsAllSpace(t: string)
    requires forall k :: 0 <= k < |t| ==> IsSpace(t[k])
    ensures SplitWs(t) == []
    decreases |t|
  {
    if t != [] {
      SplitWsAllSpace(t[1..]);
    }
  }

  /** Leading whitespace adds no word. */
  lemma {:induction false} SplitWsStripLeft(s: string)
    ensures SplitWs(StripLeft(s)) == SplitWs(s)
    decreases |s|
  {
    if s != [] && IsSpace(s[0]) {
      SplitWsStripLeft(s[1..]);
    }
  }

  /** Trailing whitespace adds no word. */
  lemma {:induction false} SplitWsTrailing(s: string, t: string)
    requires forall k :: 0 <= k < |t| ==> IsSpace(t[k])
    ensures SplitWs(s + t) == SplitWs(s)
    decreases |s|
  {
    if s == [] {
      assert s + t == t;
      SplitWsAllSpace(t);
    } else {
      assert (s + t)[1..] == s[1..] + t;
      SplitWsTrailing(s[1..], t);
      if |s| == 1 {
        assert s[1..] == [];
        if t != [] {
          assert (s + t)[1] == t[0];
        }
      } else {
        assert (s + t)[1] == s[1];
      }
    }
  }

  /** Trailing whitespace cut off by StripRight adds no word. */
  lemma SplitWsStripRight(l: string)
    ensures SplitWs(StripRight(l)) == SplitWs(l)
  {
    var r := StripRight(l);
    var t := l[|r|..];
    assert l == r + t;
    assert forall k :: 0 <= k < |t| ==> IsSpace(t[k]) by {
      forall k | 0 <= k < |t| ensures IsSpace(t[k]) {
        assert t[k] == l[|r| + k];
      }
    }
    SplitWsTrailing(r, t);
  }

  /** Stripping does not change the words. */
  lemma SplitWsStrip(s: string)
    ensures SplitWs(Strip(s)) == SplitWs(s)
  {
    SplitWsStripLeft(s);
    SplitWsStripRight(StripLeft(s));
    assert Strip(s) == StripRight(StripLeft(s));
  }

  /** Collapsing whitespace does not change the words. */
  lemma {:induction false} SplitWsCollapse(s: string)
    ensures SplitWs(CollapseSpaces(s)) == SplitWs(s)
    decreases |s|
  {
    if s != [] {
      var rest := CollapseRest(s);
      SplitWsCollapse(rest);
      var r := CollapseSpaces(s);
      assert r[1..] == CollapseSpaces(rest);
      if IsSpace(s[0]) {
        SplitWsStripLeft(s[1..]);
      } else if |s| > 1 {
        assert r[1] == CollapseSpaces(rest)[0];
      }
    }
  }

  /** The words of `s.split()` hold exactly the non-whitespace characters of `s`, in order. */
  lemma {:induction false} SplitWsKeepsText(s: string)
    ensures Concat(SplitWs(s)) == NonSpace(s)
    decreases |s|
  {
    if s != [] {
      SplitWsKeepsText(s[1..]);
      var rest := SplitWs(s[1..]);
      if IsSpace(s[0]) {
        assert NonSpace(s) == [] + NonSpace(s[1..]);
      } else if |s| > 1 && !IsSpace(s[1]) {
        var words := [[s[0]] + rest[0]] + rest[1..];
        assert words[1..] == rest[1..];
        assert Concat(rest) == rest[0] + Concat(rest[1..]);
        assert Concat(words) == [s[0]] + rest[0] + Concat(rest[1..]);
      } else {
        assert ([[s[0]]] + rest)[1..] == rest;
      }
    }
  }

  /** The words run together. */
  function Concat(words: seq<string>): string
    decreases |words|
  {
    if words == [] then [] else words[0] + Concat(words[1..])
  }

  /** A trimmed, single-spaced string is its words joined by single spaces. */
  lemma JoinSplitWsNormal(s: string)
    requires Trimmed(s) && SingleSpaced(s)
    ensures Join(SplitWs(s), ' ') == s
  {
    if s != [] {
      SplitOnSingleSpaced(s);
      JoinSplitOn(s, ' ');
      SplitWsJoin(SplitOn(s, ' '));
    }
  }

  /** `' '.join(s.split())` is `s` stripped, with every run of whitespace made one `' '`. */
  lemma SplitWsJoinCollapse(s: string)
    ensures Join(SplitWs(s), ' ') == CollapseSpaces(Strip(s))
  {
    var n := CollapseSpaces(Strip(s));
    CollapseTrimmed(Strip(s));
    SplitWsCollapse(Strip(s));
    SplitWsStrip(s);
    JoinSplitWsNormal(n);
  }
}
