/**
 * The Python string operations the dashboard relies on: `str.isspace`, `strip`, `lower`,
 * `startswith`, `split(sep)`, `split()`, `join` and `replace`.
 */
module Text {

  /** Python's `str.isspace`: the characters `strip()` and `split()` treat as whitespace. */
  predicate IsSpace(c: char)
  {
    || ('\t' <= c <= '\r')
    || ('\U{1C}' <= c <= ' ')
    || c == '\U{85}' || c == '\U{A0}' || c == '\U{1680}'
    || ('\U{2000}' <= c <= '\U{200A}')
    || c == '\U{2028}' || c == '\U{2029}' || c == '\U{202F}' || c == '\U{205F}' || c == '\U{3000}'
  }

  /** True when the string holds nothing but whitespace, i.e. `not s.strip()`. */
  predicate IsBlank(s: string)
  {
    forall i :: 0 <= i < |s| ==> IsSpace(s[i])
  }

  /** The index of the first non-whitespace character at or after `i`, or `|s|` when there is none. */
  function LeadingFrom(s: string, i: nat): (k: nat)
    requires i <= |s|
    ensures i <= k <= |s|
    ensures forall j :: i <= j < k ==> IsSpace(s[j])
    ensures k < |s| ==> !IsSpace(s[k])
    decreases |s| - i
  {
    if i < |s| && IsSpace(s[i]) then LeadingFrom(s, i + 1) else i
  }

  /** The end of `s[..e]` once its trailing whitespace is dropped. */
  function EndFrom(s: string, e: nat): (k: nat)
    requires e <= |s|
    ensures k <= e
    ensures forall j :: k <= j < e ==> IsSpace(s[j])
    ensures k > 0 ==> !IsSpace(s[k - 1])
  {
    if e > 0 && IsSpace(s[e - 1]) then EndFrom(s, e - 1) else e
  }

  /** Python's `str.lstrip()`. */
  function TrimStart(s: string): (r: string)
    ensures |r| <= |s| && r == s[|s| - |r|..]
    ensures r != [] ==> !IsSpace(r[0])
    ensures forall i :: 0 <= i < |s| - |r| ==> IsSpace(s[i])
  {
    s[LeadingFrom(s, 0)..]
  }

  /** Python's `str.strip()`: the slice of `s` left once leading and trailing whitespace is dropped. */
  function Trim(s: string): (r: string)
    ensures var i := LeadingFrom(s, 0); MatchesAt(s, r, i) && IsBlank(s[..i]) && IsBlank(s[i + |r|..])
    ensures r == [] <==> IsBlank(s)
    ensures r != [] ==> !IsSpace(r[0]) && !IsSpace(r[|r| - 1])
    ensures s == [] || (!IsSpace(s[0]) && !IsSpace(s[|s| - 1])) ==> r == s
  {
    var k := LeadingFrom(s, 0);
    var e := EndFrom(s, |s|);
    BlankPrefix(s, k);
    if k == |s| then
      assert s[..k] == s && IsBlank(s);
      assert MatchesAt(s, [], k) && IsBlank(s[k..]);
      []
    else
      assert !IsSpace(s[k]) && k < e && !IsBlank(s);
      BlankSuffix(s, e);
      var r := s[k..e];
      assert r[0] == s[k] && r[|r| - 1] == s[e - 1];
      assert MatchesAt(s, r, k);
      r
  }

  lemma BlankPrefix(s: string, k: nat)
    requires k <= |s| && forall j :: 0 <= j < k ==> IsSpace(s[j])
    ensures IsBlank(s[..k])
  {
    forall j | 0 <= j < k ensures IsSpace(s[..k][j]) { assert s[..k][j] == s[j]; }
  }

  lemma BlankSuffix(s: string, e: nat)
    requires e <= |s| && forall j :: e <= j < |s| ==> IsSpace(s[j])
    ensures IsBlank(s[e..])
  {
    forall j | 0 <= j < |s| - e ensures IsSpace(s[e..][j]) { assert s[e..][j] == s[e + j]; }
  }

  lemma TrimIdempotent(s: string)
    ensures Trim(Trim(s)) == Trim(s)
  {
  }

  /** Python's `str.lower()` on the ASCII letters; every other character is kept. */
  function Lower(s: string): (r: string)
    ensures |r| == |s|
    ensures forall i :: 0 <= i < |s| ==> ('A' <= s[i] <= 'Z' ==> r[i] == s[i] - 'A' + 'a') && (!('A' <= s[i] <= 'Z') ==> r[i] == s[i])
  {
    seq(|s|, i requires 0 <= i < |s| => if 'A' <= s[i] <= 'Z' then s[i] - 'A' + 'a' else s[i])
  }

  predicate StartsWith(s: string, prefix: string)
  {
    |prefix| <= |s| && s[..|prefix|] == prefix
  }

  /** True when `pat` occurs in `s` starting at index `i`. */
  predicate MatchesAt(s: string, pat: string, i: int)
  {
    0 <= i <= |s| - |pat| && s[i..i + |pat|] == pat
  }

  /** True when `pat` occurs somewhere in `s`. */
  predicate Contains(s: string, pat: string)
  {
    exists i :: 0 <= i <= |s| - |pat| && MatchesAt(s, pat, i)
  }

  /** Python's `s.split(sep)` for a non-empty separator: occurrences are found left to right, without overlap. */
  function Split(s: string, sep: string): (parts: seq<string>)
    requires sep != []
    ensures |parts| >= 1
    decreases |s|
  {
    if |s| < |sep| then [s]
    else if s[..|sep|] == sep then [[]] + Split(s[|sep|..], sep)
    else var rest := Split(s[1..], sep); [[s[0]] + rest[0]] + rest[1..]
  }

  /** Python's `sep.join(parts)`. */
  function Join(parts: seq<string>, sep: string): string
  {
    if |parts| == 0 then [] else if |parts| == 1 then parts[0] else parts[0] + sep + Join(parts[1..], sep)
  }

  /** Python's `s.replace(pat, rep)` for a non-empty pattern. */
  function ReplaceAll(s: string, pat: string, rep: string): string
    requires pat != []
    decreases |s|
  {
    if |s| < |pat| then s
    else if s[..|pat|] == pat then rep + ReplaceAll(s[|pat|..], pat, rep)
    else [s[0]] + ReplaceAll(s[1..], pat, rep)
  }

  lemma JoinConsHead(c: char, x: string, tail: seq<string>, sep: string)
    ensures Join([[c] + x] + tail, sep) == [c] + Join([x] + tail, sep)
  {
    if tail != [] {
      assert ([[c] + x] + tail)[1..] == tail;
      assert ([x] + tail)[1..] == tail;
    }
  }

  /** Replacing is splitting at every occurrence and joining the pieces with the replacement. */
  lemma {:induction false} ReplaceIsSplitJoin(s: string, pat: string, rep: string)
    requires pat != []
    ensures ReplaceAll(s, pat, rep) == Join(Split(s, pat), rep)
    decreases |s|
  {
    if |s| < |pat| {
      assert Split(s, pat) == [s];
    } else if s[..|pat|] == pat {
      var after := s[|pat|..];
      ReplaceIsSplitJoin(after, pat, rep);
      var rest := Split(after, pat);
      assert Split(s, pat) == [[]] + rest;
      assert ([[]] + rest)[1..] == rest;
      assert Join([[]] + rest, rep) == [] + rep + Join(rest, rep);
      assert ReplaceAll(s, pat, rep) == rep + ReplaceAll(after, pat, rep);
    } else {
      var tail := s[1..];
      ReplaceIsSplitJoin(tail, pat, rep);
      var rest := Split(tail, pat);
      assert Split(s, pat) == [[s[0]] + rest[0]] + rest[1..];
      JoinConsHead(s[0], rest[0], rest[1..], rep);
      assert [rest[0]] + rest[1..] == rest;
      assert ReplaceAll(s, pat, rep) == [s[0]] + ReplaceAll(tail, pat, rep);
    }
  }

  /** Joining the pieces of a split with the separator gives back the original string. */
  lemma {:induction false} SplitJoinRoundTrip(s: string, sep: string)
    requires sep != []
    ensures Join(Split(s, sep), sep) == s
    decreases |s|
  {
    if |s| < |sep| {
      assert Split(s, sep) == [s];
    } else if s[..|sep|] == sep {
      var after := s[|sep|..];
      SplitJoinRoundTrip(after, sep);
      var rest := Split(after, sep);
      assert Split(s, sep) == [[]] + rest;
      assert ([[]] + rest)[1..] == rest;
      assert Join([[]] + rest, sep) == [] + sep + Join(rest, sep);
      assert s == sep + after;
    } else {
      var tail := s[1..];
      SplitJoinRoundTrip(tail, sep);
      var rest := Split(tail, sep);
      assert Split(s, sep) == [[s[0]] + rest[0]] + rest[1..];
      JoinConsHead(s[0], rest[0], rest[1..], sep);
      assert [rest[0]] + rest[1..] == rest;
      assert s == [s[0]] + tail;
    }
  }

  /**
   * Splitting cuts at the leftmost occurrence first: when the separator occurs, the first piece ends
   * at its first occurrence (overlapping ones included) and the remaining pieces are the split of
   * what follows it; when it does not, the whole string is the only piece.
   */
  predicate LeftmostCut(s: string, sep: string)
    requires sep != []
  {
    var parts := Split(s, sep); var p := |parts[0]|;
    && p <= |s|
    && (forall i :: 0 <= i < p ==> !MatchesAt(s, sep, i))
    && (|parts| == 1 ==> parts[0] == s && !Contains(s, sep))
    && (|parts| > 1 ==> MatchesAt(s, sep, p) && parts[1..] == Split(s[p + |sep|..], sep))
  }

  lemma {:induction false} SplitLeftmost(s: string, sep: string)
    requires sep != []
    ensures LeftmostCut(s, sep)
    decreases |s|
  {
    var parts := Split(s, sep);
    if |s| < |sep| {
      assert parts == [s];
    } else if s[..|sep|] == sep {
      var rest := Split(s[|sep|..], sep);
      assert parts == [[]] + rest;
      assert parts[1..] == rest;
      assert MatchesAt(s, sep, 0);
    } else {
      SplitLeftmost(s[1..], sep);
      LeftmostCutStep(s, sep);
    }
  }

  /** A string that does not start with the separator is cut where its tail is, one position later. */
  lemma LeftmostCutStep(s: string, sep: string)
    requires sep != [] && |s| >= |sep| && s[..|sep|] != sep
    requires LeftmostCut(s[1..], sep)
    ensures LeftmostCut(s, sep)
  {
    var parts := Split(s, sep);
    var tail := s[1..];
    var rest := Split(tail, sep);
    var q := |rest[0]|;
    assert parts == [[s[0]] + rest[0]] + rest[1..];
    assert |parts[0]| == q + 1;
    assert forall i :: 0 <= i < q + 1 ==> !MatchesAt(s, sep, i) by {
      assert !MatchesAt(s, sep, 0);
      MatchesShift(s, sep);
    }
    if |rest| == 1 {
      assert parts[0] == s;
      assert !Contains(s, sep) by {
        forall i | 0 <= i <= |s| - |sep| ensures !MatchesAt(s, sep, i) {
          assert i < |s|;
        }
      }
    } else {
      assert MatchesAt(s, sep, q + 1) by {
        MatchesShift(s, sep);
      }
      var after, tailAfter := s[q + 1 + |sep|..], tail[q + |sep|..];
      assert after == tailAfter;
      assert rest[1..] == Split(tailAfter, sep);
      assert parts[1..] == rest[1..];
      assert parts[1..] == Split(after, sep);
    }
  }

  /** A match past the first character of `s` is a match in `s[1..]`, one position earlier. */
  lemma MatchesShift(s: string, sep: string)
    requires s != []
    ensures forall i :: 1 <= i <= |s| - |sep| ==> (MatchesAt(s, sep, i) <==> MatchesAt(s[1..], sep, i - 1))
  {
    var tail := s[1..];
    forall i | 1 <= i <= |s| - |sep| ensures MatchesAt(s, sep, i) <==> MatchesAt(tail, sep, i - 1) {
      var a, b := s[i..i + |sep|], tail[i - 1..i - 1 + |sep|];
      forall j | 0 <= j < |sep| ensures a[j] == b[j] {
        assert a[j] == s[i + j] && b[j] == tail[i - 1 + j];
      }
      assert a == b;
    }
  }

  /** The first piece of a split is a prefix of the string. */
  lemma {:induction false} SplitHeadIsPrefix(s: string, sep: string)
    requires sep != []
    ensures |Split(s, sep)[0]| <= |s| && Split(s, sep)[0] == s[..|Split(s, sep)[0]|]
    decreases |s|
  {
    if |s| < |sep| {
      assert Split(s, sep) == [s];
    } else if s[..|sep|] == sep {
      assert Split(s, sep)[0] == [];
    } else {
      var tail := s[1..];
      SplitHeadIsPrefix(tail, sep);
      var head := Split(tail, sep)[0];
      assert Split(s, sep)[0] == [s[0]] + head;
      assert s[..|head| + 1] == [s[0]] + tail[..|head|];
    }
  }

  /** No piece of a split contains the separator: every occurrence was cut out. */
  lemma {:induction false} SplitPiecesFree(s: string, sep: string)
    requires sep != []
    ensures forall k :: 0 <= k < |Split(s, sep)| ==> !Contains(Split(s, sep)[k], sep)
    decreases |s|
  {
    var parts := Split(s, sep);
    if |s| < |sep| {
      assert parts == [s];
    } else if s[..|sep|] == sep {
      SplitPiecesFree(s[|sep|..], sep);
      var rest := Split(s[|sep|..], sep);
      assert parts == [[]] + rest;
      forall k | 0 <= k < |parts| ensures !Contains(parts[k], sep) {
        if k > 0 { assert parts[k] == rest[k - 1]; }
      }
    } else {
      SplitPiecesFree(s[1..], sep);
      SplitHeadIsPrefix(s[1..], sep);
      var rest := Split(s[1..], sep);
      var head := [s[0]] + rest[0];
      assert parts == [head] + rest[1..];
      assert head == s[..|head|];
      forall k | 0 <= k < |parts| ensures !Contains(parts[k], sep) {
        if k > 0 {
          assert parts[k] == rest[k];
        } else {
          NoMatchInHead(s, sep, rest[0]);
        }
      }
    }
  }

  /** A string that contains the separator splits into at least two pieces. */
  lemma SplitAtLeastTwo(s: string, sep: string)
    requires sep != [] && Contains(s, sep)
    ensures |Split(s, sep)| >= 2
  {
    SplitJoinRoundTrip(s, sep);
    SplitPiecesFree(s, sep);
  }

  /** Splitting at a first occurrence of the separator that no earlier match overlaps yields the text before it as the first piece. */
  lemma {:induction false} SplitAtFirst(a: string, sep: string, rest: string)
    requires sep != []
    requires forall i :: 0 <= i < |a| ==> !MatchesAt(a + sep + rest, sep, i)
    ensures Split(a + sep + rest, sep) == [a] + Split(rest, sep)
  {
    var s := a + sep + rest;
    if a == [] {
      assert s == sep + rest && s[..|sep|] == sep && s[|sep|..] == rest;
    } else {
      assert !MatchesAt(s, sep, 0);
      assert s[1..] == a[1..] + sep + rest;
      forall i | 0 <= i < |a[1..]| ensures !MatchesAt(a[1..] + sep + rest, sep, i) {
        assert !MatchesAt(s, sep, i + 1);
        assert (a[1..] + sep + rest)[i..i + |sep|] == s[i + 1..i + 1 + |sep|];
      }
      SplitAtFirst(a[1..], sep, rest);
      assert [a[0]] + a[1..] == a;
    }
  }

  /** A string without the one-character separator splits into itself alone. */
  lemma {:induction false} SplitWithout(s: string, c: char)
    requires c !in s
    ensures Split(s, [c]) == [s]
    decreases |s|
  {
    if |s| >= 1 {
      assert s[..1] != [c] by {
        assert s[0] in s;
      }
      assert c !in s[1..];
      SplitWithout(s[1..], c);
      assert [s[0]] + s[1..] == s;
    }
  }

  /**
   * Joining lines that hold no separator character and splitting the result at that character
   * gives the lines back.
   */
  lemma {:induction false} JoinSplitRoundTrip(lines: seq<string>, c: char)
    requires lines != []
    requires forall k :: 0 <= k < |lines| ==> c !in lines[k]
    ensures Split(Join(lines, [c]), [c]) == lines
  {
    if |lines| == 1 {
      SplitWithout(lines[0], c);
    } else {
      var a, rest := lines[0], Join(lines[1..], [c]);
      var s := a + [c] + rest;
      forall i | 0 <= i < |a|
        ensures !MatchesAt(s, [c], i)
      {
        assert s[i] == a[i] && a[i] in a;
        assert s[i..i + 1] == [s[i]];
      }
      SplitAtFirst(a, [c], rest);
      JoinSplitRoundTrip(lines[1..], c);
      assert [lines[0]] + lines[1..] == lines;
    }
  }

  /** Stripping one space from each side of a string that has no surrounding whitespace gives it back. */
  lemma TrimPadded(x: string)
    requires x != [] && !IsSpace(x[0]) && !IsSpace(x[|x| - 1])
    ensures Trim(" " + x + " ") == x
  {
    var s := " " + x + " ";
    assert s[0] == ' ' && s[1] == x[0] && s[|s| - 1] == ' ' && s[|s| - 2] == x[|x| - 1];
    assert LeadingFrom(s, 0) == 1 && EndFrom(s, |s|) == |s| - 1;
    assert s[1..|s| - 1] == x;
  }

  lemma NoMatchInHead(s: string, sep: string, tail: string)
    requires sep != [] && |sep| <= |s| && s[..|sep|] != sep
    requires |tail| < |s| && [s[0]] + tail == s[..|tail| + 1]
    requires !Contains(tail, sep)
    ensures !Contains([s[0]] + tail, sep)
  {
    var head := [s[0]] + tail;
    forall i | 0 <= i <= |head| - |sep| ensures !MatchesAt(head, sep, i) {
      if i == 0 {
        assert head[..|sep|] == s[..|sep|];
      } else {
        assert head[i..i + |sep|] == tail[i - 1..i - 1 + |sep|];
        assert !MatchesAt(tail, sep, i - 1);
      }
    }
  }

  /** Text with no occurrence of the pattern is left as it is. */
  lemma ReplaceAbsent(s: string, pat: string, rep: string)
    requires pat != []
    ensures !Contains(s, pat) ==> ReplaceAll(s, pat, rep) == s
  {
    ReplaceIsSplitJoin(s, pat, rep);
    SplitJoinRoundTrip(s, pat);
    var parts := Split(s, pat);
    if |parts| >= 2 {
      // s == parts[0] + pat + ..., so the pattern occurs in s
      assert s == parts[0] + pat + Join(parts[1..], pat);
      assert MatchesAt(s, pat, |parts[0]|);
    }
  }

  /**
   * The word `s.split()[0]` when `s` is not blank, and "" when it is: the run of non-whitespace
   * characters that starts the text once its leading whitespace is dropped.
   */
  function FirstWord(s: string): (w: string)
    ensures w == [] <==> IsBlank(s)
    ensures forall i :: 0 <= i < |w| ==> !IsSpace(w[i])
    ensures var t := TrimStart(s); |w| <= |t| && w == t[..|w|] && (|w| < |t| ==> IsSpace(t[|w|]))
  {
    TakeWord(TrimStart(s))
  }

  function TakeWord(s: string): (w: string)
    ensures |w| <= |s| && w == s[..|w|]
    ensures forall i :: 0 <= i < |w| ==> !IsSpace(w[i])
    ensures |w| < |s| ==> IsSpace(s[|w|])
  {
    if s == [] || IsSpace(s[0]) then [] else [s[0]] + TakeWord(s[1..])
  }
}
