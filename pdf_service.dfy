/** `PDFService` (packages/server/src/services/pdf.service.ts): normalising the text a PDF
    parser returns, recognising a PDF by its magic bytes, and wrapping parser failures.
    The parser itself (`pdf-parse`) is a parameter. */
module PdfService {
  import opened Wrappers
  import opened JsStrings
  import opened Errors

  type Byte = b: int | 0 <= b < 0x100

  /** The value of one base64 alphabet character. */
  type Sextet = v: int | 0 <= v < 64

  const FormFeed: char := '\U{000C}'

  // ---------------------------------------------------------------------------
  // cleanText: a chain of global regular-expression replacements
  // ---------------------------------------------------------------------------

  /** Every whitespace character is a plain space. */
  predicate OnlySpaces(s: string) {
    forall i :: 0 <= i < |s| && IsWhitespace(s[i]) ==> s[i] == ' '
  }

  /** The characters at `i - 1` and `i` are both whitespace. */
  predicate WhitespacePairAt(s: string, i: int)
    requires 0 < i < |s|
  {
    IsWhitespace(s[i - 1]) && IsWhitespace(s[i])
  }

  /** No two whitespace characters are adjacent. */
  predicate NoAdjacentWhitespace(s: string) {
    forall i :: 0 < i < |s| ==> !WhitespacePairAt(s, i)
  }

  /** The shape of every text `cleanText` returns: words separated by single spaces,
      with nothing before the first word or after the last. */
  predicate Normalized(s: string) {
    OnlySpaces(s) && NoAdjacentWhitespace(s) && NoEdgeWhitespace(s)
  }

  /** Single-space spacing survives taking any slice. */
  lemma SliceKeepsSpacing(s: string, i: int, j: int)
    requires OnlySpaces(s) && NoAdjacentWhitespace(s) && 0 <= i <= j <= |s|
    ensures OnlySpaces(s[i..j]) && NoAdjacentWhitespace(s[i..j])
  {
    var t := s[i..j];
    forall k | 0 <= k < |t| && IsWhitespace(t[k]) ensures t[k] == ' ' {
      assert t[k] == s[i + k];
    }
    forall k | 0 < k < |t| ensures !WhitespacePairAt(t, k) {
      assert t[k] == s[i + k] && t[k - 1] == s[i + k - 1];
      assert !WhitespacePairAt(s, i + k);
    }
  }

  /** Putting a space or a non-whitespace character in front of single-spaced text keeps
      it single-spaced, provided a space is not followed by whitespace. */
  lemma ConsKeepsSpacing(x: char, rest: string)
    requires OnlySpaces(rest) && NoAdjacentWhitespace(rest)
    requires IsWhitespace(x) ==> x == ' ' && (rest == [] || !IsWhitespace(rest[0]))
    ensures OnlySpaces([x] + rest) && NoAdjacentWhitespace([x] + rest)
  {
    var t := [x] + rest;
    forall k | 0 <= k < |t| && IsWhitespace(t[k]) ensures t[k] == ' ' {
      if k > 0 { assert t[k] == rest[k - 1]; }
    }
    forall k | 0 < k < |t| ensures !WhitespacePairAt(t, k) {
      if k > 1 {
        assert t[k] == rest[k - 1] && t[k - 1] == rest[k - 2];
        assert !WhitespacePairAt(rest, k - 1);
      }
    }
  }

  /** `text.replace(/\s+/g, " ")`: every maximal run of whitespace becomes one space. */
  function CollapseWhitespace(s: string): (r: string)
    ensures |r| <= |s|
    ensures |s| > 0 ==> |r| > 0 && (IsWhitespace(r[0]) <==> IsWhitespace(s[0]))
  {
    if s == [] then []
    else if !IsWhitespace(s[0]) then [s[0]] + CollapseWhitespace(s[1..])
    else if |s| > 1 && IsWhitespace(s[1]) then CollapseWhitespace(s[1..])
    else [' '] + CollapseWhitespace(s[1..])
  }

  /** A non-empty blank run in front of a word collapses to one space. */
  lemma {:induction false} CollapseBlankThen(w: string, b: string)
    requires w != [] && AllWhitespace(w)
    requires b == [] || !IsWhitespace(b[0])
    ensures CollapseWhitespace(w + b) == " " + CollapseWhitespace(b)
    decreases |w|
  {
    var s := w + b;
    assert s[0] == w[0];
    if |w| == 1 {
      assert s[1..] == b;
    } else {
      assert s[1] == w[1] && s[1..] == w[1..] + b;
      CollapseBlankThen(w[1..], b);
    }
  }

  /** A whitespace run between two words becomes exactly one space, whatever it held:
      collapsing works on each side of it separately. */
  lemma {:induction false} CollapseRunBetween(a: string, w: string, b: string)
    requires w != [] && AllWhitespace(w)
    requires a == [] || !IsWhitespace(a[|a| - 1])
    requires b == [] || !IsWhitespace(b[0])
    ensures CollapseWhitespace(a + w + b) == CollapseWhitespace(a) + " " + CollapseWhitespace(b)
    decreases |a|
  {
    if a == [] {
      assert a + w + b == w + b;
      CollapseBlankThen(w, b);
    } else {
      var s := a + w + b;
      assert s[0] == a[0] && s[1..] == a[1..] + w + b;
      if IsWhitespace(a[0]) {
        assert |a| >= 2 && s[1] == a[1];
      }
      CollapseRunBetween(a[1..], w, b);
      var x, y := CollapseWhitespace(a[1..]), CollapseWhitespace(b);
      if !IsWhitespace(a[0]) || !IsWhitespace(a[1]) {
        var c := if IsWhitespace(a[0]) then ' ' else a[0];
        ConcatAssoc([c], x + " ", y);
        ConcatAssoc([c], x, " ");
      }
    }
  }

  /** After collapsing, whitespace is single spaces. */
  lemma {:induction false} CollapsedIsSingleSpaced(s: string)
    ensures OnlySpaces(CollapseWhitespace(s)) && NoAdjacentWhitespace(CollapseWhitespace(s))
  {
    if s != [] {
      CollapsedIsSingleSpaced(s[1..]);
      var rest := CollapseWhitespace(s[1..]);
      if !IsWhitespace(s[0]) {
        ConsKeepsSpacing(s[0], rest);
      } else if !(|s| > 1 && IsWhitespace(s[1])) {
        ConsKeepsSpacing(' ', rest);
      }
    }
  }

  /** Collapsing deletes and replaces whitespace only: the words are kept, in order. */
  lemma {:induction false} CollapseKeepsWords(s: string)
    ensures NonWhitespace(CollapseWhitespace(s)) == NonWhitespace(s)
  {
    if s != [] {
      CollapseKeepsWords(s[1..]);
      var rest := CollapseWhitespace(s[1..]);
      if !IsWhitespace(s[0]) {
        assert ([s[0]] + rest)[1..] == rest;
      } else if !(|s| > 1 && IsWhitespace(s[1])) {
        assert ([' '] + rest)[1..] == rest;
      }
    }
  }

  /** Text that is already single-spaced is left alone. */
  lemma {:induction false} CollapseFixesSingleSpaced(s: string)
    requires OnlySpaces(s) && NoAdjacentWhitespace(s)
    ensures CollapseWhitespace(s) == s
  {
    if s != [] {
      SliceKeepsSpacing(s, 1, |s|);
      assert s[1..|s|] == s[1..];
      CollapseFixesSingleSpaced(s[1..]);
      if |s| > 1 {
        assert !WhitespacePairAt(s, 1);
      }
      assert s == [s[0]] + s[1..];
    }
  }

  /** Trimming a single-spaced text yields a normalized text. */
  lemma TrimSingleSpacedIsNormalized(s: string)
    requires OnlySpaces(s) && NoAdjacentWhitespace(s)
    ensures Normalized(Trim(s))
  {
    var t := TrimStart(s);
    SliceKeepsSpacing(s, |s| - |t|, |s|);
    assert s[|s| - |t|..|s|] == t;
    var r := TrimEnd(t);
    SliceKeepsSpacing(t, 0, |r|);
    assert r == Trim(s);
  }

  /** A single-spaced text holds no form feed, carriage return or line feed. */
  lemma SingleSpacedHasNoLineBreaks(s: string)
    requires OnlySpaces(s)
    ensures FormFeed !in s && '\r' !in s && '\n' !in s
  {
    forall i | 0 <= i < |s| ensures s[i] != FormFeed && s[i] != '\r' && s[i] != '\n' {
      assert IsWhitespace(s[i]) ==> s[i] == ' ';
    }
  }

  /** `s` with every occurrence of `c` deleted (`s.replace(/c/g, "")`). */
  function Without(s: string, c: char): (r: string)
    ensures |r| <= |s|
    ensures c !in r
    ensures c !in s ==> r == s
  {
    if s == [] then []
    else if s[0] == c then Without(s[1..], c)
    else
      assert s == [s[0]] + s[1..];
      [s[0]] + Without(s[1..], c)
  }

  lemma {:induction false} WithoutAppend(a: string, b: string, c: char)
    ensures Without(a + b, c) == Without(a, c) + Without(b, c)
  {
    if a == [] {
      assert a + b == b;
    } else {
      assert (a + b)[0] == a[0];
      assert (a + b)[1..] == a[1..] + b;
      WithoutAppend(a[1..], b, c);
    }
  }

  lemma {:induction false} WithoutOfOnly(s: string, c: char)
    requires forall i :: 0 <= i < |s| ==> s[i] == c
    ensures Without(s, c) == []
  {
    if s != [] {
      WithoutOfOnly(s[1..], c);
    }
  }

  /** `s.replace(/\r\n/g, "\n")`: scanning left to right, each CR LF pair becomes LF. */
  function ReplaceCrLf(s: string): (r: string)
    ensures |r| <= |s|
    ensures NoCrLfPair(s) ==> r == s
  {
    if |s| >= 2 && s[0] == '\r' && s[1] == '\n' then "\n" + ReplaceCrLf(s[2..])
    else if s == [] then []
    else
      assert s == [s[0]] + s[1..];
      [s[0]] + ReplaceCrLf(s[1..])
  }

  /** No CR is immediately followed by an LF. */
  predicate NoCrLfPair(s: string) {
    forall i :: 0 <= i < |s| - 1 ==> !(s[i] == '\r' && s[i + 1] == '\n')
  }

  /** Each CR LF pair becomes one LF, and the text on either side of it is rewritten on
      its own: no pair straddles the seams. Together with the fixed point on text
      without pairs, this pins the rewrite down; a CR not followed by LF survives. */
  lemma {:induction false} ReplaceCrLfAtPair(a: string, b: string)
    ensures ReplaceCrLf(a + "\r\n" + b) == ReplaceCrLf(a) + "\n" + ReplaceCrLf(b)
    decreases |a|
  {
    if a == [] {
      assert a + "\r\n" + b == "\r\n" + b;
      ReplaceCrLfOfPair(b);
    } else if |a| >= 2 && a[0] == '\r' && a[1] == '\n' {
      ReplaceCrLfAtPair(a[2..], b);
      ReplaceCrLfPairFirst(a, b);
      ConcatAssoc("\n", ReplaceCrLf(a[2..]) + "\n", ReplaceCrLf(b));
      ConcatAssoc("\n", ReplaceCrLf(a[2..]), "\n");
    } else {
      ReplaceCrLfAtPair(a[1..], b);
      ReplaceCrLfOtherFirst(a, b);
      ConcatAssoc([a[0]], ReplaceCrLf(a[1..]) + "\n", ReplaceCrLf(b));
      ConcatAssoc([a[0]], ReplaceCrLf(a[1..]), "\n");
    }
  }

  lemma ReplaceCrLfOfPair(b: string)
    ensures ReplaceCrLf("\r\n" + b) == "\n" + ReplaceCrLf(b)
  {
    assert ("\r\n" + b)[2..] == b;
  }

  lemma ReplaceCrLfPairFirst(a: string, b: string)
    requires |a| >= 2 && a[0] == '\r' && a[1] == '\n'
    ensures ReplaceCrLf(a + "\r\n" + b) == "\n" + ReplaceCrLf(a[2..] + "\r\n" + b)
    ensures ReplaceCrLf(a) == "\n" + ReplaceCrLf(a[2..])
  {
    var s := a + "\r\n" + b;
    assert s[0] == '\r' && s[1] == '\n' && s[2..] == a[2..] + "\r\n" + b;
  }

  lemma ReplaceCrLfOtherFirst(a: string, b: string)
    requires a != [] && !(|a| >= 2 && a[0] == '\r' && a[1] == '\n')
    ensures ReplaceCrLf(a + "\r\n" + b) == [a[0]] + ReplaceCrLf(a[1..] + "\r\n" + b)
    ensures ReplaceCrLf(a) == [a[0]] + ReplaceCrLf(a[1..])
  {
    var s := a + "\r\n" + b;
    assert s[0] == a[0] && s[1..] == a[1..] + "\r\n" + b;
    assert s[1] == if |a| == 1 then '\r' else a[1];
  }

  /** Replacing CR LF by LF deletes carriage returns only. */
  lemma {:induction false} ReplaceCrLfDeletesOnlyCarriageReturns(s: string)
    ensures Without(ReplaceCrLf(s), '\r') == Without(s, '\r')
    decreases |s|
  {
    if |s| >= 2 && s[0] == '\r' && s[1] == '\n' {
      ReplaceCrLfDeletesOnlyCarriageReturns(s[2..]);
      assert s == "\r\n" + s[2..];
      WithoutAppend("\r\n", s[2..], '\r');
      WithoutAppend("\n", ReplaceCrLf(s[2..]), '\r');
    } else if s != [] {
      ReplaceCrLfDeletesOnlyCarriageReturns(s[1..]);
      assert s == [s[0]] + s[1..];
      WithoutAppend([s[0]], s[1..], '\r');
      WithoutAppend([s[0]], ReplaceCrLf(s[1..]), '\r');
    }
  }

  /** `s.replace(/\r/g, "\n")`: every remaining carriage return becomes a line feed and
      every other character stays where it was. */
  function ReplaceCr(s: string): (r: string)
    ensures |r| == |s| && '\r' !in r
    ensures forall i :: 0 <= i < |s| && s[i] != '\r' ==> r[i] == s[i]
    ensures forall i :: 0 <= i < |s| && s[i] == '\r' ==> r[i] == '\n'
    ensures '\r' !in s ==> r == s
  {
    if s == [] then []
    else
      var rest := ReplaceCr(s[1..]);
      assert '\r' !in s ==> s == [s[0]] + s[1..];
      [if s[0] == '\r' then '\n' else s[0]] + rest
  }

  /** The suffix of `s` after its leading line feeds. */
  function DropNewlines(s: string): (r: string)
    ensures |r| <= |s| && r == s[|s| - |r|..]
    ensures forall k :: 0 <= k < |s| - |r| ==> s[k] == '\n'
    ensures r == [] || r[0] != '\n'
  {
    if s != [] && s[0] == '\n' then DropNewlines(s[1..]) else s
  }

  /** Three line feeds start at `i`. */
  predicate NewlineTripleAt(s: string, i: int)
    requires 0 <= i < |s| - 2
  {
    s[i] == '\n' && s[i + 1] == '\n' && s[i + 2] == '\n'
  }

  /** No three consecutive line feeds. */
  predicate NoNewlineTriple(s: string) {
    forall i :: 0 <= i < |s| - 2 ==> !NewlineTripleAt(s, i)
  }

  /** `s.replace(/\n{3,}/g, "\n\n")`: every run of three or more line feeds becomes two. */
  function CapNewlineRuns(s: string): (r: string)
    ensures |r| <= |s|
    ensures |r| >= 1 && r[0] == '\n' ==> s[0] == '\n'
    ensures |r| >= 2 && r[0] == '\n' && r[1] == '\n' ==> |s| >= 2 && s[1] == '\n'
    decreases |s|
  {
    if |s| >= 3 && s[0] == '\n' && s[1] == '\n' && s[2] == '\n' then
      "\n\n" + CapNewlineRuns(DropNewlines(s))
    else if s == [] then []
    else
      var rest := CapNewlineRuns(s[1..]);
      assert ([s[0]] + rest)[1..] == rest;
      [s[0]] + rest
  }

  /** Prefixing text whose first three characters are not all line feeds. */
  lemma PrefixKeepsNoTriple(p: string, rest: string)
    requires NoNewlineTriple(rest) && |p| <= 2
    requires forall k :: 0 <= k < |p| + |rest| - 2 && k < |p| ==> !NewlineTripleAt(p + rest, k)
    ensures NoNewlineTriple(p + rest)
  {
    var t := p + rest;
    forall k | 0 <= k < |t| - 2 ensures !NewlineTripleAt(t, k) {
      if k >= |p| {
        assert t[k] == rest[k - |p|] && t[k + 1] == rest[k - |p| + 1] && t[k + 2] == rest[k - |p| + 2];
        assert !NewlineTripleAt(rest, k - |p|);
      }
    }
  }

  /** After capping, no run of three line feeds survives. */
  lemma {:induction false} CapNewlineRunsLeavesNoTriple(s: string)
    ensures NoNewlineTriple(CapNewlineRuns(s))
    decreases |s|
  {
    if |s| >= 3 && s[0] == '\n' && s[1] == '\n' && s[2] == '\n' {
      var rest := CapNewlineRuns(DropNewlines(s));
      CapNewlineRunsLeavesNoTriple(DropNewlines(s));
      PrefixKeepsNoTriple("\n\n", rest);
    } else if s != [] {
      var rest := CapNewlineRuns(s[1..]);
      CapNewlineRunsLeavesNoTriple(s[1..]);
      PrefixKeepsNoTriple([s[0]], rest);
    }
  }

  /** Capping line-feed runs deletes line feeds only. */
  lemma {:induction false} CapNewlineRunsDeletesOnlyNewlines(s: string)
    ensures Without(CapNewlineRuns(s), '\n') == Without(s, '\n')
    decreases |s|
  {
    if |s| >= 3 && s[0] == '\n' && s[1] == '\n' && s[2] == '\n' {
      var d := DropNewlines(s);
      CapNewlineRunsDeletesOnlyNewlines(d);
      DropNewlinesDeletesOnlyNewlines(s);
      WithoutAppend("\n\n", CapNewlineRuns(d), '\n');
      WithoutOfOnly("\n\n", '\n');
    } else if s != [] {
      CapNewlineRunsDeletesOnlyNewlines(s[1..]);
      WithoutCons(s[0], CapNewlineRuns(s[1..]), '\n');
    }
  }

  lemma WithoutCons(x: char, t: string, c: char)
    ensures Without([x] + t, c) == (if x == c then [] else [x]) + Without(t, c)
  {
    assert ([x] + t)[0] == x && ([x] + t)[1..] == t;
  }

  lemma DropNewlinesDeletesOnlyNewlines(s: string)
    ensures Without(DropNewlines(s), '\n') == Without(s, '\n')
  {
    var d := DropNewlines(s);
    assert s == s[..|s| - |d|] + d;
    WithoutAppend(s[..|s| - |d|], d, '\n');
    WithoutOfOnly(s[..|s| - |d|], '\n');
  }

  /** Text without a run of three line feeds passes through unchanged. */
  lemma {:induction false} CapNewlineRunsFixesNoTriple(s: string)
    requires NoNewlineTriple(s)
    ensures CapNewlineRuns(s) == s
    decreases |s|
  {
    if s != [] {
      if |s| >= 3 {
        assert !NewlineTripleAt(s, 0);
      }
      forall i | 0 <= i < |s[1..]| - 2 ensures !NewlineTripleAt(s[1..], i) {
        assert !NewlineTripleAt(s, i + 1);
      }
      CapNewlineRunsFixesNoTriple(s[1..]);
      assert s == [s[0]] + s[1..];
    }
  }

  /** `n` line feeds. */
  function Newlines(n: nat): (r: string)
    ensures |r| == n && forall i :: 0 <= i < n ==> r[i] == '\n'
  {
    if n == 0 then [] else "\n" + Newlines(n - 1)
  }

  /** Leading line feeds in front of a character that is not one are all dropped. */
  lemma {:induction false} DropNewlinesOfRun(n: nat, b: string)
    requires b == [] || b[0] != '\n'
    ensures DropNewlines(Newlines(n) + b) == b
    decreases n
  {
    var s := Newlines(n) + b;
    if n == 0 {
      assert Newlines(n) == [];
      assert s == b;
    } else {
      var rest := Newlines(n - 1) + b;
      assert Newlines(n) == "\n" + Newlines(n - 1);
      assert s == "\n" + rest;
      DropNewlinesOfRun(n - 1, b);
      assert DropNewlines(s) == DropNewlines(s[1..]);
      assert s[1..] == rest;
    }
  }

  /** A run of three or more line feeds between other characters becomes exactly two,
      and the text on either side is rewritten on its own. */
  lemma CapNewlineRunsAtRun(a: string, n: nat, b: string)
    requires n >= 3
    requires a == [] || a[|a| - 1] != '\n'
    requires b == [] || b[0] != '\n'
    ensures CapNewlineRuns(a + Newlines(n) + b) == CapNewlineRuns(a) + "\n\n" + CapNewlineRuns(b)
  {
    CapNewlineRunsAppend(a, Newlines(n) + b);
    CapNewlineRunsOfRun(n, b);
    ConcatAssoc(a, Newlines(n), b);
    ConcatAssoc(CapNewlineRuns(a), "\n\n", CapNewlineRuns(b));
  }

  /** After a character other than a line feed, no run reaches back across the seam: the
      two sides are rewritten separately. */
  lemma {:induction false} CapNewlineRunsAppend(a: string, t: string)
    requires a == [] || a[|a| - 1] != '\n'
    ensures CapNewlineRuns(a + t) == CapNewlineRuns(a) + CapNewlineRuns(t)
    decreases |a|
  {
    if a == [] {
      assert a + t == t;
    } else if |a| >= 3 && NewlineTripleAt(a, 0) {
      var d := DropNewlines(a);
      CapNewlineRunsTripleFirst(a, t);
      CapNewlineRunsAppend(d, t);
      var x, y := CapNewlineRuns(d), CapNewlineRuns(t);
      assert CapNewlineRuns(a + t) == "\n\n" + (x + y);
      assert CapNewlineRuns(a) == "\n\n" + x;
      ConcatAssoc("\n\n", x, y);
    } else {
      var rest := a[1..];
      assert rest == [] || rest[|rest| - 1] == a[|a| - 1];
      CapNewlineRunsOtherFirst(a, t);
      CapNewlineRunsAppend(rest, t);
      var x, y := CapNewlineRuns(rest), CapNewlineRuns(t);
      assert CapNewlineRuns(a + t) == [a[0]] + (x + y);
      assert CapNewlineRuns(a) == [a[0]] + x;
      ConcatAssoc([a[0]], x, y);
    }
  }

  lemma ConcatAssoc(p: string, x: string, y: string)
    ensures p + (x + y) == (p + x) + y
  {
  }

  /** A text that opens with the run becomes two line feeds and the rest. */
  lemma CapNewlineRunsOfRun(n: nat, b: string)
    requires n >= 3
    requires b == [] || b[0] != '\n'
    ensures CapNewlineRuns(Newlines(n) + b) == "\n\n" + CapNewlineRuns(b)
  {
    var s := Newlines(n) + b;
    assert s[0] == '\n' && s[1] == '\n' && s[2] == '\n';
    DropNewlinesOfRun(n, b);
  }

  /** When `a` opens with three line feeds and ends in another character, the run is
      dropped within `a`, whatever follows it. */
  lemma CapNewlineRunsTripleFirst(a: string, t: string)
    requires a != [] && a[|a| - 1] != '\n'
    requires |a| >= 3 && NewlineTripleAt(a, 0)
    ensures CapNewlineRuns(a + t) == "\n\n" + CapNewlineRuns(DropNewlines(a) + t)
    ensures CapNewlineRuns(a) == "\n\n" + CapNewlineRuns(DropNewlines(a))
    ensures DropNewlines(a) == [] || DropNewlines(a)[|DropNewlines(a)| - 1] != '\n'
    ensures |DropNewlines(a)| < |a|
  {
    var s := a + t;
    assert s[0] == a[0] && s[1] == a[1] && s[2] == a[2];
    DropNewlinesInPrefix(a, t);
  }

  /** Dropping the leading line feeds of `a + t`, where `a` ends in another character,
      stays inside `a`. */
  lemma {:induction false} DropNewlinesInPrefix(a: string, t: string)
    requires a != [] && a[|a| - 1] != '\n'
    ensures DropNewlines(a + t) == DropNewlines(a) + t
    ensures DropNewlines(a) != [] && DropNewlines(a)[|DropNewlines(a)| - 1] != '\n'
    decreases |a|
  {
    assert (a + t)[0] == a[0];
    if a[0] == '\n' {
      assert (a + t)[1..] == a[1..] + t;
      DropNewlinesInPrefix(a[1..], t);
    }
  }

  /** When `a` does not open with three line feeds, neither does `a + t`, provided `a`
      ends in another character. */
  lemma CapNewlineRunsOtherFirst(a: string, t: string)
    requires a != [] && a[|a| - 1] != '\n'
    requires !(|a| >= 3 && NewlineTripleAt(a, 0))
    ensures CapNewlineRuns(a + t) == [a[0]] + CapNewlineRuns(a[1..] + t)
    ensures CapNewlineRuns(a) == [a[0]] + CapNewlineRuns(a[1..])
  {
    var s := a + t;
    assert s[0] == a[0] && s[1..] == a[1..] + t;
  }

  /** Text without line feeds passes through unchanged. */
  lemma {:induction false} CapNewlineRunsWithoutNewlines(s: string)
    requires '\n' !in s
    ensures CapNewlineRuns(s) == s
  {
    if s != [] {
      assert s[0] != '\n';
      CapNewlineRunsWithoutNewlines(s[1..]);
      assert s == [s[0]] + s[1..];
    }
  }

  /** `cleanText`: collapse whitespace runs to one space, trim, then strip form feeds,
      turn CR LF and CR into LF and cap line-feed runs at two. The result is normalized,
      so the last four rewrites never change anything; it keeps every non-whitespace
      character of the input in order, and is never longer than the input. */
  function CleanText(text: string): (r: string)
    ensures Normalized(r)
    ensures NonWhitespace(r) == NonWhitespace(text)
    ensures |r| <= |text|
  {
    var collapsed := CollapseWhitespace(text);
    var trimmed := Trim(collapsed);
    CollapsedIsSingleSpaced(text);
    CollapseKeepsWords(text);
    TrimSingleSpacedIsNormalized(collapsed);
    SingleSpacedHasNoLineBreaks(trimmed);
    CapNewlineRunsWithoutNewlines(trimmed);
    CapNewlineRuns(ReplaceCr(ReplaceCrLf(Without(trimmed, FormFeed))))
  }

  /** The later rewrites never change anything: the clean form is the trimmed collapse. */
  lemma CleanTextIsTrimmedCollapse(text: string)
    ensures CleanText(text) == Trim(CollapseWhitespace(text))
  {
    var trimmed := Trim(CollapseWhitespace(text));
    CollapsedIsSingleSpaced(text);
    TrimSingleSpacedIsNormalized(CollapseWhitespace(text));
    SingleSpacedHasNoLineBreaks(trimmed);
    CapNewlineRunsWithoutNewlines(trimmed);
  }

  /** Two cleaned texts separated by any run of whitespace clean to the two texts joined
      by exactly one space. */
  lemma CleanTextJoinsWords(a: string, w: string, b: string)
    requires Normalized(a) && Normalized(b) && a != [] && b != []
    requires w != [] && AllWhitespace(w)
    ensures CleanText(a + w + b) == a + " " + b
  {
    CollapseRunBetween(a, w, b);
    CollapseFixesSingleSpaced(a);
    CollapseFixesSingleSpaced(b);
    CleanTextIsTrimmedCollapse(a + w + b);
    var j := a + " " + b;
    assert j[0] == a[0] && j[|j| - 1] == b[|b| - 1];
  }

  /** A normalized text is its own clean form. */
  lemma CleanTextFixesNormalized(s: string)
    requires Normalized(s)
    ensures CleanText(s) == s
  {
    CollapseFixesSingleSpaced(s);
    SingleSpacedHasNoLineBreaks(s);
    CapNewlineRunsWithoutNewlines(s);
  }

  /** Cleaning twice is cleaning once. */
  lemma CleanTextIdempotent(text: string)
    ensures CleanText(CleanText(text)) == CleanText(text)
  {
    CleanTextFixesNormalized(CleanText(text));
  }

  /** The whitespace `cleanText` leaves is single spaces between non-whitespace
      characters: no form feed, carriage return or line feed survives. */
  lemma CleanTextSpacing(text: string, i: nat)
    requires i < |CleanText(text)| && IsWhitespace(CleanText(text)[i])
    ensures CleanText(text)[i] == ' '
    ensures 0 < i < |CleanText(text)| - 1
    ensures !IsWhitespace(CleanText(text)[i - 1]) && !IsWhitespace(CleanText(text)[i + 1])
  {
    NormalizedSpacing(CleanText(text), i);
  }

  lemma NormalizedSpacing(r: string, i: nat)
    requires Normalized(r) && i < |r| && IsWhitespace(r[i])
    ensures r[i] == ' ' && 0 < i < |r| - 1
    ensures !IsWhitespace(r[i - 1]) && !IsWhitespace(r[i + 1])
  {
    assert !WhitespacePairAt(r, i);
    assert !WhitespacePairAt(r, i + 1);
  }

  // ---------------------------------------------------------------------------
  // Base64 decoding, as Node's lenient `Buffer.from(s, "base64")` does it
  // ---------------------------------------------------------------------------

  /** The standard (section 4 of RFC 4648) and URL-safe (section 5) alphabets. */
  function SextetOf(c: char): Option<Sextet> {
    if 'A' <= c <= 'Z' then Some(c as int - 'A' as int)
    else if 'a' <= c <= 'z' then Some(c as int - 'a' as int + 26)
    else if '0' <= c <= '9' then Some(c as int - '0' as int + 52)
    else if c == '+' || c == '-' then Some(62)
    else if c == '/' || c == '_' then Some(63)
    else None
  }

  /** The alphabet values of `s` in order: characters outside the alphabets are skipped
      and decoding stops at the first `=`. */
  function Sextets(s: string): (r: seq<Sextet>)
    ensures |r| <= |s|
  {
    if s == [] || s[0] == '=' then []
    else
      match SextetOf(s[0])
      case Some(v) => [v] + Sextets(s[1..])
      case None => Sextets(s[1..])
  }

  /** Four sextets make three bytes; a trailing group of two or three sextets makes one
      or two bytes, and a lone trailing sextet makes none. */
  function DecodeSextets(q: seq<Sextet>): (r: seq<Byte>)
    ensures |r| == |q| / 4 * 3 + (if |q| % 4 == 0 then 0 else |q| % 4 - 1)
  {
    if |q| >= 4 then
      [HighByte(q[0], q[1]), MiddleByte(q[1], q[2]), LowByte(q[2], q[3])] + DecodeSextets(q[4..])
    else if |q| == 3 then
      [HighByte(q[0], q[1]), MiddleByte(q[1], q[2])]
    else if |q| == 2 then
      [HighByte(q[0], q[1])]
    else
      []
  }

  /** The first byte of a group: six bits of `a`, the top two of `b`. */
  function HighByte(a: Sextet, b: Sextet): Byte {
    (a as int) * 4 + (b as int) / 16
  }

  /** The second byte of a group: the low four bits of `b`, the top four of `c`. */
  function MiddleByte(b: Sextet, c: Sextet): Byte {
    ((b as int) % 16) * 16 + (c as int) / 4
  }

  /** The third byte of a group: the low two bits of `c`, six bits of `d`. */
  function LowByte(c: Sextet, d: Sextet): Byte {
    ((c as int) % 4) * 64 + (d as int)
  }

  /** Node's `Buffer.from(s, "base64")`: at most three bytes for every four characters. */
  function Base64Decode(s: string): (r: seq<Byte>)
    ensures |r| * 4 <= |s| * 3
  {
    var q := Sextets(s);
    var r := DecodeSextets(q);
    assert |r| * 4 <= |q| * 3 by {
      var k := |q| / 4;
      assert |q| == 4 * k + |q| % 4;
    }
    r
  }

  // ---------------------------------------------------------------------------
  // isValidPDF and extractTextFromBase64
  // ---------------------------------------------------------------------------

  const DataUrlPrefix: string := "data:application/pdf;base64,"

  /** `%PDF` in ASCII. */
  const PdfMagic: seq<Byte> := [0x25, 0x50, 0x44, 0x46]

  const ExtractionFailurePrefix: string := "Failed to extract text from PDF: "

  /** `s.replace(/^data:application\/pdf;base64,/, "")`: the prefix goes only when it
      starts the text, and only once. */
  function StripDataUrlPrefix(s: string): (r: string)
    ensures s == r || s == DataUrlPrefix + r
    ensures DataUrlPrefix <= s <==> s != r
  {
    if DataUrlPrefix <= s then
      assert s == DataUrlPrefix + s[|DataUrlPrefix|..];
      s[|DataUrlPrefix|..]
    else s
  }

  /** `isValidPDF`: the first four decoded bytes are `%PDF`. Decoding never throws, so
      the catch branch of the source is never taken. Read on the base64 text itself, this
      holds exactly when the text after the optional prefix starts with the six sextets
      that encode `%PDF`. */
  function IsValidPdf(base64Data: string): (r: bool)
    ensures r <==> PdfBase64Header(Sextets(StripDataUrlPrefix(base64Data)))
  {
    var q := Sextets(StripDataUrlPrefix(base64Data));
    assert |q| >= 6 ==> (|DecodeSextets(q)| >= 4 && DecodeSextets(q)[..4] ==
        [HighByte(q[0], q[1]), MiddleByte(q[1], q[2]), LowByte(q[2], q[3]), HighByte(q[4], q[5])]) by {
      if |q| >= 6 { DecodedHead(q); }
    }
    var bytes := Base64Decode(StripDataUrlPrefix(base64Data));
    |bytes| >= 4 && bytes[..4] == PdfMagic
  }

  /** The base64 text of a PDF begins, once non-alphabet characters are skipped, with
      `J`, `V`, `B`, `E`, `R` and then one of `g` to `v`. */
  predicate PdfBase64Header(q: seq<Sextet>) {
    |q| >= 6 && q[0] == 9 && q[1] == 21 && q[2] == 1 && q[3] == 4 && q[4] == 17 && 32 <= q[5] < 48
  }

  lemma DecodedHead(q: seq<Sextet>)
    requires |q| >= 6
    ensures |DecodeSextets(q)| >= 4
    ensures DecodeSextets(q)[..4] ==
      [HighByte(q[0], q[1]), MiddleByte(q[1], q[2]), LowByte(q[2], q[3]), HighByte(q[4], q[5])]
  {
    var tail := q[4..];
    assert tail[0] == q[4] && tail[1] == q[5];
    assert DecodeSextets(tail)[0] == HighByte(q[4], q[5]);
  }

  /** Fewer than six base64 characters decode to fewer than four bytes: never a PDF. */
  lemma ShortDataIsNotPdf(base64Data: string)
    requires |StripDataUrlPrefix(base64Data)| < 6
    ensures !IsValidPdf(base64Data)
  {
  }

  /** The prefix is removed once only: a doubled prefix leaves its second copy to be
      decoded, and `d` (sextet 29) is not where `J` must be. */
  lemma DoublePrefixIsNotPdf(rest: string)
    ensures !IsValidPdf(DataUrlPrefix + DataUrlPrefix + rest)
  {
    var s := DataUrlPrefix + DataUrlPrefix + rest;
    assert StripDataUrlPrefix(s) == DataUrlPrefix + rest by {
      assert s == DataUrlPrefix + (DataUrlPrefix + rest);
    }
    assert Sextets(DataUrlPrefix + rest)[0] == 29;
  }

  /** `extractTextFromBase64`: decode, hand the bytes to the parser, clean its text. On
      success the text is normalized; every failure is an `Error` whose message starts
      with "Failed to extract text from PDF: ". */
  function ExtractTextFromBase64(base64Data: string, parsePdf: seq<Byte> -> Result<string, Thrown>): (r: Result<string, Thrown>)
    ensures r.Ok? <==> parsePdf(Base64Decode(StripDataUrlPrefix(base64Data))).Ok?
    ensures r.Ok? ==> r.value == CleanText(parsePdf(Base64Decode(StripDataUrlPrefix(base64Data))).value)
    ensures r.Ok? ==> Normalized(r.value)
    ensures r.Ok? ==> NonWhitespace(r.value) == NonWhitespace(parsePdf(Base64Decode(StripDataUrlPrefix(base64Data))).value)
    ensures r.Err? ==> r.error.JsError? && ExtractionFailurePrefix <= r.error.message
  {
    match parsePdf(Base64Decode(StripDataUrlPrefix(base64Data)))
    case Ok(text) => Ok(CleanText(text))
    case Err(e) => Err(JsError(ExtractionFailurePrefix + MessageOr(e, "Unknown error")))
  }
}
