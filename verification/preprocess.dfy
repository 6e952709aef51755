/** Cleaning and validation of the study material pasted into the app, before any
    flashcard is generated from it: line endings are normalised, runs of tabs and
    spaces become one space, runs of three or more newlines become a blank line,
    the text is trimmed, and text that is missing, empty or shorter than a minimum
    number of characters is rejected with an error instead of a cleaned text. */
module Preprocess {

  datatype Option<+T> = None | Some(value: T)

  /** The minimum number of characters (code points) an accepted text has. */
  const MinChars: nat := 120

  /** Why a study text was rejected; each kind carries its own message in the app. */
  datatype InputError =
    | MissingInput            // no text at all (None)
    | EmptyInput              // nothing left after cleaning
    | TooShort(minChars: nat) // cleaned, but shorter than minChars

  /** The two-way result: a cleaned text and no error, or no text and an error. */
  datatype Preprocessed = Accepted(text: string) | Rejected(error: InputError)

  /** The characters Python's `str.isspace` (and so `str.strip()`) treats as whitespace. */
  predicate IsSpace(c: char)
    ensures c == ' ' || c == '\t' || c == '\n' || c == '\r' ==> IsSpace(c)
    ensures IsSpace(c) ==> c <= ' ' || '\U{85}' <= c <= '\U{3000}'
  {
    || c == '\t' || c == '\n' || c == '\U{0B}' || c == '\U{0C}' || c == '\r'
    || ('\U{1C}' <= c <= '\U{1F}') || c == ' ' || c == '\U{85}' || c == '\U{A0}'
    || c == '\U{1680}' || ('\U{2000}' <= c <= '\U{200A}') || c == '\U{2028}'
    || c == '\U{2029}' || c == '\U{202F}' || c == '\U{205F}' || c == '\U{3000}'
  }

  /** The characters of the class `[\t ]`. */
  predicate IsBlank(c: char) {
    c == '\t' || c == ' '
  }

  /** No two consecutive spaces. */
  predicate NoDoubleSpace(s: string) {
    forall i :: 0 < i < |s| ==> !(s[i - 1] == ' ' && s[i] == ' ')
  }

  /** No three consecutive newlines. */
  predicate NoTripleNewline(s: string) {
    forall i :: 1 < i < |s| ==> !(s[i - 2] == '\n' && s[i - 1] == '\n' && s[i] == '\n')
  }

  /** The shape of every text the cleaning produces. */
  predicate Normalized(t: string) {
    && '\r' !in t
    && '\t' !in t
    && NoDoubleSpace(t)
    && NoTripleNewline(t)
    && (|t| > 0 ==> !IsSpace(t[0]) && !IsSpace(t[|t| - 1]))
  }

  // ---------------------------------------------------------------------------
  // Slices keep the pairwise shapes

  lemma {:induction false} SliceKeepsShape(s: string, a: nat, b: nat)
    requires a <= b <= |s|
    ensures NoDoubleSpace(s) ==> NoDoubleSpace(s[a..b])
    ensures NoTripleNewline(s) ==> NoTripleNewline(s[a..b])
    ensures forall c :: c in s[a..b] ==> c in s
  {
    var t := s[a..b];
    assert forall i :: 0 <= i < |t| ==> t[i] == s[a + i];
  }

  // ---------------------------------------------------------------------------
  // Step 1: `replace("\r\n", "\n").replace("\r", "\n")`

  /** Replaces each `\r\n`, scanning left to right without overlap, by `\n`. */
  function ReplaceCrLf(s: string): (r: string)
    ensures |r| <= |s|
    ensures forall c :: c in r ==> c in s
    ensures '\r' !in s ==> r == s
  {
    if |s| == 0 then s
    else if |s| >= 2 && s[0] == '\r' && s[1] == '\n' then "\n" + ReplaceCrLf(s[2..])
    else [s[0]] + ReplaceCrLf(s[1..])
  }

  /** Replaces every remaining `\r` by `\n`. */
  function ReplaceCr(s: string): (r: string)
    ensures |r| == |s|
    ensures forall i :: 0 <= i < |s| ==> r[i] == (if s[i] == '\r' then '\n' else s[i])
    ensures '\r' !in r
  {
    if |s| == 0 then s
    else [if s[0] == '\r' then '\n' else s[0]] + ReplaceCr(s[1..])
  }

  /** Both line-ending replacements, in the order the app applies them. */
  function NormalizeLineEndings(s: string): (r: string)
    ensures |r| <= |s|
    ensures '\r' !in r
    ensures forall c :: c in r ==> c == '\n' || c in s
    ensures '\r' !in s ==> r == s
  {
    var t := ReplaceCr(ReplaceCrLf(s));
    assert forall c :: c in t ==> c == '\n' || c in s by {
      forall c | c in t ensures c == '\n' || c in s {
        var i :| 0 <= i < |t| && t[i] == c;
        assert ReplaceCrLf(s)[i] in ReplaceCrLf(s);
      }
    }
    t
  }

  /** Whether `a` ends with `\r` and `b` starts with `\n`: the one place where
      cutting a text in two separates a `\r\n` pair. */
  predicate SplitsCrLf(a: string, b: string) {
    |a| > 0 && a[|a| - 1] == '\r' && |b| > 0 && b[0] == '\n'
  }

  lemma Associative(p: string, q: string, r: string)
    ensures p + (q + r) == (p + q) + r
  {
  }

  /** The first replacement works piece by piece: a text cut anywhere except
      inside a `\r\n` pair is replaced as its two parts are. */
  lemma {:induction false} ReplaceCrLfSplits(a: string, b: string)
    requires !SplitsCrLf(a, b)
    ensures ReplaceCrLf(a + b) == ReplaceCrLf(a) + ReplaceCrLf(b)
    decreases |a|
  {
    var x := a + b;
    if |a| == 0 {
      assert x == b;
    } else if |a| >= 2 && a[0] == '\r' && a[1] == '\n' {
      assert ReplaceCrLf(x) == "\n" + ReplaceCrLf(a[2..] + b) by {
        assert x[0] == '\r' && x[1] == '\n';
        assert x[2..] == a[2..] + b;
      }
      assert ReplaceCrLf(a) == "\n" + ReplaceCrLf(a[2..]);
      ReplaceCrLfSplits(a[2..], b);
      Associative("\n", ReplaceCrLf(a[2..]), ReplaceCrLf(b));
    } else {
      assert ReplaceCrLf(x) == [a[0]] + ReplaceCrLf(a[1..] + b) by {
        assert x[0] == a[0];
        assert |x| >= 2 ==> x[1] == if |a| >= 2 then a[1] else b[0];
        assert x[1..] == a[1..] + b;
      }
      assert ReplaceCrLf(a) == [a[0]] + ReplaceCrLf(a[1..]);
      ReplaceCrLfSplits(a[1..], b);
      Associative([a[0]], ReplaceCrLf(a[1..]), ReplaceCrLf(b));
    }
  }

  /** The pieces of the first replacement: a `\r\n` pair becomes one `\n`, and a
      single character (a lone `\r` included) stays. With ReplaceCrLfSplits this
      fixes the result for every text. */
  lemma ReplaceCrLfPieces(c: char)
    ensures ReplaceCrLf("\r\n") == "\n"
    ensures ReplaceCrLf([c]) == [c]
  {
  }

  /** The second replacement works character by character. */
  lemma ReplaceCrSplits(a: string, b: string)
    ensures ReplaceCr(a + b) == ReplaceCr(a) + ReplaceCr(b)
  {
    var r, x := ReplaceCr(a + b), ReplaceCr(a) + ReplaceCr(b);
    assert forall i :: 0 <= i < |r| ==> r[i] == x[i];
  }

  /** Both replacements together work piece by piece, except across a `\r\n` pair. */
  lemma NormalizeLineEndingsSplits(a: string, b: string)
    requires !SplitsCrLf(a, b)
    ensures NormalizeLineEndings(a + b) == NormalizeLineEndings(a) + NormalizeLineEndings(b)
  {
    ReplaceCrLfSplits(a, b);
    ReplaceCrSplits(ReplaceCrLf(a), ReplaceCrLf(b));
  }

  /** The pieces of the line-ending step: `\r\n` and a lone `\r` each become one
      `\n`, and every other character stays. With NormalizeLineEndingsSplits
      this fixes the result for every text. */
  lemma NormalizeLineEndingsPieces(c: char)
    ensures NormalizeLineEndings("\r\n") == "\n"
    ensures NormalizeLineEndings("\r") == "\n"
    ensures c != '\r' ==> NormalizeLineEndings([c]) == [c]
  {
    ReplaceCrLfPieces(c);
    ReplaceCrLfPieces('\r');
  }

  // ---------------------------------------------------------------------------
  // Step 2: `re.sub(r"[\t ]+", " ", text)`

  /** The length of the longest prefix of tabs and spaces. */
  function BlankRun(s: string): (n: nat)
    ensures n <= |s|
    ensures forall i :: 0 <= i < n ==> IsBlank(s[i])
    ensures n < |s| ==> !IsBlank(s[n])
  {
    if |s| > 0 && IsBlank(s[0]) then
      var k := BlankRun(s[1..]);
      assert forall i :: 0 < i <= k ==> s[i] == s[1..][i - 1];
      1 + k
    else 0
  }

  /** Every maximal run of tabs and spaces becomes one space. */
  function CollapseBlanks(s: string): (r: string)
    ensures |r| <= |s|
    ensures |r| > 0 <==> |s| > 0
    ensures |s| > 0 ==> r[0] == (if IsBlank(s[0]) then ' ' else s[0])
    ensures '\t' !in r
    ensures NoDoubleSpace(r)
    ensures forall c :: c in r ==> c == ' ' || c in s
    decreases |s|
  {
    if |s| == 0 then s
    else if IsBlank(s[0]) then
      var run := BlankRun(s);
      SliceKeepsShape(s, run, |s|);
      " " + CollapseBlanks(s[run..])
    else
      SliceKeepsShape(s, 1, |s|);
      [s[0]] + CollapseBlanks(s[1..])
  }

  /** A run that ends inside `a`, or right before a non-blank, is not lengthened
      by what follows. */
  lemma BlankRunStops(a: string, t: string)
    requires BlankRun(a) < |a| || (|t| > 0 && !IsBlank(t[0]))
    ensures BlankRun(a + t) == BlankRun(a)
  {
    assert forall i :: 0 <= i < |a| ==> (a + t)[i] == a[i];
    assert |t| > 0 ==> (a + t)[|a|] == t[0];
  }

  /** The blank collapse works piece by piece around any character that is not
      a tab or a space. */
  lemma {:induction false} CollapseBlanksSplits(a: string, c: char, b: string)
    requires !IsBlank(c)
    ensures CollapseBlanks(a + [c] + b) == CollapseBlanks(a) + [c] + CollapseBlanks(b)
    decreases |a|
  {
    var x := a + [c] + b;
    if |a| == 0 {
      assert x[1..] == b;
    } else if IsBlank(a[0]) {
      BlankRunStops(a, [c] + b);
      assert a + ([c] + b) == x;
      var run := BlankRun(a);
      assert x[run..] == a[run..] + [c] + b;
      CollapseBlanksSplits(a[run..], c, b);
      Associative(" ", CollapseBlanks(a[run..]) + [c], CollapseBlanks(b));
      Associative(" ", CollapseBlanks(a[run..]), [c]);
    } else {
      assert x[1..] == a[1..] + [c] + b;
      CollapseBlanksSplits(a[1..], c, b);
      Associative([a[0]], CollapseBlanks(a[1..]) + [c], CollapseBlanks(b));
      Associative([a[0]], CollapseBlanks(a[1..]), [c]);
    }
  }

  /** A whole run of tabs and spaces becomes exactly one space. With
      CollapseBlanksSplits this fixes the result for every text. */
  lemma BlankRunBecomesOneSpace(w: string)
    requires |w| > 0 && forall i :: 0 <= i < |w| ==> IsBlank(w[i])
    ensures CollapseBlanks(w) == " "
  {
    assert BlankRun(w) == |w|;
    assert w[|w|..] == "";
  }

  // ---------------------------------------------------------------------------
  // Step 3: `re.sub(r"\n{3,}", "\n\n", text)`

  /** The length of the longest prefix of newlines. */
  function NewlineRun(s: string): (n: nat)
    ensures n <= |s|
    ensures forall i :: 0 <= i < n ==> s[i] == '\n'
    ensures n < |s| ==> s[n] != '\n'
  {
    if |s| > 0 && s[0] == '\n' then
      var k := NewlineRun(s[1..]);
      assert forall i :: 0 < i <= k ==> s[i] == s[1..][i - 1];
      1 + k
    else 0
  }

  /** Every maximal run of three or more newlines becomes exactly two; shorter
      runs stay as they are. */
  function CollapseNewlines(s: string): (r: string)
    ensures |r| <= |s|
    ensures |r| > 0 <==> |s| > 0
    ensures |s| > 0 ==> r[0] == s[0]
    ensures NoTripleNewline(r)
    ensures forall c :: c in r ==> c in s
    ensures NoDoubleSpace(s) ==> NoDoubleSpace(r)
    decreases |s|
  {
    if |s| == 0 then s
    else if s[0] == '\n' then
      var run := NewlineRun(s);
      var kept := if run >= 3 then "\n\n" else s[..run];
      var tail := CollapseNewlines(s[run..]);
      NewlinesThenTail(s, run, kept, tail);
      kept + tail
    else
      var tail := CollapseNewlines(s[1..]);
      CharThenTail(s, tail);
      [s[0]] + tail
  }

  /** The first case of CollapseNewlines: a newline run, shortened to at most two,
      followed by the collapsed rest. */
  lemma {:induction false} NewlinesThenTail(s: string, run: nat, kept: string, tail: string)
    requires 0 < run <= |s| && forall i :: 0 <= i < run ==> s[i] == '\n'
    requires run < |s| ==> s[run] != '\n'
    requires kept == if run >= 3 then "\n\n" else s[..run]
    requires |tail| > 0 <==> run < |s|
    requires run < |s| ==> tail[0] == s[run]
    requires NoTripleNewline(tail)
    requires forall c :: c in tail ==> c in s[run..]
    requires NoDoubleSpace(s[run..]) ==> NoDoubleSpace(tail)
    ensures |kept| <= run
    ensures NoTripleNewline(kept + tail)
    ensures forall c :: c in kept + tail ==> c in s
    ensures NoDoubleSpace(s) ==> NoDoubleSpace(kept + tail)
  {
    SliceKeepsShape(s, run, |s|);
    var r := kept + tail;
    assert forall i :: 0 <= i < |kept| ==> kept[i] == '\n';
    assert forall i :: 0 <= i < |r| ==> r[i] == if i < |kept| then '\n' else tail[i - |kept|];
    forall c | c in r ensures c in s {
      var i :| 0 <= i < |r| && r[i] == c;
      if i >= |kept| { assert tail[i - |kept|] in tail; }
      else { assert s[0] == c; }
    }
  }

  /** The second case of CollapseNewlines: one character other than a newline,
      followed by the collapsed rest. */
  lemma {:induction false} CharThenTail(s: string, tail: string)
    requires |s| > 0 && s[0] != '\n'
    requires |tail| > 0 <==> |s| > 1
    requires |s| > 1 ==> tail[0] == s[1]
    requires NoTripleNewline(tail)
    requires forall c :: c in tail ==> c in s[1..]
    requires NoDoubleSpace(s[1..]) ==> NoDoubleSpace(tail)
    ensures NoTripleNewline([s[0]] + tail)
    ensures forall c :: c in [s[0]] + tail ==> c in s
    ensures NoDoubleSpace(s) ==> NoDoubleSpace([s[0]] + tail)
  {
    SliceKeepsShape(s, 1, |s|);
    var r := [s[0]] + tail;
    assert forall i :: 0 < i < |r| ==> r[i] == tail[i - 1];
  }

  /** A newline run that ends inside `a`, or right before another character, is
      not lengthened by what follows. */
  lemma NewlineRunStops(a: string, t: string)
    requires NewlineRun(a) < |a| || (|t| > 0 && t[0] != '\n')
    ensures NewlineRun(a + t) == NewlineRun(a)
  {
    assert forall i :: 0 <= i < |a| ==> (a + t)[i] == a[i];
    assert |t| > 0 ==> (a + t)[|a|] == t[0];
  }

  /** The newline collapse works piece by piece around any character other than
      a newline. */
  lemma {:induction false} CollapseNewlinesSplits(a: string, c: char, b: string)
    requires c != '\n'
    ensures CollapseNewlines(a + [c] + b) == CollapseNewlines(a) + [c] + CollapseNewlines(b)
    decreases |a|
  {
    var x := a + [c] + b;
    if |a| == 0 {
      assert x[1..] == b;
    } else if a[0] == '\n' {
      NewlineRunStops(a, [c] + b);
      assert a + ([c] + b) == x;
      var run := NewlineRun(a);
      var kept := if run >= 3 then "\n\n" else a[..run];
      assert x[..run] == a[..run];
      assert x[run..] == a[run..] + [c] + b;
      CollapseNewlinesSplits(a[run..], c, b);
      assert CollapseNewlines(x) == kept + CollapseNewlines(x[run..]);
      assert CollapseNewlines(a) == kept + CollapseNewlines(a[run..]);
      Associative(kept, CollapseNewlines(a[run..]) + [c], CollapseNewlines(b));
      Associative(kept, CollapseNewlines(a[run..]), [c]);
    } else {
      assert x[1..] == a[1..] + [c] + b;
      CollapseNewlinesSplits(a[1..], c, b);
      Associative([a[0]], CollapseNewlines(a[1..]) + [c], CollapseNewlines(b));
      Associative([a[0]], CollapseNewlines(a[1..]), [c]);
    }
  }

  /** A whole run of k newlines becomes min(k, 2) newlines. With
      CollapseNewlinesSplits this fixes the result for every text. */
  lemma NewlineRunBecomesAtMostTwo(w: string)
    requires |w| > 0 && forall i :: 0 <= i < |w| ==> w[i] == '\n'
    ensures CollapseNewlines(w) == if |w| >= 3 then "\n\n" else w
  {
    assert NewlineRun(w) == |w|;
    assert w[|w|..] == "" && w[..|w|] == w;
  }

  // ---------------------------------------------------------------------------
  // Step 4: `text.strip()`

  /** The number of whitespace characters `s` starts with. */
  function LeadingSpaces(s: string): (n: nat)
    ensures n <= |s|
    ensures forall i :: 0 <= i < n ==> IsSpace(s[i])
    ensures n < |s| ==> !IsSpace(s[n])
  {
    SpacesFrom(s, 0)
  }

  /** The length of the whitespace run of `s` that starts at position `i`. */
  function SpacesFrom(s: string, i: nat): (n: nat)
    requires i <= |s|
    ensures i + n <= |s|
    ensures forall k :: i <= k < i + n ==> IsSpace(s[k])
    ensures i + n < |s| ==> !IsSpace(s[i + n])
    decreases |s| - i
  {
    if i < |s| && IsSpace(s[i]) then 1 + SpacesFrom(s, i + 1) else 0
  }

  /** The number of whitespace characters `s` ends with. */
  function TrailingSpaces(s: string): (n: nat)
    ensures n <= |s|
    ensures forall i :: |s| - n <= i < |s| ==> IsSpace(s[i])
    ensures n < |s| ==> !IsSpace(s[|s| - 1 - n])
  {
    SpacesBefore(s, |s|)
  }

  /** The length of the whitespace run of `s` that ends just before position `j`. */
  function SpacesBefore(s: string, j: nat): (n: nat)
    requires j <= |s|
    ensures n <= j
    ensures forall k :: j - n <= k < j ==> IsSpace(s[k])
    ensures n < j ==> !IsSpace(s[j - 1 - n])
  {
    if j > 0 && IsSpace(s[j - 1]) then 1 + SpacesBefore(s, j - 1) else 0
  }

  /** `t` is the part of `s` from position `a` up to position `c`, and everything
      of `s` before `a` and from `c` on is whitespace. */
  ghost predicate TrimmedAt(s: string, t: string, a: int, c: int) {
    && 0 <= a <= c <= |s|
    && t == s[a..c]
    && (forall i :: 0 <= i < a ==> IsSpace(s[i]))
    && (forall i :: c <= i < |s| ==> IsSpace(s[i]))
  }

  /** Leading and trailing whitespace removed; what remains is a contiguous part
      of `s` that starts and ends with a non-space. */
  function Strip(s: string): (r: string)
    ensures |r| <= |s|
    ensures exists a, c :: TrimmedAt(s, r, a, c)
    ensures |r| > 0 ==> !IsSpace(r[0]) && !IsSpace(r[|r| - 1])
    ensures forall c :: c in r ==> c in s
    ensures NoDoubleSpace(s) ==> NoDoubleSpace(r)
    ensures NoTripleNewline(s) ==> NoTripleNewline(r)
    ensures |s| > 0 && !IsSpace(s[0]) && !IsSpace(s[|s| - 1]) ==> r == s
    ensures r == "" <==> forall i :: 0 <= i < |s| ==> IsSpace(s[i])
  {
    var a := LeadingSpaces(s);
    if a == |s| then
      assert TrimmedAt(s, "", |s|, |s|);
      ""
    else
      var b := TrailingSpaces(s);
      StripSlice(s, a, b);
      assert TrimmedAt(s, s[a..|s| - b], a, |s| - b);
      s[a..|s| - b]
  }

  /** When `s` is not all whitespace, its leading and trailing runs do not meet,
      and the part between them has the properties `Strip` promises. */
  lemma {:induction false} StripSlice(s: string, a: nat, b: nat)
    requires a == LeadingSpaces(s) < |s| && b == TrailingSpaces(s)
    ensures a < |s| - b
    ensures !IsSpace(s[a]) && !IsSpace(s[|s| - 1 - b])
    ensures forall c :: c in s[a..|s| - b] ==> c in s
    ensures NoDoubleSpace(s) ==> NoDoubleSpace(s[a..|s| - b])
    ensures NoTripleNewline(s) ==> NoTripleNewline(s[a..|s| - b])
    ensures !IsSpace(s[0]) && !IsSpace(s[|s| - 1]) ==> a == 0 && b == 0
  {
    StripEnds(s, a, b);
    SliceKeepsShape(s, a, |s| - b);
  }

  /** The leading and trailing whitespace runs of a text that is not all
      whitespace do not meet. */
  lemma {:induction false} StripEnds(s: string, a: nat, b: nat)
    requires a == LeadingSpaces(s) < |s| && b == TrailingSpaces(s)
    ensures a < |s| - b
    ensures !IsSpace(s[a]) && !IsSpace(s[|s| - 1 - b])
    ensures !IsSpace(s[0]) && !IsSpace(s[|s| - 1]) ==> a == 0 && b == 0
  {
    assert !IsSpace(s[a]);
    assert a > 0 ==> IsSpace(s[0]);
    assert b > 0 ==> IsSpace(s[|s| - 1]);
  }

  /** `Strip` is the only way to cut whitespace off both ends of `s` so that what
      remains neither starts nor ends with whitespace. */
  lemma {:induction false} StripIsTheOnlyTrim(s: string, t: string, a: nat, c: nat)
    requires TrimmedAt(s, t, a, c)
    requires |t| > 0 ==> !IsSpace(t[0]) && !IsSpace(t[|t| - 1])
    ensures t == Strip(s)
  {
    StripIsMiddle(s);
    if |t| == 0 {
      assert forall i :: 0 <= i < |s| ==> IsSpace(s[i]);
    } else {
      assert s[a] == t[0] && s[c - 1] == t[|t| - 1];
      assert LeadingSpaces(s) == a;
      assert TrailingSpaces(s) == |s| - c;
    }
  }

  // ---------------------------------------------------------------------------
  // The whole cleaning and the validation

  /** The four cleaning steps, in the app's order. */
  function CleanText(s: string): (r: string)
    ensures Normalized(r)
    ensures |r| <= |s|
  {
    var t1 := NormalizeLineEndings(s);
    var t2 := CollapseBlanks(t1);
    var t3 := CollapseNewlines(t2);
    Strip(t3)
  }

  /** `_preprocess_study_text`: the cleaned text when it is long enough, and
      otherwise the reason it was rejected. */
  function PreprocessStudyText(raw: Option<string>): (r: Preprocessed)
    ensures raw.None? ==> r == Rejected(MissingInput)
    ensures r.Accepted? <==> raw.Some? && |CleanText(raw.value)| >= MinChars
    ensures r.Accepted? ==> r.text == CleanText(raw.value)
    ensures r.Accepted? ==> Normalized(r.text) && |r.text| >= MinChars
    ensures r == Rejected(EmptyInput) <==> raw.Some? && CleanText(raw.value) == ""
    ensures r == Rejected(TooShort(MinChars)) <==> raw.Some? && 0 < |CleanText(raw.value)| < MinChars
  {
    match raw
    case None => Rejected(MissingInput)
    case Some(s) =>
      var text := CleanText(s);
      if text == "" then Rejected(EmptyInput)
      else if |text| < MinChars then Rejected(TooShort(MinChars))
      else Accepted(text)
  }

  // ---------------------------------------------------------------------------
  // Cleaning leaves already-clean text alone

  lemma {:induction false} ReplaceCrIdentity(s: string)
    requires '\r' !in s
    ensures ReplaceCr(s) == s
  {
    if |s| > 0 {
      ReplaceCrIdentity(s[1..]);
    }
  }

  lemma {:induction false} CollapseBlanksIdentity(s: string)
    requires '\t' !in s && NoDoubleSpace(s)
    ensures CollapseBlanks(s) == s
    decreases |s|
  {
    if |s| > 0 {
      SliceKeepsShape(s, 1, |s|);
      CollapseBlanksIdentity(s[1..]);
      if IsBlank(s[0]) {
        assert |s| > 1 ==> !IsBlank(s[1]);
        assert BlankRun(s) == 1;
      }
      assert s == [s[0]] + s[1..];
    }
  }

  lemma {:induction false} CollapseNewlinesIdentity(s: string)
    requires NoTripleNewline(s)
    ensures CollapseNewlines(s) == s
    decreases |s|
  {
    if |s| > 0 {
      if s[0] == '\n' {
        var run := NewlineRun(s);
        if |s| > 2 {
          assert !(s[0] == '\n' && s[1] == '\n' && s[2] == '\n');
        }
        SliceKeepsShape(s, run, |s|);
        CollapseNewlinesIdentity(s[run..]);
        assert s == s[..run] + s[run..];
      } else {
        SliceKeepsShape(s, 1, |s|);
        CollapseNewlinesIdentity(s[1..]);
        assert s == [s[0]] + s[1..];
      }
    }
  }

  /** A normalised text is a fixed point of the cleaning. */
  lemma {:induction false} NormalizedIsFixpoint(t: string)
    requires Normalized(t)
    ensures CleanText(t) == t
  {
    ReplaceCrIdentity(t);
    CollapseBlanksIdentity(t);
    CollapseNewlinesIdentity(t);
    if |t| == 0 {
      assert Strip(t) == t;
    }
  }

  /** Cleaning twice is cleaning once. */
  lemma {:induction false} CleanTextIdempotent(s: string)
    ensures CleanText(CleanText(s)) == CleanText(s)
  {
    NormalizedIsFixpoint(CleanText(s));
  }

  /** Feeding an accepted text back in accepts it again, unchanged. */
  lemma {:induction false} AcceptedTextIsStable(raw: Option<string>)
    requires PreprocessStudyText(raw).Accepted?
    ensures PreprocessStudyText(Some(PreprocessStudyText(raw).text)) == PreprocessStudyText(raw)
  {
    CleanTextIdempotent(raw.value);
  }

  // ---------------------------------------------------------------------------
  // Cleaning only touches whitespace

  /** The characters of `s` that are not whitespace, in order. */
  function NonSpace(s: string): (r: string)
    ensures |r| <= |s|
  {
    if |s| == 0 then "" else (if IsSpace(s[0]) then "" else [s[0]]) + NonSpace(s[1..])
  }

  lemma {:induction false} NonSpaceConcat(a: string, b: string)
    ensures NonSpace(a + b) == NonSpace(a) + NonSpace(b)
    decreases |a|
  {
    if |a| > 0 {
      assert (a + b)[1..] == a[1..] + b;
      NonSpaceConcat(a[1..], b);
    } else {
      assert a + b == b;
    }
  }

  /** Whitespace-only text has no other characters. */
  lemma {:induction false} NonSpaceOfSpaces(s: string)
    requires forall i :: 0 <= i < |s| ==> IsSpace(s[i])
    ensures NonSpace(s) == ""
    decreases |s|
  {
    if |s| > 0 {
      NonSpaceOfSpaces(s[1..]);
    }
  }

  /** Removing whitespace at the front keeps the other characters. */
  lemma {:induction false} NonSpaceAfterSpaces(s: string, n: nat)
    requires n <= |s| && forall i :: 0 <= i < n ==> IsSpace(s[i])
    ensures NonSpace(s[n..]) == NonSpace(s)
  {
    assert s == s[..n] + s[n..];
    NonSpaceConcat(s[..n], s[n..]);
    NonSpaceOfSpaces(s[..n]);
  }

  lemma {:induction false} ReplaceCrLfKeepsContent(s: string)
    ensures NonSpace(ReplaceCrLf(s)) == NonSpace(s)
    decreases |s|
  {
    if |s| >= 2 && s[0] == '\r' && s[1] == '\n' {
      ReplaceCrLfKeepsContent(s[2..]);
      NonSpaceConcat("\n", ReplaceCrLf(s[2..]));
      NonSpaceAfterSpaces(s, 2);
    } else if |s| > 0 {
      ReplaceCrLfKeepsContent(s[1..]);
      NonSpaceConcat([s[0]], ReplaceCrLf(s[1..]));
      assert s == [s[0]] + s[1..];
      NonSpaceConcat([s[0]], s[1..]);
    }
  }

  lemma {:induction false} ReplaceCrKeepsContent(s: string)
    ensures NonSpace(ReplaceCr(s)) == NonSpace(s)
    decreases |s|
  {
    if |s| > 0 {
      ReplaceCrKeepsContent(s[1..]);
      var r := ReplaceCr(s);
      assert r[1..] == ReplaceCr(s[1..]);
    }
  }

  lemma {:induction false} CollapseBlanksKeepsContent(s: string)
    ensures NonSpace(CollapseBlanks(s)) == NonSpace(s)
    decreases |s|
  {
    if |s| > 0 {
      if IsBlank(s[0]) {
        var run := BlankRun(s);
        CollapseBlanksKeepsContent(s[run..]);
        NonSpaceConcat(" ", CollapseBlanks(s[run..]));
        NonSpaceAfterSpaces(s, run);
      } else {
        CollapseBlanksKeepsContent(s[1..]);
        NonSpaceConcat([s[0]], CollapseBlanks(s[1..]));
        assert s == [s[0]] + s[1..];
        NonSpaceConcat([s[0]], s[1..]);
      }
    }
  }

  lemma {:induction false} CollapseNewlinesKeepsContent(s: string)
    ensures NonSpace(CollapseNewlines(s)) == NonSpace(s)
    decreases |s|
  {
    if |s| > 0 {
      if s[0] == '\n' {
        var run := NewlineRun(s);
        var kept := if run >= 3 then "\n\n" else s[..run];
        assert CollapseNewlines(s) == kept + CollapseNewlines(s[run..]);
        CollapseNewlinesKeepsContent(s[run..]);
        NonSpaceConcat(kept, CollapseNewlines(s[run..]));
        assert forall i :: 0 <= i < |kept| ==> kept[i] == '\n';
        NonSpaceOfSpaces(kept);
        NonSpaceAfterSpaces(s, run);
      } else {
        CollapseNewlinesKeepsContent(s[1..]);
        NonSpaceConcat([s[0]], CollapseNewlines(s[1..]));
        assert s == [s[0]] + s[1..];
        NonSpaceConcat([s[0]], s[1..]);
      }
    }
  }

  /** Removing whitespace at both ends keeps the other characters. */
  lemma {:induction false} NonSpaceOfMiddle(s: string, a: nat, c: nat)
    requires a <= c <= |s|
    requires forall i :: 0 <= i < a ==> IsSpace(s[i])
    requires forall i :: c <= i < |s| ==> IsSpace(s[i])
    ensures NonSpace(s[a..c]) == NonSpace(s)
  {
    var head, mid, tail := s[..a], s[a..c], s[c..];
    assert s == head + (mid + tail);
    NonSpaceConcat(head, mid + tail);
    NonSpaceConcat(mid, tail);
    assert forall i :: 0 <= i < |head| ==> head[i] == s[i];
    NonSpaceOfSpaces(head);
    assert forall i :: 0 <= i < |tail| ==> tail[i] == s[c + i];
    NonSpaceOfSpaces(tail);
  }

  /** What `Strip` keeps: nothing for an all-whitespace text, and otherwise the
      part between the leading and the trailing whitespace. */
  lemma {:induction false} StripIsMiddle(s: string)
    ensures LeadingSpaces(s) == |s| ==> Strip(s) == ""
    ensures LeadingSpaces(s) < |s| ==>
      && LeadingSpaces(s) < |s| - TrailingSpaces(s)
      && Strip(s) == s[LeadingSpaces(s)..|s| - TrailingSpaces(s)]
  {
    if LeadingSpaces(s) < |s| {
      StripEnds(s, LeadingSpaces(s), TrailingSpaces(s));
    }
  }

  lemma {:induction false} StripKeepsContent(s: string)
    ensures NonSpace(Strip(s)) == NonSpace(s)
  {
    StripIsMiddle(s);
    var a, b := LeadingSpaces(s), TrailingSpaces(s);
    if a == |s| {
      NonSpaceOfSpaces(s);
    } else {
      NonSpaceOfMiddle(s, a, |s| - b);
    }
  }

  /** The cleaning changes whitespace only: every other character of the input
      is still there, in the same order, and nothing else was added. */
  lemma {:induction false} CleanTextKeepsContent(s: string)
    ensures NonSpace(CleanText(s)) == NonSpace(s)
  {
    ReplaceCrLfKeepsContent(s);
    ReplaceCrKeepsContent(ReplaceCrLf(s));
    var t1 := NormalizeLineEndings(s);
    CollapseBlanksKeepsContent(t1);
    var t2 := CollapseBlanks(t1);
    CollapseNewlinesKeepsContent(t2);
    StripKeepsContent(CollapseNewlines(t2));
  }
}
