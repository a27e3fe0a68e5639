/**
 * Script text handling shared by the caption generator and the speech stage
 * (src/routes/jobs.js): the sentence splitter `split(/(?<=[.!?])\s+/)` and the
 * chain of replaces that turns a script into text for the speech synthesizer.
 */
module Script {
  import opened JsText

  predicate IsSentenceEnd(c: char) {
    c == '.' || c == '!' || c == '?'
  }

  // ---------- the sentence splitter ----------

  /** The regular expression matches at `q`: whitespace right after a `.`, `!` or `?`. */
  predicate IsBoundary(s: string, q: nat)
    requires q < |s|
  {
    q >= 1 && IsSentenceEnd(s[q - 1]) && IsSpace(s[q])
  }

  /** Pieces of a split together with the separators the split consumed. */
  datatype Splitting = Splitting(pieces: seq<string>, seps: seq<string>)

  /** Puts the separators back between the pieces. */
  function Interleave(pieces: seq<string>, seps: seq<string>): string
    requires |pieces| == |seps| + 1
  {
    if |seps| == 0 then pieces[0]
    else pieces[0] + seps[0] + Interleave(pieces[1..], seps[1..])
  }

  /**
   * The split as ECMAScript performs it: the current piece starts at `p`, the
   * scan is at `q`; at a match the piece ends and the maximal whitespace run is
   * the separator.
   */
  function SplitFrom(s: string, p: nat, q: nat): (r: Splitting)
    requires p <= q <= |s|
    requires p == 0 || IsSpace(s[p - 1])
    requires forall k :: p < k < q ==> !IsBoundary(s, k)
    ensures |r.pieces| == |r.seps| + 1
    decreases |s| - q
  {
    if q == |s| then Splitting([s[p..]], [])
    else if IsBoundary(s, q) then
      var e := SkipSpaces(s, q);
      var rest := SplitFrom(s, e, e);
      Splitting([s[p..q]] + rest.pieces, [s[q..e]] + rest.seps)
    else SplitFrom(s, p, q + 1)
  }

  /** Every separator is a non-empty run of whitespace. */
  predicate WhiteRuns(seps: seq<string>) {
    forall k :: 0 <= k < |seps| ==> |seps[k]| > 0 && forall i :: 0 <= i < |seps[k]| ==> IsSpace(seps[k][i])
  }

  /** The first `n` pieces are non-empty and end in `.`, `!` or `?`. */
  predicate EndSentences(pieces: seq<string>, n: nat) {
    n <= |pieces| && forall k :: 0 <= k < n ==> |pieces[k]| > 0 && IsSentenceEnd(pieces[k][|pieces[k]| - 1])
  }

  /** The pieces and separators of a split, interleaved, give back the text split. */
  lemma {:induction false} SplitFromRejoins(s: string, p: nat, q: nat)
    requires p <= q <= |s|
    requires p == 0 || IsSpace(s[p - 1])
    requires forall k :: p < k < q ==> !IsBoundary(s, k)
    ensures var r := SplitFrom(s, p, q); Interleave(r.pieces, r.seps) == s[p..]
    decreases |s| - q
  {
    if q < |s| {
      if IsBoundary(s, q) {
        var e := SkipSpaces(s, q);
        SplitFromRejoins(s, e, e);
        var rest := SplitFrom(s, e, e);
        var pieces, seps := [s[p..q]] + rest.pieces, [s[q..e]] + rest.seps;
        assert pieces[1..] == rest.pieces && seps[1..] == rest.seps;
        assert s[p..] == s[p..q] + s[q..e] + s[e..];
      } else {
        SplitFromRejoins(s, p, q + 1);
      }
    }
  }

  /** The separators of a split are whitespace runs and each piece before one ends a sentence. */
  lemma {:induction false} SplitFromShape(s: string, p: nat, q: nat)
    requires p <= q <= |s|
    requires p == 0 || IsSpace(s[p - 1])
    requires forall k :: p < k < q ==> !IsBoundary(s, k)
    ensures var r := SplitFrom(s, p, q); WhiteRuns(r.seps) && EndSentences(r.pieces, |r.seps|)
    decreases |s| - q
  {
    if q < |s| {
      if IsBoundary(s, q) {
        var e := SkipSpaces(s, q);
        SplitFromShape(s, e, e);
        var rest := SplitFrom(s, e, e);
        var pieces, seps := [s[p..q]] + rest.pieces, [s[q..e]] + rest.seps;
        assert forall k :: 1 <= k < |pieces| ==> pieces[k] == rest.pieces[k - 1];
        assert forall k :: 1 <= k < |seps| ==> seps[k] == rest.seps[k - 1];
        assert q > p;
      } else {
        SplitFromShape(s, p, q + 1);
      }
    }
  }

  /** `s.split(/(?<=[.!?])\s+/)`. */
  function SplitSentences(s: string): seq<string> {
    SplitFrom(s, 0, 0).pieces
  }

  /** `filter(Boolean)` on strings: the non-empty ones, in order. */
  function NonEmpty(xs: seq<string>): (r: seq<string>)
    ensures |r| <= |xs|
    ensures forall k :: 0 <= k < |r| ==> |r[k]| > 0
  {
    if |xs| == 0 then []
    else if |xs[0]| > 0 then [xs[0]] + NonEmpty(xs[1..])
    else NonEmpty(xs[1..])
  }

  /** `s.split(/(?<=[.!?])\s+/).filter(Boolean)`. */
  function Sentences(s: string): seq<string> {
    NonEmpty(SplitSentences(s))
  }

  /**
   * The splitter loses nothing: the pieces, rejoined with the whitespace runs the
   * split consumed, give back the input; every such run follows a `.`, `!` or `?`.
   */
  lemma SplitRoundTrip(s: string)
    ensures var r := SplitFrom(s, 0, 0);
      && Interleave(r.pieces, r.seps) == s
      && r.pieces == SplitSentences(s)
      && WhiteRuns(r.seps) && EndSentences(r.pieces, |r.seps|)
  {
    SplitFromRejoins(s, 0, 0);
    SplitFromShape(s, 0, 0);
  }

  /** Text without a sentence end followed by whitespace is one sentence. */
  lemma {:induction false} NoBoundaryOneSentence(s: string)
    requires forall k :: 0 <= k < |s| ==> !IsBoundary(s, k)
    ensures SplitSentences(s) == [s]
  {
    NoBoundaryScan(s, 0);
  }

  lemma {:induction false} NoBoundaryScan(s: string, q: nat)
    requires q <= |s|
    requires forall k :: 0 <= k < |s| ==> !IsBoundary(s, k)
    ensures SplitFrom(s, 0, q).pieces == [s]
    decreases |s| - q
  {
    if q < |s| {
      NoBoundaryScan(s, q + 1);
    }
  }

  /** `s.replace(/c/g, rep)`. */
  function ReplaceChar(s: string, c: char, rep: string): (r: string)
    ensures forall i :: 0 <= i < |r| ==> r[i] != c || c in rep
    ensures (forall i :: 0 <= i < |s| ==> s[i] != c) ==> r == s
  {
    if |s| == 0 then ""
    else (if s[0] == c then rep else [s[0]]) + ReplaceChar(s[1..], c, rep)
  }

  // ---------- the speech-text cleaner ----------

  predicate IsBlank(c: char) {
    c == ' ' || c == '\t'
  }

  /** Index just past the run of `c` starting at `i`. */
  function SkipChar(s: string, i: nat, c: char): (j: nat)
    requires i <= |s|
    ensures i <= j <= |s| && (j == |s| || s[j] != c)
    decreases |s| - i
  {
    if i < |s| && s[i] == c then SkipChar(s, i + 1, c) else i
  }

  /** Index just past the run of blanks starting at `i`. */
  function SkipBlanks(s: string, i: nat): (j: nat)
    requires i <= |s|
    ensures i <= j <= |s| && (j == |s| || !IsBlank(s[j]))
    decreases |s| - i
  {
    if i < |s| && IsBlank(s[i]) then SkipBlanks(s, i + 1) else i
  }

  /** `s.replace(/\n+/g, ". ")`: each maximal run of line feeds becomes `. `. */
  function CollapseNewlines(s: string): (r: string)
    decreases |s|
  {
    if |s| == 0 then ""
    else if s[0] == '\n' then ". " + CollapseNewlines(s[SkipChar(s, 1, '\n')..])
    else [s[0]] + CollapseNewlines(s[1..])
  }

  /** `s.replace(/[ \t]+/g, " ")`: each maximal run of spaces and tabs becomes one space. */
  function SqueezeBlanks(s: string): (r: string)
    decreases |s|
  {
    if |s| == 0 then ""
    else if IsBlank(s[0]) then " " + SqueezeBlanks(s[SkipBlanks(s, 1)..])
    else [s[0]] + SqueezeBlanks(s[1..])
  }

  /**
   * The speech-text cleaner: carriage returns become spaces, line-feed runs
   * become `. `, blank runs become one space, and the result is trimmed.
   */
  function CleanForSpeech(s: string): string {
    Trim(SqueezeBlanks(CollapseNewlines(ReplaceChar(s, '\r', " "))))
  }

  predicate NoChar(s: string, c: char) {
    forall i :: 0 <= i < |s| ==> s[i] != c
  }

  predicate NoDoubleSpace(s: string) {
    forall i :: 0 <= i < |s| - 1 ==> !(s[i] == ' ' && s[i + 1] == ' ')
  }

  /** What the cleaner promises of its output. */
  predicate IsSpeechClean(s: string) {
    && NoChar(s, '\r') && NoChar(s, '\n') && NoChar(s, '\t')
    && NoDoubleSpace(s)
    && (s == [] || (!IsSpace(s[0]) && !IsSpace(s[|s| - 1])))
  }

  lemma {:induction false} CollapseFacts(s: string)
    ensures NoChar(CollapseNewlines(s), '\n')
    ensures NoChar(s, '\r') ==> NoChar(CollapseNewlines(s), '\r')
    ensures NoChar(s, '\n') ==> CollapseNewlines(s) == s
    decreases |s|
  {
    if |s| > 0 {
      if s[0] == '\n' {
        var j := SkipChar(s, 1, '\n');
        CollapseFacts(s[j..]);
      } else {
        CollapseFacts(s[1..]);
        if NoChar(s, '\n') {
          assert [s[0]] + s[1..] == s;
        }
      }
    }
  }

  /**
   * Squeezing leaves no tab and no two spaces in a row, adds no carriage return
   * or line feed, and starts with a space exactly when the input starts with a blank.
   */
  lemma {:induction false} SqueezeFacts(s: string)
    ensures var r := SqueezeBlanks(s);
      && NoChar(r, '\t') && NoDoubleSpace(r)
      && (NoChar(s, '\r') ==> NoChar(r, '\r'))
      && (NoChar(s, '\n') ==> NoChar(r, '\n'))
      && (|r| > 0 ==> (r[0] == ' ' <==> IsBlank(s[0])))
      && (|s| > 0 <==> |r| > 0)
    decreases |s|
  {
    if |s| > 0 {
      if IsBlank(s[0]) {
        var j := SkipBlanks(s, 1);
        var t := s[j..];
        SqueezeFacts(t);
        assert |t| > 0 ==> !IsBlank(t[0]);
      } else {
        SqueezeFacts(s[1..]);
      }
    }
  }

  /** Text with no tab and no two spaces in a row is left as it is. */
  lemma {:induction false} SqueezeFixes(s: string)
    requires NoChar(s, '\t') && NoDoubleSpace(s)
    ensures SqueezeBlanks(s) == s
    decreases |s|
  {
    if |s| > 0 {
      var t := s[1..];
      assert NoChar(t, '\t') && NoDoubleSpace(t);
      SqueezeFixes(t);
      if IsBlank(s[0]) {
        if |s| > 1 {
          assert s[1] != ' ' && s[1] != '\t';
        }
        assert SkipBlanks(s, 1) == 1;
      }
      assert [s[0]] + t == s;
    }
  }

  /** Trimming keeps every property that holds of each character and of each adjacent pair. */
  lemma TrimKeeps(s: string)
    requires NoChar(s, '\r') && NoChar(s, '\n') && NoChar(s, '\t') && NoDoubleSpace(s)
    ensures IsSpeechClean(Trim(s))
  {
    var r := Trim(s);
    var off := TrimOffset(s);
    assert forall i :: 0 <= i < |r| ==> r[i] == s[off + i];
  }

  /**
   * The cleaner's output has no carriage return, line feed or tab, no two
   * spaces in a row and no whitespace at either end.
   */
  lemma CleanIsClean(s: string)
    ensures IsSpeechClean(CleanForSpeech(s))
  {
    var a := ReplaceChar(s, '\r', " ");
    var b := CollapseNewlines(a);
    CollapseFacts(a);
    SqueezeFacts(b);
    TrimKeeps(SqueezeBlanks(b));
  }

  /** Clean text passes through the cleaner unchanged. */
  lemma CleanFixesClean(s: string)
    requires IsSpeechClean(s)
    ensures CleanForSpeech(s) == s
  {
    assert ReplaceChar(s, '\r', " ") == s;
    CollapseFacts(s);
    SqueezeFixes(s);
    TrimOfTrimmed(s);
  }

  /** Cleaning twice is cleaning once. */
  lemma CleanIdempotent(s: string)
    ensures CleanForSpeech(CleanForSpeech(s)) == CleanForSpeech(s)
  {
    CleanIsClean(s);
    CleanFixesClean(CleanForSpeech(s));
  }
}
