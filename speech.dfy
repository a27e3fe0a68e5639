/**
 * The duet splitter `parseDuet` (src/routes/jobs.js): lines labelled `Alex:` or
 * `Sam:` become the segments, in line order; a script without such a line is
 * split into sentences that the two speakers read in turn.
 */
module Speech {
  import opened JsText
  import opened Script

  datatype Speaker = Alex | Sam

  /** `m[1].toLowerCase()`: the speaker's name as the segment records it. */
  function SpeakerName(s: Speaker): string {
    match s
    case Alex => "alex"
    case Sam => "sam"
  }

  datatype Segment = Segment(speaker: Speaker, text: string)

  // ---------- lines ----------

  /** `s.split(/\r?\n/)`: the pieces between line breaks, a break being `\r\n` or `\n`. */
  function SplitLines(s: string): (r: seq<string>)
    ensures |r| == 1 + multiset(s)['\n']
    ensures forall k, j :: 0 <= k < |r| && 0 <= j < |r[k]| ==> r[k][j] != '\n'
  {
    if |s| == 0 then [""]
    else
      assert s == [s[0]] + s[1..];
      if s[0] == '\n' then [""] + SplitLines(s[1..])
      else if |s| >= 2 && s[0] == '\r' && s[1] == '\n' then
        assert s[1..] == [s[1]] + s[2..];
        [""] + SplitLines(s[2..])
      else
        var rest := SplitLines(s[1..]);
        [[s[0]] + rest[0]] + rest[1..]
  }

  /** `map((s) => s.trim())`. */
  function TrimAll(xs: seq<string>): (r: seq<string>)
    ensures |r| == |xs| && forall k :: 0 <= k < |xs| ==> r[k] == Trim(xs[k])
  {
    seq(|xs|, k requires 0 <= k < |xs| => Trim(xs[k]))
  }

  /** The script's lines, trimmed, without the empty ones. */
  function DuetLines(script: string): seq<string> {
    NonEmpty(TrimAll(SplitLines(script)))
  }

  // ---------- one line against `/^(Alex|Sam):\s*(.+)$/i` ----------

  datatype Label = Label(speaker: Speaker, rest: string)

  /** `^(Alex|Sam):` without regard to ASCII case, and what follows the colon. */
  function LabelOf(line: string): Option<Label> {
    if |line| >= 5 && Lower(line[..5]) == "alex:" then Some(Label(Alex, line[5..]))
    else if |line| >= 4 && Lower(line[..4]) == "sam:" then Some(Label(Sam, line[4..]))
    else None
  }

  predicate NoLineTerminator(s: string) {
    forall i :: 0 <= i < |s| ==> !IsLineTerminator(s[i])
  }

  /**
   * `\s*(.+)$` at the start of `rest`: the whitespace run is taken as long as
   * possible and given back one character at a time until `.+` (at least one
   * character, no line terminator) reaches the end.
   */
  function TextAfterLabel(rest: string): Option<string> {
    var t := TrimStart(rest);
    if |t| > 0 then (if NoLineTerminator(t) then Some(t) else None)
    else if |rest| > 0 && !IsLineTerminator(rest[|rest| - 1]) then Some([rest[|rest| - 1]])
    else None
  }

  /** The segment a line makes, if it matches. */
  function MatchLine(line: string): Option<Segment> {
    var lab := LabelOf(line);
    if lab.None? then None
    else
      var text := TextAfterLabel(lab.value.rest);
      if text.None? then None else Some(Segment(lab.value.speaker, text.value))
  }

  /** The segments of the labelled lines, in line order. */
  function LabelledSegments(lines: seq<string>): seq<Segment> {
    if |lines| == 0 then []
    else
      var m := MatchLine(lines[|lines| - 1]);
      LabelledSegments(lines[..|lines| - 1]) + (if m.Some? then [m.value] else [])
  }

  /** The fallback: the sentences, read by Alex and Sam in turn starting with Alex. */
  function TurnSegments(sentences: seq<string>): seq<Segment> {
    seq(|sentences|, i requires 0 <= i < |sentences| => Segment(if i % 2 == 0 then Alex else Sam, sentences[i]))
  }

  /** The sentences of the fallback: carriage returns become spaces, then the sentence split. */
  function FallbackSentences(script: string): seq<string> {
    Sentences(ReplaceChar(script, '\r', " "))
  }

  /** What `parseDuet` returns. */
  function DuetSegments(script: string): seq<Segment> {
    var labelled := LabelledSegments(DuetLines(script));
    if |labelled| == 0 then TurnSegments(FallbackSentences(script)) else labelled
  }

  lemma LabelledStep(lines: seq<string>, k: nat)
    requires k < |lines|
    ensures LabelledSegments(lines[..k + 1])
      == LabelledSegments(lines[..k]) + (if MatchLine(lines[k]).Some? then [MatchLine(lines[k]).value] else [])
  {
    assert lines[..k + 1][..k] == lines[..k];
  }

  lemma TurnStep(sentences: seq<string>, i: nat)
    requires i < |sentences|
    ensures TurnSegments(sentences[..i + 1])
      == TurnSegments(sentences[..i]) + [Segment(if i % 2 == 0 then Alex else Sam, sentences[i])]
  {
  }

  /** `parseDuet`: a loop over the lines, then, if nothing matched, a loop over the sentences. */
  method ParseDuet(script: string) returns (segs: seq<Segment>)
    ensures segs == DuetSegments(script)
  {
    var lines := DuetLines(script);
    segs := [];
    for k := 0 to |lines|
      invariant segs == LabelledSegments(lines[..k])
    {
      var m := MatchLine(lines[k]);
      LabelledStep(lines, k);
      if m.Some? {
        segs := segs + [m.value];
      }
    }
    assert lines[..|lines|] == lines;
    if |segs| == 0 {
      var sentences := FallbackSentences(script);
      for i := 0 to |sentences|
        invariant segs == TurnSegments(sentences[..i])
      {
        TurnStep(sentences, i);
        segs := segs + [Segment(if i % 2 == 0 then Alex else Sam, sentences[i])];
      }
      assert sentences[..|sentences|] == sentences;
    }
  }

  // ---------- properties ----------

  /**
   * The match on a trimmed line, stated without the backtracking: a label,
   * then the text after it with its leading whitespace dropped, which must be
   * non-empty and free of line terminators.
   */
  function TrimmedMatch(line: string): Option<Segment> {
    var lab := LabelOf(line);
    if lab.None? then None
    else
      var t := TrimStart(lab.value.rest);
      if |t| > 0 && NoLineTerminator(t) then Some(Segment(lab.value.speaker, t)) else None
  }

  /** On a trimmed line the regular expression matches exactly as `TrimmedMatch` says. */
  lemma MatchTrimmedLine(line: string)
    requires |line| > 0 && !IsSpace(line[0]) && !IsSpace(line[|line| - 1])
    ensures MatchLine(line) == TrimmedMatch(line)
  {
    var lab := LabelOf(line);
    if lab.Some? {
      var rest := lab.value.rest;
      if |rest| > 0 {
        assert rest[|rest| - 1] == line[|line| - 1];
        TextOfNonBlank(rest);
      }
    }
  }

  /** After a text that ends in a non-space the match is the text without its leading whitespace. */
  lemma TextOfNonBlank(rest: string)
    requires |rest| > 0 && !IsSpace(rest[|rest| - 1])
    ensures |TrimStart(rest)| > 0
    ensures TextAfterLabel(rest) == if NoLineTerminator(TrimStart(rest)) then Some(TrimStart(rest)) else None
  {
  }

  /** The label names the speaker: `alex:` or `sam:` in any ASCII case. */
  lemma LabelSpeaker(line: string)
    requires LabelOf(line).Some?
    ensures var l := LabelOf(line).value; var n := |SpeakerName(l.speaker)|;
      && n + 1 <= |line|
      && Lower(line[..n]) == SpeakerName(l.speaker)
      && line[n] == ':'
      && l.rest == line[n + 1..]
  {
    var l := LabelOf(line).value;
    var n := |SpeakerName(l.speaker)|;
    assert Lower(line[..n + 1])[..n] == Lower(line[..n]);
    assert LowerChar(line[n]) == ':';
  }

  /** A matched text is never empty and holds no line terminator. */
  lemma MatchedText(line: string)
    requires MatchLine(line).Some?
    ensures |MatchLine(line).value.text| > 0 && NoLineTerminator(MatchLine(line).value.text)
  {
  }

  /** The labelled lines of two blocks of lines are those of the first block, then those of the second. */
  lemma {:induction false} LabelledConcat(a: seq<string>, b: seq<string>)
    ensures LabelledSegments(a + b) == LabelledSegments(a) + LabelledSegments(b)
    decreases |b|
  {
    if |b| == 0 {
      assert a + b == a;
    } else {
      var b' := b[..|b| - 1];
      LabelledConcat(a, b');
      assert (a + b)[..|a + b| - 1] == a + b';
      assert (a + b)[|a + b| - 1] == b[|b| - 1];
    }
  }

  /** Every labelled segment comes from a matching line, and the count is the number of matching lines. */
  lemma {:induction false} LabelledFromLines(lines: seq<string>)
    ensures |LabelledSegments(lines)| <= |lines|
    ensures forall s :: s in LabelledSegments(lines) ==> exists l :: l in lines && MatchLine(l) == Some(s)
    decreases |lines|
  {
    if |lines| > 0 {
      var init := lines[..|lines| - 1];
      LabelledFromLines(init);
      forall s | s in LabelledSegments(lines)
        ensures exists l :: l in lines && MatchLine(l) == Some(s)
      {
        if s in LabelledSegments(init) {
          var l :| l in init && MatchLine(l) == Some(s);
          assert l in lines;
        } else {
          assert MatchLine(lines[|lines| - 1]) == Some(s);
        }
      }
    }
  }

  /** With a labelled line the segments are exactly the labelled ones. */
  lemma DuetLabelled(script: string)
    requires LabelledSegments(DuetLines(script)) != []
    ensures DuetSegments(script) == LabelledSegments(DuetLines(script))
  {
  }

  /**
   * Without a labelled line there is one segment per sentence, in order, Alex
   * reading the even-numbered ones and Sam the odd-numbered ones.
   */
  lemma DuetFallback(script: string)
    requires LabelledSegments(DuetLines(script)) == []
    ensures var segs, ss := DuetSegments(script), FallbackSentences(script);
      && |segs| == |ss|
      && forall i :: 0 <= i < |segs| ==>
           segs[i].text == ss[i] && (segs[i].speaker == Alex <==> i % 2 == 0)
  {
  }

  /** Every segment has some text. */
  lemma {:induction false} SegmentsNonEmpty(script: string)
    ensures forall s :: s in DuetSegments(script) ==> |s.text| > 0
  {
    var lines := DuetLines(script);
    LabelledFromLines(lines);
    forall s | s in DuetSegments(script)
      ensures |s.text| > 0
    {
      if LabelledSegments(lines) != [] {
        var l :| l in lines && MatchLine(l) == Some(s);
        MatchedText(l);
      } else {
        var ss := FallbackSentences(script);
        var i :| 0 <= i < |ss| && DuetSegments(script)[i] == s;
        assert s.text == ss[i];
      }
    }
  }
}
