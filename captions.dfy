/**
 * The caption generator `makeVttFromScript` (src/routes/jobs.js): the script is
 * split into sentences and each becomes a three-second WebVTT cue, the windows
 * following each other without gap; an empty script gets one placeholder cue.
 * Timestamps are `HH:MM:SS.mmm` as in the cue timing syntax of section 4 of the
 * W3C WebVTT specification.
 */
module Captions {
  import opened JsText
  import opened Script

  const Header := "WEBVTT\n\n"
  const CueSeconds := 3
  const Placeholder := "(no script)"

  // ---------- timestamps ----------

  /** `pad(n)`: at least two digits. */
  function Pad2(n: nat): string {
    PadStart(NatToString(n), 2, '0')
  }

  /**
   * `stamp(sec)` for a whole number of seconds (every cue boundary is a multiple
   * of three): hours, minutes and seconds padded to two digits, milliseconds 000.
   */
  function Stamp(sec: nat): string {
    Pad2(Hours(sec)) + ":" + Pad2(Minutes(sec)) + ":" + Pad2(Seconds(sec)) + "." + PadStart(NatToString(0), 3, '0')
  }

  /** `Math.floor(sec / 3600)`. */
  function Hours(sec: nat): nat {
    sec / 3600
  }

  /** `Math.floor((sec % 3600) / 60)`. */
  function Minutes(sec: nat): nat {
    (sec % 3600) / 60
  }

  /** `Math.floor(sec % 60)`. */
  function Seconds(sec: nat): nat {
    sec % 60
  }

  /** Reads a timestamp `H:MM:SS.mmm` back as a number of milliseconds. */
  function ParseStamp(t: string): Option<nat> {
    var fields := SplitOn(t, ':');
    if |fields| != 3 then None else ParseClock(fields[0], fields[1], SplitOn(fields[2], '.'))
  }

  function ParseClock(hh: string, mm: string, secs: seq<string>): Option<nat> {
    if |secs| != 2 then None
    else
      var ss, ms := secs[0], secs[1];
      if hh == [] || |mm| != 2 || |ss| != 2 || |ms| != 3
         || !AllDigits(hh) || !AllDigits(mm) || !AllDigits(ss) || !AllDigits(ms) then None
      else Some(ClockMillis(hh, mm, ss, ms))
  }

  /** The milliseconds a clock reading `hh:mm:ss.ms` stands for. */
  function ClockMillis(hh: string, mm: string, ss: string, ms: string): nat
    requires AllDigits(hh) && AllDigits(mm) && AllDigits(ss) && AllDigits(ms)
  {
    ((DigitsValue(hh) * 60 + DigitsValue(mm)) * 60 + DigitsValue(ss)) * 1000 + DigitsValue(ms)
  }

  lemma Pad2Facts(n: nat)
    ensures AllDigits(Pad2(n)) && |Pad2(n)| >= 2 && DigitsValue(Pad2(n)) == n
    ensures n < 100 ==> |Pad2(n)| == 2
  {
    var d := NatToString(n);
    NatToStringFacts(n);
    DigitsRoundTrip(n);
    PadStartFacts(d, 2, '0');
    ZerosValue(|Pad2(n)| - |d|, d);
  }

  lemma Mod60(n: int, q: int, r: int)
    requires n == 60 * q + r && 0 <= r < 60
    ensures n % 60 == r
  {
  }

  lemma ClockArithmetic(n: nat)
    ensures (Hours(n) * 60 + Minutes(n)) * 60 + Seconds(n) == n
  {
    var h, r := n / 3600, n % 3600;
    var m, s := r / 60, r % 60;
    assert n == 3600 * h + r;
    assert r == 60 * m + s;
    Mod60(n, 60 * h + m, s);
  }

  /** The milliseconds field of a whole-second timestamp. */
  lemma MillisField()
    ensures PadStart(NatToString(0), 3, '0') == "000"
  {
    assert NatToString(0) == "0";
    assert PadStart("0", 3, '0') == "000";
  }

  lemma FieldBounds(n: nat)
    ensures Minutes(n) < 60 && Seconds(n) < 60
  {
  }

  /** A timestamp is its three padded fields and the milliseconds, separated. */
  lemma StampShape(n: nat)
    ensures Stamp(n) == Pad2(Hours(n)) + [':'] + (Pad2(Minutes(n)) + [':'] + (Pad2(Seconds(n)) + "." + "000"))
  {
    MillisField();
    assert Stamp(n) == Pad2(Hours(n)) + ":" + Pad2(Minutes(n)) + ":" + Pad2(Seconds(n)) + "." + "000";
  }

  /** Each field of a timestamp is a digit string of at least two digits; minutes and seconds of exactly two. */
  lemma FieldDigits(n: nat)
    ensures var h, m, s := Pad2(Hours(n)), Pad2(Minutes(n)), Pad2(Seconds(n));
      && AllDigits(h) && AllDigits(m) && AllDigits(s)
      && |h| >= 2 && |m| == 2 && |s| == 2
  {
    FieldBounds(n);
    Pad2Facts(Hours(n));
    Pad2Facts(Minutes(n));
    Pad2Facts(Seconds(n));
  }

  lemma SplitColons(h: string, m: string, tail: string)
    requires forall i :: 0 <= i < |h| ==> h[i] != ':'
    requires forall i :: 0 <= i < |m| ==> m[i] != ':'
    requires forall i :: 0 <= i < |tail| ==> tail[i] != ':'
    ensures SplitOn(h + [':'] + (m + [':'] + tail), ':') == [h, m, tail]
  {
    SplitAfterPiece(h, ':', m + [':'] + tail);
    SplitAfterPiece(m, ':', tail);
    SplitWithout(tail, ':');
  }

  lemma SplitMillis(s: string)
    requires AllDigits(s)
    ensures SplitOn(s + "." + "000", '.') == [s, "000"]
  {
    SplitAfterPiece(s, '.', "000");
    SplitWithout("000", '.');
    assert s + "." + "000" == s + ['.'] + "000";
  }

  lemma MillisValue()
    ensures AllDigits("000") && DigitsValue("000") == 0
  {
    ZerosValue(3, "");
    assert Repeat('0', 3) + "" == "000";
  }

  lemma ClockValue(h: string, m: string, s: string, ms: string)
    requires AllDigits(h) && AllDigits(m) && AllDigits(s) && AllDigits(ms)
    requires |h| >= 1 && |m| == 2 && |s| == 2 && |ms| == 3
    ensures ParseClock(h, m, [s, ms]) == Some(ClockMillis(h, m, s, ms))
  {
  }

  /** Parsing a string laid out as `h:mm:ss.000` recovers its fields. */
  lemma ParseFields(h: string, m: string, s: string)
    requires AllDigits(h) && AllDigits(m) && AllDigits(s)
    requires |h| >= 1 && |m| == 2 && |s| == 2
    ensures AllDigits("000")
    ensures ParseStamp(h + [':'] + (m + [':'] + (s + "." + "000"))) == Some(ClockMillis(h, m, s, "000"))
  {
    var tail := s + "." + "000";
    assert forall i :: 0 <= i < |tail| ==> tail[i] != ':';
    SplitColons(h, m, tail);
    SplitMillis(s);
    MillisValue();
    ClockValue(h, m, s, "000");
  }

  lemma MillisOfFields(h: string, m: string, s: string, ms: string, hv: nat, mv: nat, sv: nat, msv: nat)
    requires AllDigits(h) && AllDigits(m) && AllDigits(s) && AllDigits(ms)
    requires DigitsValue(h) == hv && DigitsValue(m) == mv && DigitsValue(s) == sv && DigitsValue(ms) == msv
    ensures ClockMillis(h, m, s, ms) == ((hv * 60 + mv) * 60 + sv) * 1000 + msv
  {
  }

  /** Reading a timestamp back gives the seconds it was made from. */
  lemma StampRoundTrip(n: nat)
    ensures ParseStamp(Stamp(n)) == Some(1000 * n)
  {
    var h, m, s := Pad2(Hours(n)), Pad2(Minutes(n)), Pad2(Seconds(n));
    StampShape(n);
    FieldDigits(n);
    ParseFields(h, m, s);
    Pad2Facts(Hours(n));
    Pad2Facts(Minutes(n));
    Pad2Facts(Seconds(n));
    MillisValue();
    MillisOfFields(h, m, s, "000", Hours(n), Minutes(n), Seconds(n), 0);
    ClockArithmetic(n);
  }

  /** Different seconds never render to the same timestamp. */
  lemma StampInjective(a: nat, b: nat)
    requires a != b
    ensures Stamp(a) != Stamp(b)
  {
    StampRoundTrip(a);
    StampRoundTrip(b);
  }

  /** Below one hundred hours a timestamp is exactly `HH:MM:SS.000`. */
  lemma StampLayout(n: nat)
    requires n < 100 * 3600
    ensures var t := Stamp(n);
      && |t| == 12 && t[2] == ':' && t[5] == ':' && t[8] == '.' && t[9..] == "000"
      && forall i :: 0 <= i < 8 && i != 2 && i != 5 ==> IsDigit(t[i])
  {
    StampShape(n);
    FieldDigits(n);
    Pad2Facts(Hours(n));
  }

  // ---------- cues ----------

  datatype Cue = Cue(number: nat, startSec: nat, endSec: nat, text: string)

  /** One cue block: number, timing line, text, blank line. */
  function CueBlock(c: Cue): string {
    NatToString(c.number) + "\n" + Stamp(c.startSec) + " --> " + Stamp(c.endSec) + "\n" + c.text + "\n\n"
  }

  /** The cleaned script: carriage returns removed, then trimmed. */
  function CaptionText(text: string): string {
    Trim(ReplaceChar(text, '\r', ""))
  }

  /** The sentence-like parts that become cues. */
  function CaptionParts(text: string): seq<string> {
    Sentences(CaptionText(text))
  }

  /** One cue per part, in consecutive three-second windows from 0. */
  function CueWindows(parts: seq<string>): (cs: seq<Cue>)
    ensures |cs| == |parts|
  {
    seq(|parts|, i requires 0 <= i < |parts| => Cue(i + 1, CueSeconds * i, CueSeconds * i + CueSeconds, parts[i]))
  }

  /** The cues of a track: the windows of the parts, or the placeholder when there is none. */
  function CuesFor(parts: seq<string>): (cs: seq<Cue>)
    ensures |cs| == if |parts| == 0 then 1 else |parts|
  {
    if |parts| == 0 then [Cue(1, 0, CueSeconds, Placeholder)] else CueWindows(parts)
  }

  function RenderCues(cs: seq<Cue>): string {
    if |cs| == 0 then "" else RenderCues(cs[..|cs| - 1]) + CueBlock(cs[|cs| - 1])
  }

  /** The caption track of a script. */
  function CaptionTrack(text: string): string {
    Header + RenderCues(CuesFor(CaptionParts(text)))
  }

  /** A one-digit number padded to two digits. */
  lemma Pad2Small(n: nat)
    requires n < 10
    ensures Pad2(n) == ['0', DigitChar(n)]
  {
    assert NatToString(n) == [DigitChar(n)];
    assert PadStart([DigitChar(n)], 2, '0') == PadStart(['0', DigitChar(n)], 2, '0');
  }

  /** The timestamp of a second below ten. */
  lemma StampSmall(n: nat)
    requires n < 10
    ensures Stamp(n) == "00:00:0" + [DigitChar(n)] + ".000"
  {
    assert Hours(n) == 0 && Minutes(n) == 0 && Seconds(n) == n;
    Pad2Small(0);
    Pad2Small(n);
    MillisField();
  }

  lemma StampZero()
    ensures Stamp(0) == "00:00:00.000"
  {
    StampSmall(0);
  }

  lemma StampThree()
    ensures Stamp(3) == "00:00:03.000"
  {
    StampSmall(3);
  }

  lemma NumberOne()
    ensures NatToString(1) == "1"
  {
  }

  /** The placeholder text the generator writes is the block of cue 1, 0 to 3 seconds, "(no script)". */
  lemma PlaceholderBlock()
    ensures CueBlock(Cue(1, 0, 3, Placeholder)) == "1\n00:00:00.000 --> 00:00:03.000\n(no script)\n\n"
  {
    StampZero();
    StampThree();
    NumberOne();
    assert CueBlock(Cue(1, 0, 3, Placeholder))
      == "1" + "\n" + "00:00:00.000" + " --> " + "00:00:03.000" + "\n" + "(no script)" + "\n\n";
    PlaceholderText();
  }

  lemma PlaceholderText()
    ensures "1" + "\n" + "00:00:00.000" + " --> " + "00:00:03.000" + "\n" + "(no script)" + "\n\n"
      == "1\n00:00:00.000 --> 00:00:03.000\n(no script)\n\n"
  {
    assert "1" + "\n" == "1\n";
    assert "1\n" + "00:00:00.000" == "1\n00:00:00.000";
    assert "1\n00:00:00.000" + " --> " == "1\n00:00:00.000 --> ";
    assert "1\n00:00:00.000 --> " + "00:00:03.000" == "1\n00:00:00.000 --> 00:00:03.000";
    assert "1\n00:00:00.000 --> 00:00:03.000" + "\n" == "1\n00:00:00.000 --> 00:00:03.000\n";
    assert "1\n00:00:00.000 --> 00:00:03.000\n" + "(no script)" == "1\n00:00:00.000 --> 00:00:03.000\n(no script)";
  }

  /** Rendering one more cue appends its block. */
  lemma RenderStep(cs: seq<Cue>, i: nat)
    requires i < |cs|
    ensures RenderCues(cs[..i + 1]) == RenderCues(cs[..i]) + CueBlock(cs[i])
  {
    assert cs[..i + 1][..i] == cs[..i];
  }

  lemma Associate(a: string, b: string, c: string)
    ensures a + b + c == a + (b + c)
  {
  }

  /** The loop of `makeVttFromScript`: one cue block per part while `t` advances by three seconds. */
  method AppendCues(parts: seq<string>) returns (vtt: string)
    ensures vtt == Header + RenderCues(CueWindows(parts))
  {
    var t: nat := 0;
    vtt := Header;
    ghost var cues := CueWindows(parts);
    for i := 0 to |parts|
      invariant t == CueSeconds * i
      invariant vtt == Header + RenderCues(cues[..i])
    {
      var dur := CueSeconds;
      var cue := Cue(i + 1, t, t + dur, parts[i]);
      assert cue == cues[i];
      var block := CueBlock(cue);
      RenderStep(cues, i);
      Associate(Header, RenderCues(cues[..i]), block);
      vtt := vtt + block;
      t := t + dur;
    }
    assert cues[..|parts|] == cues;
  }

  /** `makeVttFromScript`: the cue blocks of the parts, or the placeholder block when there is no part. */
  method MakeVtt(text: string) returns (vtt: string)
    ensures vtt == CaptionTrack(text)
  {
    var cleaned := Trim(ReplaceChar(text, '\r', ""));
    var parts := Sentences(cleaned);
    vtt := AppendCues(parts);
    if |parts| == 0 {
      ghost var cues := CuesFor(parts);
      PlaceholderBlock();
      RenderStep(cues, 0);
      Associate(Header, RenderCues(cues[..0]), CueBlock(cues[0]));
      assert CueWindows(parts) == cues[..0];
      vtt := vtt + "1\n00:00:00.000 --> 00:00:03.000\n(no script)\n\n";
      assert cues[..1] == cues;
    }
    assert parts == CaptionParts(text);
  }

  /**
   * The cue list of any script: numbered 1..n, each three seconds long, the
   * first from 0 and each starting where the previous ended; one cue per part,
   * or the single placeholder cue 0 to 3 seconds when there is no part.
   */
  lemma CuesContiguous(text: string)
    ensures var parts, cs := CaptionParts(text), CuesFor(CaptionParts(text));
      && |cs| == (if |parts| == 0 then 1 else |parts|)
      && cs[0].startSec == 0
      && (forall i :: 0 <= i < |cs| ==> cs[i].number == i + 1 && cs[i].endSec == cs[i].startSec + CueSeconds)
      && (forall i :: 0 <= i < |cs| - 1 ==> cs[i].endSec == cs[i + 1].startSec)
      && (|parts| == 0 ==> cs == [Cue(1, 0, 3, Placeholder)])
      && (forall i :: 0 <= i < |parts| ==> cs[i].text == parts[i])
  {
  }

  /**
   * The timing line of cue `i` reads back as the window [3i, 3i + 3] seconds, so
   * the end stamp of a cue is the start stamp of the next and no two cues share
   * a start stamp.
   */
  lemma CueStampsDecode(parts: seq<string>, i: nat)
    requires i < |CuesFor(parts)|
    ensures ParseStamp(Stamp(CuesFor(parts)[i].startSec)) == Some(3000 * i)
    ensures ParseStamp(Stamp(CuesFor(parts)[i].endSec)) == Some(3000 * (i + 1))
  {
    var c := CuesFor(parts)[i];
    assert c.startSec == 3 * i && c.endSec == 3 * (i + 1);
    StampsAt(3 * i, 3000 * i);
    StampsAt(3 * (i + 1), 3000 * (i + 1));
  }

  lemma StampsAt(n: nat, ms: nat)
    requires ms == 1000 * n
    ensures ParseStamp(Stamp(n)) == Some(ms)
  {
    StampRoundTrip(n);
  }

  /** Every track begins with the header and the cues rendered in order. */
  lemma {:induction false} RenderSplits(cs: seq<Cue>, k: nat)
    requires k <= |cs|
    ensures StartsWith(RenderCues(cs), RenderCues(cs[..k]))
    decreases |cs| - k
  {
    if k < |cs| {
      RenderSplits(cs[..|cs| - 1], k);
      assert cs[..|cs| - 1][..k] == cs[..k];
    } else {
      assert cs[..k] == cs;
    }
  }
}
