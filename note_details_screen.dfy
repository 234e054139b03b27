/**
 * The details screen's text: the `m:ss` rendering of recording lengths and
 * playback positions, and the message handed to the share sheet.
 */
module NoteDetailsScreen {
  import opened Wrappers
  import opened Strings
  import opened Notes

  /** Whole minutes in a duration: `Math.floor(ms / 60000)`. */
  function Minutes(ms: nat): (m: nat)
    ensures m * 60000 <= ms < m * 60000 + 60000
  {
    ms / 60000
  }

  /** Seconds past the minute: `Math.floor((ms % 60000) / 1000)`. */
  function Seconds(ms: nat): (s: nat)
    ensures s < 60
  {
    (ms % 60000) / 1000
  }

  /** `formatDuration`: minutes, ':', then the seconds padded to two digits. */
  function FormatDuration(ms: nat): (r: string)
    ensures |r| >= 4 && r[|r| - 3] == ':'
  {
    var seconds := Seconds(ms);
    NatToString(Minutes(ms)) + ":" + (if seconds < 10 then "0" else "") + NatToString(seconds)
  }

  /** Reads an `m:ss` string back as a whole number of seconds. */
  function ParseDuration(r: string): Option<nat>
  {
    if |r| >= 4 && r[|r| - 3] == ':' && AllDigits(r[..|r| - 3]) && AllDigits(r[|r| - 2..]) &&
       DecimalValue(r[|r| - 2..]) < 60
    then Some(DecimalValue(r[..|r| - 3]) * 60 + DecimalValue(r[|r| - 2..]))
    else None
  }

  /** The two parts of the text: the minute count as `ms / 60000`, and two digits worth the seconds. */
  lemma {:induction false} FormatDurationParts(ms: nat)
    ensures var r := FormatDuration(ms);
      r[..|r| - 3] == NatToString(ms / 60000) &&
      AllDigits(r[|r| - 2..]) && DecimalValue(r[|r| - 2..]) == (ms % 60000) / 1000 < 60
  {
    var r := FormatDuration(ms);
    var s := Seconds(ms);
    var m := NatToString(Minutes(ms));
    DecimalRoundTrip(s);
    if s < 10 {
      DecimalLeadingZero(NatToString(s));
      assert r == m + ":" + ("0" + NatToString(s));
    } else {
      assert r == m + ":" + NatToString(s);
    }
    assert r[..|r| - 3] == m;
  }

  /** The text shows the duration truncated to whole seconds, and nothing is lost on the way. */
  lemma FormatDurationRoundTrip(ms: nat)
    ensures ParseDuration(FormatDuration(ms)) == Some(ms / 1000)
  {
    var r := FormatDuration(ms);
    FormatDurationParts(ms);
    DecimalRoundTrip(ms / 60000);
    SplitMillis(ms);
  }

  lemma SplitMillis(ms: nat)
    ensures (ms / 60000) * 60 + (ms % 60000) / 1000 == ms / 1000
  {
    var m, rest := ms / 60000, ms % 60000;
    assert ms == m * 60000 + rest;
    assert m * 60000 == (m * 60) * 1000;
    assert rest == (rest / 1000) * 1000 + rest % 1000;
    assert ms == (m * 60 + rest / 1000) * 1000 + rest % 1000;
  }

  /** Under a minute the text is "0:ss". */
  lemma {:induction false} UnderOneMinute(ms: nat)
    requires ms < 60000
    ensures |FormatDuration(ms)| == 4 && FormatDuration(ms)[..2] == "0:"
  {
    var s := Seconds(ms);
    assert NatToString(Minutes(ms)) == "0";
    if s < 10 {
      assert FormatDuration(ms) == "0" + ":" + "0" + NatToString(s);
    } else {
      assert FormatDuration(ms) == "0" + ":" + "" + NatToString(s);
    }
  }

  /** Before a recording has loaded its duration and position are 0, shown as "0:00". */
  lemma FormatZero()
    ensures FormatDuration(0) == "0:00"
  {
    assert NatToString(0) == "0";
  }

  // ---------------------------------------------------------------- share

  /** The share message: the title, a blank line, the content. */
  function ShareMessage(note: Note): (m: string)
    ensures |m| == |note.title| + 2 + |note.content|
    ensures m[..|note.title|] == note.title && m[|note.title|..|note.title| + 2] == "\n\n"
    ensures m[|note.title| + 2..] == note.content
  {
    note.title + "\n\n" + note.content
  }

  /** Splits a message at its first "\n\n": the text before it and the text after it. */
  function SplitAtBlankLine(m: string): (string, string)
    decreases |m|
  {
    if |m| < 2 then (m, "")
    else if m[0] == '\n' && m[1] == '\n' then ("", m[2..])
    else
      var (head, tail) := SplitAtBlankLine(m[1..]);
      ([m[0]] + head, tail)
  }

  /**
   * The recipient can take the message apart again: when the title holds no
   * line break, the first blank line separates the title from the content.
   */
  lemma {:induction false} ShareMessageSplits(title: string, content: string)
    requires forall i | 0 <= i < |title| :: title[i] != '\n'
    ensures SplitAtBlankLine(title + "\n\n" + content) == (title, content)
  {
    var m := title + "\n\n" + content;
    if title == [] {
      assert m == "\n\n" + content;
      assert m[2..] == content;
    } else {
      assert m[1..] == title[1..] + "\n\n" + content;
      ShareMessageSplits(title[1..], content);
      assert [m[0]] + title[1..] == title;
    }
  }

  lemma ShareMessageOfNote(note: Note)
    requires forall i | 0 <= i < |note.title| :: note.title[i] != '\n'
    ensures SplitAtBlankLine(ShareMessage(note)) == (note.title, note.content)
  {
    ShareMessageSplits(note.title, note.content);
  }
}
