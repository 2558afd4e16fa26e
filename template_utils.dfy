/**
 * The text helpers of the template views: truncation of long texts with an
 * ellipsis, and splitting a text into the lines that are rendered with a
 * line break after each.
 */
module TemplateUtils {

  const DefaultMaxLength: int := 300

  /**
   * `truncateText`: a text longer than the limit is cut to its first
   * `maxLength` characters and gets three dots appended; JavaScript's
   * `substring` treats a negative end as 0.
   */
  function TruncateText(text: string, maxLength: int := DefaultMaxLength): (r: string)
    // a text that fits is returned as it is
    ensures |text| <= maxLength ==> r == text
    // one that does not keeps a prefix of `maxLength` characters, then three dots
    ensures 0 <= maxLength < |text| ==> |r| == maxLength + 3 && r[..maxLength] <= text && r[maxLength..] == "..."
    // a negative limit keeps no character at all
    ensures maxLength < 0 ==> r == "..."
  {
    if |text| > maxLength then text[..if maxLength < 0 then 0 else maxLength] + "..." else text
  }

  /** Without a limit argument the limit is 300. */
  lemma TruncateDefault(text: string)
    ensures |text| <= 300 ==> TruncateText(text) == text
    ensures |text| > 300 ==> TruncateText(text) == text[..300] + "..."
  {
  }

  /** `text.split(sep)` for a one-character separator. */
  function Split(s: string, sep: char): (lines: seq<string>)
    ensures |lines| >= 1
    ensures forall i :: 0 <= i < |lines| ==> sep !in lines[i]
    decreases |s|
  {
    if s == [] then [""]
    else
      var rest := Split(s[1..], sep);
      if s[0] == sep then [""] + rest
      else [[s[0]] + rest[0]] + rest[1..]
  }

  /** `lines.join(sep)`. */
  function Join(lines: seq<string>, sep: char): string
    decreases |lines|
  {
    if lines == [] then ""
    else if |lines| == 1 then lines[0]
    else lines[0] + [sep] + Join(lines[1..], sep)
  }

  /** `renderWithLineBreaks`: one rendered fragment per line, in order. */
  function RenderWithLineBreaks(text: string): seq<string> {
    Split(text, '\n')
  }

  /** There is one line per separator plus one. */
  lemma {:induction false} SplitCount(s: string, sep: char)
    ensures |Split(s, sep)| == multiset(s)[sep] + 1
    decreases |s|
  {
    if s != [] {
      SplitCount(s[1..], sep);
      assert s == [s[0]] + s[1..];
      assert multiset(s) == multiset{s[0]} + multiset(s[1..]);
    }
  }

  /** Joining the lines with the separator gives back the text. */
  lemma {:induction false} JoinSplit(s: string, sep: char)
    ensures Join(Split(s, sep), sep) == s
    decreases |s|
  {
    if s != [] {
      JoinSplit(s[1..], sep);
      var rest := Split(s[1..], sep);
      if s[0] == sep {
        assert Split(s, sep) == [""] + rest;
        assert ([""] + rest)[1..] == rest;
        assert s == [] + [sep] + s[1..];
      } else {
        var lines := Split(s, sep);
        assert lines == [[s[0]] + rest[0]] + rest[1..];
        if |rest| == 1 {
          assert Join(rest, sep) == rest[0];
        } else {
          assert lines[1..] == rest[1..];
          assert Join(rest, sep) == rest[0] + [sep] + Join(rest[1..], sep);
        }
      }
    }
  }

  /** Conversely, lines free of the separator come back from splitting their join. */
  lemma {:induction false} SplitJoin(lines: seq<string>, sep: char)
    requires |lines| >= 1
    requires forall i :: 0 <= i < |lines| ==> sep !in lines[i]
    ensures Split(Join(lines, sep), sep) == lines
    decreases |lines|, |lines[0]|
  {
    if lines[0] == [] {
      if |lines| > 1 {
        SplitJoin(lines[1..], sep);
        assert Join(lines, sep) == [sep] + Join(lines[1..], sep);
        assert ([sep] + Join(lines[1..], sep))[1..] == Join(lines[1..], sep);
        assert lines == [""] + lines[1..];
      }
    } else {
      var c := lines[0][0];
      var shorter := [lines[0][1..]] + lines[1..];
      assert c != sep by {
        assert c == lines[0][0];
      }
      forall i | 0 <= i < |shorter| ensures sep !in shorter[i] {
        if i == 0 {
          assert forall x :: x in lines[0][1..] ==> x in lines[0];
        } else {
          assert shorter[i] == lines[i];
        }
      }
      SplitJoin(shorter, sep);
      assert shorter[1..] == lines[1..];
      assert Join(lines, sep) == [c] + Join(shorter, sep);
      assert ([c] + Join(shorter, sep))[1..] == Join(shorter, sep);
      assert lines[0] == [c] + lines[0][1..];
      assert lines == [[c] + shorter[0]] + shorter[1..];
    }
  }
}
