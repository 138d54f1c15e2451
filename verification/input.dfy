/** The input helpers around the calculators: `parsingInput`, which turns
    a text area into lines, and `validateInput`, which checks their count. */
module Input {
  import Text
  import Numbers

  /** `s` without one trailing carriage return. */
  function DropCr(s: string): string
  {
    if s != [] && s[|s| - 1] == '\r' then s[..|s| - 1] else s
  }

  /** `text.split(/\r?\n/)`: split at line feeds; a carriage return right
      before a line feed belongs to the separator. */
  function SplitLines(text: string): (r: seq<string>)
    ensures |r| == |Text.Split(text, '\n')|
  {
    var pieces := Text.Split(text, '\n');
    seq(|pieces|, i requires 0 <= i < |pieces| => if i < |pieces| - 1 then DropCr(pieces[i]) else pieces[i])
  }

  /** `parsingInput`: the trimmed non-empty lines of `text`, in order. */
  function Lines(text: string): (r: seq<string>)
    ensures forall i :: 0 <= i < |r| ==> r[i] != "" && Text.Trim(r[i]) == r[i]
  {
    var ts := Text.TrimAll(SplitLines(text));
    assert forall i :: 0 <= i < |ts| ==> Text.Trim(ts[i]) == ts[i] by {
      forall i | 0 <= i < |ts|
        ensures Text.Trim(ts[i]) == ts[i]
      {
        Text.TrimIdempotent(SplitLines(text)[i]);
      }
    }
    TrimmedStayTrimmed(ts);
    Text.NonEmpty(ts)
  }

  /** Filtering the empty strings out of trimmed pieces leaves trimmed pieces. */
  lemma TrimmedStayTrimmed(ps: seq<string>)
    requires forall i :: 0 <= i < |ps| ==> Text.Trim(ps[i]) == ps[i]
    ensures forall i :: 0 <= i < |Text.NonEmpty(ps)| ==> Text.Trim(Text.NonEmpty(ps)[i]) == Text.NonEmpty(ps)[i]
  {
    var r := Text.NonEmpty(ps);
    forall i | 0 <= i < |r|
      ensures Text.Trim(r[i]) == r[i]
    {
      var k :| 0 <= k < |ps| && ps[k] == r[i];
    }
  }

  /** Trimming a line piece gives the same text with or without the
      carriage return the line splitter drops. */
  lemma TrimDropCr(p: string)
    ensures Text.Trim(DropCr(p)) == Text.Trim(p)
  {
    if p != [] && p[|p| - 1] == '\r' {
      assert p == p[..|p| - 1] + ['\r'];
      Text.TrimDropsTrailingSpace(p[..|p| - 1], '\r');
    }
  }

  lemma TrimAllSplitLines(text: string)
    ensures Text.TrimAll(SplitLines(text)) == Text.TrimAll(Text.Split(text, '\n'))
  {
    var pieces := Text.Split(text, '\n');
    var lines := SplitLines(text);
    var a := Text.TrimAll(lines);
    var b := Text.TrimAll(pieces);
    forall i | 0 <= i < |a|
      ensures a[i] == b[i]
    {
      if i < |pieces| - 1 {
        assert lines[i] == DropCr(pieces[i]);
        TrimDropCr(pieces[i]);
      } else {
        assert lines[i] == pieces[i];
      }
    }
  }

  /** The carriage-return handling is invisible after trimming: the lines
      are the trimmed non-empty pieces between line feeds. */
  lemma LinesIgnoreCarriageReturns(text: string)
    ensures Lines(text) == Text.NonEmpty(Text.TrimAll(Text.Split(text, '\n')))
  {
    TrimAllSplitLines(text);
  }

  /** Lines that are non-empty, trimmed and free of line feeds come back
      unchanged from `parsingInput` after being joined with line feeds. */
  lemma LinesJoin(ls: seq<string>)
    requires forall i :: 0 <= i < |ls| ==> ls[i] != "" && Text.Trim(ls[i]) == ls[i] && '\n' !in ls[i]
    ensures Lines(Text.Join(ls, '\n')) == ls
  {
    LinesIgnoreCarriageReturns(Text.Join(ls, '\n'));
    if ls == [] {
      Text.NothingToSplit('\n');
    } else {
      Text.SplitJoin(ls, '\n');
      Text.TrimAllKeeps(ls);
      Text.NonEmptyKeeps(ls);
    }
  }

  datatype Validation = Valid | Invalid(msg: string)

  /** `validateInput`: at least `minCount` lines are required. */
  function ValidateInput(lines: seq<string>, minCount: int): (v: Validation)
    ensures v.Valid? <==> |lines| >= minCount
    ensures v.Invalid? ==> v.msg == "Minimal " + Numbers.IntToString(minCount) + " record diperlukan."
  {
    if |lines| < minCount then Invalid("Minimal " + Numbers.IntToString(minCount) + " record diperlukan.")
    else Valid
  }
}
