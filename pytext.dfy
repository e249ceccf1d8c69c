/**
 The few Python `str` operations the benchmark harness relies on, over
 `string` (= `seq<char>`): substring membership (`needle in s`) and
 splitting on a one-character separator (`s.split(sep)`), with `Join` as
 the inverse of `Split`.
 */
module PyText {

  /** Python's `needle in s` for strings: `needle` occurs as a contiguous slice of `s`. */
  predicate Contains(s: string, needle: string)
    ensures Contains(s, needle) ==> |needle| <= |s|
  {
    exists i | 0 <= i <= |s| - |needle| :: OccursAt(s, needle, i)
  }

  /** `needle` is the slice of `s` that starts at index `i`. */
  predicate OccursAt(s: string, needle: string, i: int)
  {
    0 <= i <= |s| - |needle| && s[i..i + |needle|] == needle
  }

  /**
   Python's `s.split(sep)` with an explicit one-character separator: the
   pieces between separators, so "" gives [""], and a trailing separator
   gives a trailing empty piece.
   */
  function Split(s: string, sep: char): (pieces: seq<string>)
    ensures |pieces| >= 1
    ensures forall i | 0 <= i < |pieces| :: sep !in pieces[i]
    ensures |pieces| == Occurrences(s, sep) + 1
  {
    if |s| == 0 then [""]
    else
      var rest := Split(s[1..], sep);
      if s[0] == sep then [""] + rest
      else [[s[0]] + rest[0]] + rest[1..]
  }

  /** How many times `c` occurs in `s`. */
  function Occurrences(s: string, c: char): nat
  {
    if |s| == 0 then 0
    else (if s[0] == c then 1 else 0) + Occurrences(s[1..], c)
  }

  /** Python's `sep.join(pieces)` for a one-character separator and a non-empty list. */
  function Join(pieces: seq<string>, sep: char): string
    requires |pieces| >= 1
  {
    if |pieces| == 1 then pieces[0]
    else pieces[0] + [sep] + Join(pieces[1..], sep)
  }

  /** Splitting loses nothing: joining the pieces back gives the original text. */
  lemma {:induction false} JoinSplit(s: string, sep: char)
    ensures Join(Split(s, sep), sep) == s
  {
    if |s| > 0 {
      JoinSplit(s[1..], sep);
      var rest := Split(s[1..], sep);
      var pieces := Split(s, sep);
      if s[0] == sep {
        assert pieces == [""] + rest;
        assert pieces[1..] == rest;
        assert Join(pieces, sep) == "" + [sep] + Join(rest, sep);
        assert s == [s[0]] + s[1..];
      } else if |rest| == 1 {
        assert pieces == [[s[0]] + rest[0]];
        assert Join(rest, sep) == rest[0];
        assert s == [s[0]] + s[1..];
      } else {
        assert pieces == [[s[0]] + rest[0]] + rest[1..];
        assert pieces[1..] == rest[1..];
        assert Join(pieces, sep) == [s[0]] + rest[0] + [sep] + Join(rest[1..], sep);
        assert Join(rest, sep) == rest[0] + [sep] + Join(rest[1..], sep);
        assert s == [s[0]] + s[1..];
      }
    }
  }

  /** Text without the separator followed by more text splits with that text glued to the first piece. */
  lemma {:induction false} SplitGluesPrefix(p: string, rest: string, sep: char)
    requires sep !in p
    ensures Split(p + rest, sep) == [p + Split(rest, sep)[0]] + Split(rest, sep)[1..]
  {
    if |p| > 0 {
      SplitGluesPrefix(p[1..], rest, sep);
      assert (p + rest)[1..] == p[1..] + rest;
      assert (p + rest)[0] == p[0];
      var tail := Split(p[1..] + rest, sep);
      assert tail[0] == p[1..] + Split(rest, sep)[0];
      assert [p[0]] + tail[0] == p + Split(rest, sep)[0];
      assert tail[1..] == Split(rest, sep)[1..];
      assert Split(p + rest, sep) == [[p[0]] + tail[0]] + tail[1..];
    } else {
      assert p + rest == rest;
      var r := Split(rest, sep);
      assert p + r[0] == r[0];
      assert r == [r[0]] + r[1..];
    }
  }

  /** Pieces free of the separator come back unchanged after joining and splitting. */
  lemma {:induction false} SplitJoin(pieces: seq<string>, sep: char)
    requires |pieces| >= 1
    requires forall i | 0 <= i < |pieces| :: sep !in pieces[i]
    ensures Split(Join(pieces, sep), sep) == pieces
  {
    if |pieces| == 1 {
      SplitGluesPrefix(pieces[0], "", sep);
      assert pieces[0] + "" == pieces[0];
    } else {
      var tail := Join(pieces[1..], sep);
      SplitJoin(pieces[1..], sep);
      assert Split([sep] + tail, sep) == [""] + pieces[1..];
      assert pieces[0] + [sep] + tail == pieces[0] + ([sep] + tail);
      SplitGluesPrefix(pieces[0], [sep] + tail, sep);
      assert pieces[0] + "" == pieces[0];
      assert ([""] + pieces[1..])[1..] == pieces[1..];
    }
  }
}
