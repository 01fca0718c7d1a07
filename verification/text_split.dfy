/** JavaScript's `String.prototype.split` with a one-character separator, as the
    airport loaders use it (`'\n'` for lines, `','` for fields), and its inverse
    `Array.prototype.join`. */
module TextSplit {

  /** Number of occurrences of `sep` in `s`. */
  function Occurrences(s: string, sep: char): nat
  {
    if |s| == 0 then 0
    else (if s[0] == sep then 1 else 0) + Occurrences(s[1..], sep)
  }

  /** `s.split(sep)`: the maximal separator-free pieces, left to right. As in
      JavaScript, the empty string splits into one empty piece, and a separator
      at either end yields an empty piece there. */
  function Split(s: string, sep: char): (pieces: seq<string>)
    ensures |pieces| == Occurrences(s, sep) + 1
    ensures forall k :: 0 <= k < |pieces| ==> sep !in pieces[k]
    decreases |s|
  {
    if |s| == 0 then [""]
    else
      var rest := Split(s[1..], sep);
      if s[0] == sep then [""] + rest
      else [[s[0]] + rest[0]] + rest[1..]
  }

  /** `pieces.join(sep)`. */
  function Join(pieces: seq<string>, sep: char): string
  {
    if |pieces| == 0 then ""
    else if |pieces| == 1 then pieces[0]
    else pieces[0] + [sep] + Join(pieces[1..], sep)
  }

  /** Joining the pieces back with the separator restores the text exactly. */
  lemma {:induction false} SplitThenJoin(s: string, sep: char)
    ensures Join(Split(s, sep), sep) == s
    decreases |s|
  {
    if |s| > 0 {
      var rest := Split(s[1..], sep);
      SplitThenJoin(s[1..], sep);
      if s[0] == sep {
        assert Split(s, sep) == [""] + rest;
        assert s == [s[0]] + s[1..];
      } else {
        var pieces := Split(s, sep);
        assert pieces == [[s[0]] + rest[0]] + rest[1..];
        if |rest| == 1 {
          assert Join(rest, sep) == rest[0];
        } else {
          assert Join(rest, sep) == rest[0] + [sep] + Join(rest[1..], sep);
          assert pieces[1..] == rest[1..];
        }
        assert s == [s[0]] + s[1..];
      }
    }
  }

  /** Splitting a separator-free prefix `p` followed by `t` glues `p` onto the
      first piece of `t`. */
  lemma {:induction false} SplitAfterPlainPrefix(p: string, t: string, sep: char)
    requires sep !in p
    ensures Split(p + t, sep) == [p + Split(t, sep)[0]] + Split(t, sep)[1..]
    decreases |p|
  {
    if |p| > 0 {
      SplitAfterPlainPrefix(p[1..], t, sep);
      assert (p + t)[1..] == p[1..] + t;
      assert (p + t)[0] == p[0];
      assert [p[0]] + (p[1..] + Split(t, sep)[0]) == p + Split(t, sep)[0];
    } else {
      var r := Split(t, sep);
      assert p + t == t && p + r[0] == r[0];
      assert r == [r[0]] + r[1..];
    }
  }

  /** Splitting separator-free pieces joined by the separator gives the pieces
      back: `Split` is the inverse of `Join` on its own range. */
  lemma {:induction false} JoinThenSplit(pieces: seq<string>, sep: char)
    requires |pieces| >= 1
    requires forall k :: 0 <= k < |pieces| ==> sep !in pieces[k]
    ensures Split(Join(pieces, sep), sep) == pieces
    decreases |pieces|
  {
    var p := pieces[0];
    if |pieces| == 1 {
      SplitAfterPlainPrefix(p, "", sep);
      assert p + "" == p;
      assert Split("", sep) == [""];
    } else {
      var t := [sep] + Join(pieces[1..], sep);
      JoinThenSplit(pieces[1..], sep);
      assert Join(pieces, sep) == p + t;
      SplitAfterPlainPrefix(p, t, sep);
      assert t[1..] == Join(pieces[1..], sep);
      assert Split(t, sep) == [""] + pieces[1..];
      assert p + "" == p;
    }
  }
}
