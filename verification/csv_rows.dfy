/** What the two airport loaders share: reading a numeric field of a split line,
    and the shape of their loops, "for each line, push the record the row rule
    produces, if any". */
module CsvRows {
  import opened Wrappers

  /** A stand-in for JavaScript's `parseFloat`: `None` is NaN, `Some(x)` a
      number. The model never fixes it; every statement holds for all of them. */
  type NumberParser = string -> Option<real>

  /** `parseFloat(fields[k])`. Indexing past the end of a JavaScript array gives
      `undefined`, and `parseFloat(undefined)` is NaN. */
  function FieldNumber(parse: NumberParser, fields: seq<string>, k: nat): Option<real>
  {
    if k < |fields| then parse(fields[k]) else None
  }

  /** The records a row rule produces, one per line it accepts, in line order:
      what the loaders' `for` loops leave in `airports`. */
  function Scan<T>(rule: string -> Option<T>, lines: seq<string>): (kept: seq<T>)
    ensures |kept| <= |lines|
  {
    if |lines| == 0 then []
    else
      var earlier := Scan(rule, lines[..|lines| - 1]);
      match rule(lines[|lines| - 1])
      case Some(record) => earlier + [record]
      case None => earlier
  }

  /** The indices of the lines the rule accepts, in increasing order. */
  function KeptIndices<T>(rule: string -> Option<T>, lines: seq<string>): (ix: seq<nat>)
    ensures forall k :: 0 <= k < |ix| ==> ix[k] < |lines|
  {
    if |lines| == 0 then []
    else
      var earlier := KeptIndices(rule, lines[..|lines| - 1]);
      if rule(lines[|lines| - 1]).Some? then earlier + [|lines| - 1] else earlier
  }

  /** Scanning is compositional: the records of `a + b` are those of `a`
      followed by those of `b`. */
  lemma {:induction false} ScanAppend<T>(rule: string -> Option<T>, a: seq<string>, b: seq<string>)
    ensures Scan(rule, a + b) == Scan(rule, a) + Scan(rule, b)
    decreases |b|
  {
    if |b| == 0 {
      assert a + b == a;
    } else {
      var b' := b[..|b| - 1];
      ScanAppend(rule, a, b');
      assert (a + b)[..|a + b| - 1] == a + b';
      assert (a + b)[|a + b| - 1] == b[|b| - 1];
    }
  }

  /** The full characterisation of a scan: record `k` comes from line
      `KeptIndices[k]`, the indices strictly increase (records keep line order),
      and a line contributes exactly when the rule accepts it. */
  lemma {:induction false} ScanSelects<T>(rule: string -> Option<T>, lines: seq<string>)
    ensures |KeptIndices(rule, lines)| == |Scan(rule, lines)|
    ensures forall k :: 0 <= k < |Scan(rule, lines)| ==>
      rule(lines[KeptIndices(rule, lines)[k]]) == Some(Scan(rule, lines)[k])
    ensures forall k, m :: 0 <= k < m < |KeptIndices(rule, lines)| ==>
      KeptIndices(rule, lines)[k] < KeptIndices(rule, lines)[m]
    ensures forall i :: 0 <= i < |lines| ==> (rule(lines[i]).Some? <==> i in KeptIndices(rule, lines))
  {
    KeptIndicesSource(rule, lines);
    KeptIndicesIncrease(rule, lines);
    KeptIndicesComplete(rule, lines);
  }

  /** The last line's contribution to a scan and to its indices. */
  lemma ScanLast<T>(rule: string -> Option<T>, lines: seq<string>)
    requires |lines| > 0
    ensures var n := |lines| - 1;
      match rule(lines[n])
      case Some(record) =>
        Scan(rule, lines) == Scan(rule, lines[..n]) + [record] &&
        KeptIndices(rule, lines) == KeptIndices(rule, lines[..n]) + [n]
      case None =>
        Scan(rule, lines) == Scan(rule, lines[..n]) &&
        KeptIndices(rule, lines) == KeptIndices(rule, lines[..n])
  {
  }

  lemma {:induction false} KeptIndicesSource<T>(rule: string -> Option<T>, lines: seq<string>)
    ensures |KeptIndices(rule, lines)| == |Scan(rule, lines)|
    ensures forall k :: 0 <= k < |Scan(rule, lines)| ==>
      rule(lines[KeptIndices(rule, lines)[k]]) == Some(Scan(rule, lines)[k])
    decreases |lines|
  {
    if |lines| > 0 {
      var n := |lines| - 1;
      var init := lines[..n];
      KeptIndicesSource(rule, init);
      ScanLast(rule, lines);
      forall k | 0 <= k < |Scan(rule, lines)|
        ensures rule(lines[KeptIndices(rule, lines)[k]]) == Some(Scan(rule, lines)[k])
      {
        if k < |Scan(rule, init)| {
          assert KeptIndices(rule, lines)[k] == KeptIndices(rule, init)[k];
          assert Scan(rule, lines)[k] == Scan(rule, init)[k];
          assert lines[KeptIndices(rule, init)[k]] == init[KeptIndices(rule, init)[k]];
        }
      }
    }
  }

  lemma {:induction false} KeptIndicesIncrease<T>(rule: string -> Option<T>, lines: seq<string>)
    ensures forall k, m :: 0 <= k < m < |KeptIndices(rule, lines)| ==>
      KeptIndices(rule, lines)[k] < KeptIndices(rule, lines)[m]
    decreases |lines|
  {
    if |lines| > 0 {
      KeptIndicesIncrease(rule, lines[..|lines| - 1]);
      ScanLast(rule, lines);
    }
  }

  lemma {:induction false} KeptIndicesComplete<T>(rule: string -> Option<T>, lines: seq<string>)
    ensures forall i :: 0 <= i < |lines| ==> (rule(lines[i]).Some? <==> i in KeptIndices(rule, lines))
    decreases |lines|
  {
    if |lines| > 0 {
      var n := |lines| - 1;
      var init := lines[..n];
      KeptIndicesComplete(rule, init);
      ScanLast(rule, lines);
      forall i | 0 <= i < n ensures lines[i] == init[i] { }
    }
  }

  /** Extending a window of lines by one line appends that line's record, if any. */
  lemma ScanExtend<T>(rule: string -> Option<T>, lines: seq<string>, lo: nat, i: nat)
    requires lo <= i < |lines|
    ensures Scan(rule, lines[lo..i + 1]) ==
      Scan(rule, lines[lo..i]) + (if rule(lines[i]).Some? then [rule(lines[i]).value] else [])
  {
    assert lines[lo..i + 1][..i - lo] == lines[lo..i];
    assert lines[lo..i + 1][i - lo] == lines[i];
  }

  /** A record is produced iff some line's rule result is that record. */
  lemma {:induction false} ScanMembers<T>(rule: string -> Option<T>, lines: seq<string>, record: T)
    ensures record in Scan(rule, lines) <==>
      exists i :: 0 <= i < |lines| && rule(lines[i]) == Some(record)
    decreases |lines|
  {
    if |lines| > 0 {
      var init := lines[..|lines| - 1];
      ScanMembers(rule, init, record);
      if record in Scan(rule, lines) && record !in Scan(rule, init) {
        assert rule(lines[|lines| - 1]) == Some(record);
      }
      if exists i :: 0 <= i < |lines| && rule(lines[i]) == Some(record) {
        var i :| 0 <= i < |lines| && rule(lines[i]) == Some(record);
        if i < |init| {
          assert init[i] == lines[i];
        }
      }
    }
  }
}
