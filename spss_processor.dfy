/** `SPSSProcessor` and `SPSSMatchProcessor`: an object built from the
    (column, label) pairs of a SAV file and two party names, which matches
    question texts against the labels and records every question in one of
    two tracking lists. */
module SpssProcessor {
  import opened Common
  import opened ODicts
  import opened LabelMatch

  /** A (category, question) pair of the tracking lists. */
  type Tagged = (string, string)

  /** `SPSSResult`. */
  datatype SpssResult = SpssResult(matched: seq<Tagged>, unmatched: seq<Tagged>)

  /** `if column:` — a column counts only when it is present and non-empty. */
  predicate Truthy(c: Option<string>)
  {
    c.Some? && c.value != ""
  }

  /** The column `_find_column` reports for each question. */
  function Columns(d: ODict<string>, qs: seq<string>): (cols: seq<Option<string>>)
    requires d.Valid()
    ensures |cols| == |qs|
  {
    if qs == [] then [] else Columns(d, qs[..|qs| - 1]) + [FindColumn(d, qs[|qs| - 1])]
  }

  /** The i-th entry is the column found for the i-th question. */
  lemma {:induction false} ColumnsAt(d: ODict<string>, qs: seq<string>, i: nat)
    requires d.Valid() && i < |qs|
    ensures Columns(d, qs)[i] == FindColumn(d, qs[i])
  {
    if i < |qs| - 1 {
      ColumnsAt(d, qs[..|qs| - 1], i);
    }
  }

  /** Extending the questions by one extends the columns by that question's column. */
  lemma ColumnsSnoc(d: ODict<string>, qs: seq<string>, i: nat, c: Option<string>)
    requires d.Valid() && i < |qs| && c == FindColumn(d, qs[i])
    ensures Columns(d, qs[..i + 1]) == Columns(d, qs[..i]) + [c]
  {
    assert qs[..i + 1][..i] == qs[..i];
  }

  /** The columns of a prefix of the questions are a prefix of the columns. */
  lemma {:induction false} ColumnsPrefix(d: ODict<string>, qs: seq<string>, i: nat)
    requires d.Valid() && i <= |qs|
    ensures Columns(d, qs[..i]) == Columns(d, qs)[..i]
  {
    if i < |qs| {
      var n := |qs| - 1;
      var c := Columns(d, qs[..n]);
      assert Columns(d, qs) == c + [FindColumn(d, qs[n])];
      assert (c + [FindColumn(d, qs[n])])[..i] == c[..i];
      assert qs[..n][..i] == qs[..i];
      ColumnsPrefix(d, qs[..n], i);
    } else {
      assert qs[..i] == qs;
    }
  }

  /** The tracking lists `find_all_matches` builds for one list of
      questions, all tagged `cat`, given the column found for each. */
  function Partition(cat: string, qs: seq<string>, cols: seq<Option<string>>): SpssResult
    requires |cols| == |qs|
  {
    if qs == [] then SpssResult([], [])
    else
      var n := |qs| - 1;
      var r := Partition(cat, qs[..n], cols[..n]);
      if Truthy(cols[n]) then SpssResult(r.matched + [(cat, qs[n])], r.unmatched)
      else SpssResult(r.matched, r.unmatched + [(cat, qs[n])])
  }

  /** The questions, in input order, whose column is (or is not) truthy. */
  function Kept(qs: seq<string>, cols: seq<Option<string>>, found: bool): (r: seq<string>)
    requires |cols| == |qs|
    ensures |r| <= |qs|
  {
    if qs == [] then []
    else
      var n := |qs| - 1;
      var p := Kept(qs[..n], cols[..n], found);
      if Truthy(cols[n]) == found then p + [qs[n]] else p
  }

  /** Every question lands in exactly one list: together the lists are
      exactly as long as the input. */
  lemma {:induction false} PartitionCounts(cat: string, qs: seq<string>, cols: seq<Option<string>>)
    requires |cols| == |qs|
    ensures |Partition(cat, qs, cols).matched| + |Partition(cat, qs, cols).unmatched| == |qs|
  {
    if qs != [] {
      PartitionCounts(cat, qs[..|qs| - 1], cols[..|qs| - 1]);
    }
  }

  /** `t` is the pair of question i, tagged `cat`, whose column is (or is not) truthy. */
  ghost predicate TaggedFrom(cat: string, qs: seq<string>, cols: seq<Option<string>>, t: Tagged, found: bool)
    requires |cols| == |qs|
  {
    t.0 == cat && exists i :: 0 <= i < |qs| && qs[i] == t.1 && Truthy(cols[i]) == found
  }

  /** Nothing else lands in the lists: each matched entry is a question of
      the input, tagged `cat`, whose column is truthy, and each unmatched
      entry one whose column is not. */
  lemma {:induction false} PartitionFrom(cat: string, qs: seq<string>, cols: seq<Option<string>>)
    requires |cols| == |qs|
    ensures forall t :: t in Partition(cat, qs, cols).matched ==> TaggedFrom(cat, qs, cols, t, true)
    ensures forall t :: t in Partition(cat, qs, cols).unmatched ==> TaggedFrom(cat, qs, cols, t, false)
  {
    if qs != [] {
      var n := |qs| - 1;
      var p, pc := qs[..n], cols[..n];
      PartitionFrom(cat, p, pc);
      var r0 := Partition(cat, p, pc);
      forall t, found | TaggedFrom(cat, p, pc, t, found)
        ensures TaggedFrom(cat, qs, cols, t, found)
      {
        var i :| 0 <= i < |p| && p[i] == t.1 && Truthy(pc[i]) == found;
        assert qs[i] == t.1 && cols[i] == pc[i];
      }
      assert TaggedFrom(cat, qs, cols, (cat, qs[n]), Truthy(cols[n]));
    }
  }

  /** Every question is in the list its column selects. */
  lemma {:induction false} PartitionCovers(cat: string, qs: seq<string>, cols: seq<Option<string>>)
    requires |cols| == |qs|
    ensures forall i :: 0 <= i < |qs| && Truthy(cols[i]) ==> (cat, qs[i]) in Partition(cat, qs, cols).matched
    ensures forall i :: 0 <= i < |qs| && !Truthy(cols[i]) ==> (cat, qs[i]) in Partition(cat, qs, cols).unmatched
  {
    if qs != [] {
      var n := |qs| - 1;
      PartitionCovers(cat, qs[..n], cols[..n]);
      forall i | 0 <= i < n ensures qs[i] == qs[..n][i] && cols[i] == cols[..n][i] { }
    }
  }

  /** Within each list the questions keep their input order: the matched
      list is the truthy-column questions in order, the unmatched list the rest. */
  lemma {:induction false} PartitionOrder(cat: string, qs: seq<string>, cols: seq<Option<string>>)
    requires |cols| == |qs|
    ensures var r := Partition(cat, qs, cols);
            && |r.matched| == |Kept(qs, cols, true)| && |r.unmatched| == |Kept(qs, cols, false)|
            && (forall i :: 0 <= i < |r.matched| ==> r.matched[i] == (cat, Kept(qs, cols, true)[i]))
            && (forall i :: 0 <= i < |r.unmatched| ==> r.unmatched[i] == (cat, Kept(qs, cols, false)[i]))
  {
    if qs != [] {
      var n := |qs| - 1;
      PartitionOrder(cat, qs[..n], cols[..n]);
    }
  }

  /** Two lists that have grown from `m0` and `u0` by the partition of these questions. */
  ghost predicate Tracked(cat: string, qs: seq<string>, cols: seq<Option<string>>,
                          m0: seq<Tagged>, u0: seq<Tagged>, m: seq<Tagged>, u: seq<Tagged>)
    requires |cols| == |qs|
  {
    var p := Partition(cat, qs, cols);
    m == m0 + p.matched && u == u0 + p.unmatched
  }

  /** One step of a loop of `find_all_matches`. */
  lemma TrackStep(cat: string, qs: seq<string>, cols: seq<Option<string>>, i: nat, c: Option<string>,
                  m0: seq<Tagged>, u0: seq<Tagged>, m: seq<Tagged>, u: seq<Tagged>)
    requires i < |qs| && |cols| == i
    requires Tracked(cat, qs[..i], cols, m0, u0, m, u)
    ensures Truthy(c) ==> Tracked(cat, qs[..i + 1], cols + [c], m0, u0, m + [(cat, qs[i])], u)
    ensures !Truthy(c) ==> Tracked(cat, qs[..i + 1], cols + [c], m0, u0, m, u + [(cat, qs[i])])
  {
    var p := Partition(cat, qs[..i], cols);
    assert qs[..i + 1][..i] == qs[..i];
    assert (cols + [c])[..i] == cols;
    if Truthy(c) {
      AppendAssoc(m0, p.matched, [(cat, qs[i])]);
    } else {
      AppendAssoc(u0, p.unmatched, [(cat, qs[i])]);
    }
  }

  class MatchProcessor {
    const savLabels: seq<(string, string)>
    const name1: string
    const name2: string
    const labelToColumn: ODict<string>
    var matched: seq<Tagged>
    var unmatched: seq<Tagged>

    /** The label table is the one built from the SAV labels. */
    ghost predicate Valid()
    {
      labelToColumn == BuildMapping(savLabels)
    }

    /** `SPSSProcessor.__init__`. */
    constructor (savLabels: seq<(string, string)>, name1: string, name2: string)
      ensures Valid()
      ensures this.savLabels == savLabels && this.name1 == name1 && this.name2 == name2
      ensures matched == [] && unmatched == []
    {
      this.savLabels := savLabels;
      this.name1 := name1;
      this.name2 := name2;
      var m := BuildLabelMapping(savLabels);
      this.labelToColumn := m;
      this.matched := [];
      this.unmatched := [];
    }

    /** `reset_tracking`: both lists emptied; the labels and names are constants. */
    method ResetTracking()
      modifies this
      ensures matched == [] && unmatched == []
    {
      matched := [];
      unmatched := [];
    }

    /** `get_matched_questions`: a copy of the matched list.  Sequences are
        values, so changing the copy cannot change the object. */
    method GetMatchedQuestions() returns (r: seq<Tagged>)
      ensures r == matched
    {
      r := matched;
    }

    /** `get_unmatched_questions`. */
    method GetUnmatchedQuestions() returns (r: seq<Tagged>)
      ensures r == unmatched
    {
      r := unmatched;
    }

    /** `get_result`. */
    method GetResult() returns (r: SpssResult)
      ensures r.matched == matched && r.unmatched == unmatched
    {
      r := SpssResult(matched, unmatched);
    }

    /** `_find_column`. */
    method FindColumn(q: string) returns (r: Option<string>)
      requires Valid()
      ensures r == LabelMatch.FindColumn(labelToColumn, q)
    {
      r := LookupColumn(labelToColumn, q);
    }

    /** One of the two loops of `find_all_matches`: the questions of one
        party are appended to the lists, tagged `cat`. */
    method Track(qs: seq<string>, cat: string)
      requires Valid()
      modifies this
      ensures var p := Partition(cat, qs, Columns(labelToColumn, qs));
              matched == old(matched) + p.matched && unmatched == old(unmatched) + p.unmatched
    {
      ghost var cols: seq<Option<string>> := [];
      for i := 0 to |qs|
        invariant cols == Columns(labelToColumn, qs[..i])
        invariant Tracked(cat, qs[..i], cols, old(matched), old(unmatched), matched, unmatched)
      {
        var column := FindColumn(qs[i]);
        ColumnsSnoc(labelToColumn, qs, i, column);
        TrackStep(cat, qs, cols, i, column, old(matched), old(unmatched), matched, unmatched);
        if column.Some? && column.value != "" {
          matched := matched + [(cat, qs[i])];
        } else {
          unmatched := unmatched + [(cat, qs[i])];
        }
        cols := cols + [column];
      }
      assert qs[..|qs|] == qs;
    }

    /** `find_all_matches`: tracking is reset, then the first party's
        questions and then the second party's are partitioned. */
    method FindAllMatches(qs1: seq<string>, qs2: seq<string>) returns (r: SpssResult)
      requires Valid()
      modifies this
      ensures var p1 := Partition(name1, qs1, Columns(labelToColumn, qs1));
              var p2 := Partition(name2, qs2, Columns(labelToColumn, qs2));
              && matched == p1.matched + p2.matched
              && unmatched == p1.unmatched + p2.unmatched
      ensures r == SpssResult(matched, unmatched)
    {
      ResetTracking();
      Track(qs1, name1);
      ghost var p1 := Partition(name1, qs1, Columns(labelToColumn, qs1));
      assert matched == p1.matched && unmatched == p1.unmatched;
      Track(qs2, name2);
      r := GetResult();
    }
  }
}
