/** Finding the neutral statements the user changed: among the settings from
    the neutral index on, a neutral statement whose column has two or more
    codes counts as changed when its ranges are not the initial single-code
    ranges (lowest code into 1, second lowest into 2).  The settings
    themselves are only read. */
module FilterNeutral {
  import opened Common
  import opened ODicts
  import opened RecodeValues

  /** `xs[n:]` with Python's rules: a negative start counts from the end,
      and a start past either end is clamped. */
  function SliceFrom(xs: seq<string>, n: int): (r: seq<string>)
    ensures n >= 0 ==> r == xs[if n <= |xs| then n else |xs|..]
    ensures n < 0 ==> r == xs[if -n <= |xs| then |xs| + n else 0..]
  {
    if n >= 0 then (if n <= |xs| then xs[n..] else [])
    else if -n <= |xs| then xs[|xs| + n..] else xs
  }

  /** `if column:` on `settings.get('matched_column')`: a non-empty string.
      Any other truthy value is not a key of the value labels, so it leads
      to no codes either way. */
  function ColumnOf(c: Config): Option<string>
  {
    if MatchedColumn in c && c[MatchedColumn].VStr? && c[MatchedColumn].s != "" then Some(c[MatchedColumn].s) else None
  }

  /** The comparisons of `is_unchanged`, in order. */
  function InitialRanges(low: int, second: int): seq<(Field, Val)>
  {
    [(Range1Start, VInt(low)), (Range1End, VInt(low)), (Range1Becomes, VInt(1)),
     (Range2Start, VInt(second)), (Range2End, VInt(second)), (Range2Becomes, VInt(2))]
  }

  /** A chain of `settings[key] == value` joined by `and`: `None` when a
      key that is reached is missing (a `KeyError`), otherwise whether every
      comparison holds. */
  function AllEqual(c: Config, checks: seq<(Field, Val)>): (r: Option<bool>)
    ensures (forall j :: 0 <= j < |checks| ==> checks[j].0 in c) ==>
              r == Some(forall j :: 0 <= j < |checks| ==> c[checks[j].0] == checks[j].1)
  {
    if checks == [] then Some(true)
    else if checks[0].0 !in c then None
    else if c[checks[0].0] != checks[0].1 then Some(false)
    else
      var r := AllEqual(c, checks[1..]);
      assert forall j :: 1 <= j < |checks| ==> checks[j] == checks[1..][j - 1];
      r
  }

  /** The verdict on one statement's settings: `Some(true)` when it counts
      as changed, `Some(false)` when it is skipped, `None` when the
      comparison raises a `KeyError`. */
  function Verdict(c: Config, meta: ValueLabels): Option<bool>
  {
    if Get(c, Party) != VStr("neutral") then Some(false)
    else
      var column := ColumnOf(c);
      if column.None? then Some(false)
      else
        var values := GetValueRange(meta, column.value);
        if !AtLeast(values, 2) then Some(false)
        else
          match AllEqual(c, InitialRanges(values.value[0], values.value[1]))
          case None => None
          case Some(same) => Some(!same)
  }

  /** No examined statement raises a `KeyError`. */
  predicate Examinable(settings: Settings, meta: ValueLabels, neutralIndex: int)
  {
    forall k :: k in SliceFrom(settings.keys, neutralIndex) ==> k in settings.vals && Verdict(settings.vals[k], meta).Some?
  }

  /** The examined statements that count as changed, in key order. */
  function ChangedNeutral(settings: Settings, meta: ValueLabels, neutralIndex: int): seq<string>
  {
    FilterMap(SliceFrom(settings.keys, neutralIndex),
              k => k in settings.vals && Verdict(settings.vals[k], meta) == Some(true), k => k)
  }

  /** `filter_unchanged_neutral_statements`: `changed_neutral` starts empty
      and collects, in order, the examined statements that count as changed. */
  method FilterUnchangedNeutralStatements(settings: Settings, meta: ValueLabels, neutralIndex: int)
    returns (changedNeutral: seq<string>)
    requires settings.Valid() && Examinable(settings, meta, neutralIndex)
    ensures changedNeutral == ChangedNeutral(settings, meta, neutralIndex)
  {
    changedNeutral := [];
    var neutralStatements := SliceFrom(settings.keys, neutralIndex);
    ghost var keep := (k: string) => k in settings.vals && Verdict(settings.vals[k], meta) == Some(true);
    for i := 0 to |neutralStatements|
      invariant changedNeutral == FilterMap(neutralStatements[..i], keep, k => k)
    {
      FilterMapSnoc(neutralStatements, i, keep, k => k);
      var statement := neutralStatements[i];
      assert statement in neutralStatements;
      var changed := CheckStatement(settings.vals[statement], meta);
      if changed {
        changedNeutral := changedNeutral + [statement];
      }
    }
    assert neutralStatements[..|neutralStatements|] == neutralStatements;
  }

  /** The body of the loop for one statement's settings: skip it unless it
      is neutral with a column of two or more codes, then compare its ranges
      with the initial ones. */
  method CheckStatement(s: Config, meta: ValueLabels) returns (changed: bool)
    requires Verdict(s, meta).Some?
    ensures changed <==> Verdict(s, meta) == Some(true)
  {
    changed := false;
    if Get(s, Party) != VStr("neutral") {
      return;
    }
    var column := ColumnOf(s);
    if column.Some? {
      var originalValues := GetValueRange(meta, column.value);
      if originalValues.Some? && |originalValues.value| >= 2 {
        var isUnchanged := AllEqual(s, InitialRanges(originalValues.value[0], originalValues.value[1]));
        changed := !isUnchanged.value;
      }
    }
  }

  /** The settings of a neutral statement whose column is a non-empty string
      with two or more codes, and whose ranges are not the initial ones. */
  predicate IsChanged(c: Config, meta: ValueLabels)
  {
    && Get(c, Party) == VStr("neutral")
    && ColumnOf(c).Some?
    && AtLeast(GetValueRange(meta, ColumnOf(c).value), 2)
    && var v := GetValueRange(meta, ColumnOf(c).value).value;
       !(&& Get(c, Range1Start) == VInt(v[0]) && Get(c, Range1End) == VInt(v[0]) && Get(c, Range1Becomes) == VInt(1)
         && Get(c, Range2Start) == VInt(v[1]) && Get(c, Range2End) == VInt(v[1]) && Get(c, Range2Becomes) == VInt(2))
  }

  /** A statement is reported exactly when it is examined and its settings
      count as changed. */
  lemma ChangedExactly(settings: Settings, meta: ValueLabels, neutralIndex: int, k: string)
    requires settings.Valid() && Examinable(settings, meta, neutralIndex)
    ensures k in ChangedNeutral(settings, meta, neutralIndex) <==>
              k in SliceFrom(settings.keys, neutralIndex) && IsChanged(settings.vals[k], meta)
  {
    var keys := SliceFrom(settings.keys, neutralIndex);
    var keep := (x: string) => x in settings.vals && Verdict(settings.vals[x], meta) == Some(true);
    FilterMapMembers(keys, keep, x => x, k);
    if k in keys {
      VerdictChanged(settings.vals[k], meta);
    }
  }

  /** When no key is missing, the verdict is "changed" exactly for changed
      settings. */
  lemma VerdictChanged(c: Config, meta: ValueLabels)
    requires Verdict(c, meta).Some?
    ensures Verdict(c, meta) == Some(true) <==> IsChanged(c, meta)
  {
    if Get(c, Party) == VStr("neutral") && ColumnOf(c).Some? && AtLeast(GetValueRange(meta, ColumnOf(c).value), 2) {
      var v := GetValueRange(meta, ColumnOf(c).value).value;
      var checks := InitialRanges(v[0], v[1]);
      AllEqualPresent(c, checks);
      assert checks[0] == (Range1Start, VInt(v[0])) && checks[1] == (Range1End, VInt(v[0]));
      assert checks[2] == (Range1Becomes, VInt(1)) && checks[3] == (Range2Start, VInt(v[1]));
      assert checks[4] == (Range2End, VInt(v[1])) && checks[5] == (Range2Becomes, VInt(2));
    }
  }

  /** A chain that reaches a verdict holds exactly when every key is there
      with its value. */
  lemma {:induction false} AllEqualPresent(c: Config, checks: seq<(Field, Val)>)
    requires AllEqual(c, checks).Some?
    ensures AllEqual(c, checks) == Some(true) <==>
              forall j :: 0 <= j < |checks| ==> checks[j].0 in c && c[checks[j].0] == checks[j].1
  {
    if checks != [] && checks[0].0 in c && c[checks[0].0] == checks[0].1 {
      AllEqualPresent(c, checks[1..]);
      assert forall j :: 1 <= j < |checks| ==> checks[j] == checks[1..][j - 1];
    }
  }

  lemma SliceFromDistinct(xs: seq<string>, n: int)
    requires forall a, b :: 0 <= a < b < |xs| ==> xs[a] != xs[b]
    ensures var r := SliceFrom(xs, n);
            forall a, b :: 0 <= a < b < |r| ==> r[a] != r[b]
  {
    var m := if n >= 0 then (if n <= |xs| then n else |xs|) else (if -n <= |xs| then |xs| + n else 0);
    var r := SliceFrom(xs, n);
    assert r == xs[m..];
    forall a, b | 0 <= a < b < |r| ensures r[a] != r[b] {
      assert r[a] == xs[m + a] && r[b] == xs[m + b];
    }
  }

  /** The result follows key order and names each statement once. */
  lemma ChangedInOrder(settings: Settings, meta: ValueLabels, neutralIndex: int)
    requires settings.Valid()
    ensures var keys := SliceFrom(settings.keys, neutralIndex);
            var out := ChangedNeutral(settings, meta, neutralIndex);
            var pos := Positions(keys, k => k in settings.vals && Verdict(settings.vals[k], meta) == Some(true));
            && |out| == |pos|
            && (forall j :: 0 <= j < |out| ==> out[j] == keys[pos[j]])
            && (forall a, b :: 0 <= a < b < |out| ==> out[a] != out[b])
  {
    var keys := SliceFrom(settings.keys, neutralIndex);
    var keep := (x: string) => x in settings.vals && Verdict(settings.vals[x], meta) == Some(true);
    FilterMapPositions(keys, keep, x => x);
    SliceFromDistinct(settings.keys, neutralIndex);
    FilterMapDistinct(keys, keep, x => x);
  }

  /** A neutral question with its two lowest codes as the single-code
      ranges does not count as changed. */
  lemma InitialRangesUnchanged(c: Config, meta: ValueLabels, column: string, v: seq<int>)
    requires column != "" && GetValueRange(meta, column) == Some(v) && |v| >= 2
    requires c == map[Party := VStr("neutral"), MatchedColumn := VStr(column),
                      Range1Start := VInt(v[0]), Range1End := VInt(v[0]), Range1Becomes := VInt(1),
                      Range2Start := VInt(v[1]), Range2End := VInt(v[1]), Range2Becomes := VInt(2)]
    ensures Verdict(c, meta) == Some(false)
  {
    var checks := InitialRanges(v[0], v[1]);
    assert ColumnOf(c) == Some(column);
    assert forall j :: 0 <= j < |checks| ==> checks[j].0 in c && c[checks[j].0] == checks[j].1;
    assert AllEqual(c, checks) == Some(true);
  }

  /** Changing one `becomes` of such a question makes it count as changed. */
  lemma ChangedBecomesCounts(c: Config, meta: ValueLabels, column: string, v: seq<int>)
    requires column != "" && GetValueRange(meta, column) == Some(v) && |v| >= 2
    requires c == map[Party := VStr("neutral"), MatchedColumn := VStr(column),
                      Range1Start := VInt(v[0]), Range1End := VInt(v[0]), Range1Becomes := VInt(2),
                      Range2Start := VInt(v[1]), Range2End := VInt(v[1]), Range2Becomes := VInt(2)]
    ensures Verdict(c, meta) == Some(true)
  {
    VerdictChanged(c, meta);
  }
}
