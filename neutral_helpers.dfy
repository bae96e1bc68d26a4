/** Bringing the neutral questions the user selected into `recode_settings`,
    so that the syntax generator sees them, and the two read-only views of
    the selection. */
module NeutralHelpers {
  import opened Common
  import opened ODicts
  import opened RecodeValues
  import NeutralRecode

  /** `data.get('original_values', [])`, as a list of codes. */
  function OriginalCodes(data: Config): seq<int>
  {
    if OriginalValues in data && data[OriginalValues].VInts? then data[OriginalValues].xs else []
  }

  /** `data.get('binary_map', {}).get(code, default)`. */
  function BinaryBecomes(data: Config, code: int, default: int): Val
  {
    if BinaryMap in data && data[BinaryMap].VIntMap? && code in data[BinaryMap].m
    then VInt(data[BinaryMap].m[code]) else VInt(default)
  }

  /** The settings of one selected question: party `neutral`, its column and
      its type (categorical by default), then the fields of its type with
      their defaults. */
  function Prepared(data: Config): (c: Config)
    ensures Party in c && c[Party] == VStr("neutral")
    ensures MatchedColumn in c && c[MatchedColumn] == Get(data, Column)
    ensures VariableType in c && c[VariableType] == GetOr(data, VariableType, VStr("categorical"))
  {
    var base := map[Party := VStr("neutral"), MatchedColumn := Get(data, Column),
                    VariableType := GetOr(data, VariableType, VStr("categorical"))];
    if Get(data, VariableType) == VStr("continuous") then
      base[Range1Operator := GetOr(data, Range1Operator, VStr("<="))]
          [Range1Value := GetOr(data, Range1Value, VInt(50))]
          [Range1Becomes := GetOr(data, Range1Becomes, VInt(1))]
          [Range2Operator := GetOr(data, Range2Operator, VStr(">"))]
          [Range2Value := GetOr(data, Range2Value, VInt(50))]
          [Range2Becomes := GetOr(data, Range2Becomes, VInt(2))]
    else if Get(data, VariableType) == VStr("binary") then
      var codes := OriginalCodes(data);
      if |codes| >= 2 then
        base[Range1Start := VInt(codes[0])][Range1End := VInt(codes[0])]
            [Range1Becomes := BinaryBecomes(data, codes[0], 1)]
            [Range2Start := VInt(codes[1])][Range2End := VInt(codes[1])]
            [Range2Becomes := BinaryBecomes(data, codes[1], 2)]
      else base
    else
      base[Range1Start := GetOr(data, Range1Start, VInt(1))]
          [Range1End := GetOr(data, Range1End, VInt(1))]
          [Range1Becomes := GetOr(data, Range1Becomes, VInt(1))]
          [Range2Start := GetOr(data, Range2Start, VInt(2))]
          [Range2End := GetOr(data, Range2End, VInt(2))]
          [Range2Becomes := GetOr(data, Range2Becomes, VInt(2))]
  }

  /** The selected questions in selection order, each with its settings. */
  function SelectedEntries(selected: ODict<Config>): (es: seq<(string, Config)>)
    requires selected.Valid()
    ensures |es| == |selected.keys| && forall i :: 0 <= i < |es| ==> es[i].0 == selected.keys[i]
  {
    seq(|selected.keys|, i requires 0 <= i < |selected.keys| =>
      (selected.keys[i], Prepared(selected.vals[selected.keys[i]])))
  }

  lemma SelectedEntryAt(selected: ODict<Config>, i: nat)
    requires selected.Valid() && i < |selected.keys|
    ensures SelectedEntries(selected)[i] == (selected.keys[i], Prepared(selected.vals[selected.keys[i]]))
  {
  }

  /** `data['column']` exists for every selected question that is still to
      be added; any other one would raise a `KeyError`. */
  predicate ColumnsPresent(settings: Settings, selected: ODict<Config>)
  {
    forall k :: k in selected.vals && k !in settings.vals ==> Column in selected.vals[k]
  }

  /** `recode_settings` after `prepare_neutral_questions_for_syntax`; nothing
      changes without a selection. */
  function PreparedSettings(settings: Settings, selected: Option<ODict<Config>>): (r: Settings)
    requires settings.Valid() && (selected.Some? ==> selected.value.Valid())
    ensures r.Valid()
  {
    if selected.None? then settings else InsertEntries(settings, SelectedEntries(selected.value))
  }

  /** The settings one selected question gets, built field by field as the
      loop body of `prepare_neutral_questions_for_syntax` builds them. */
  method PrepareEntry(data: Config) returns (entry: Config)
    requires Column in data
    ensures entry == Prepared(data)
  {
    entry := map[Party := VStr("neutral"), MatchedColumn := data[Column],
             VariableType := if VariableType in data then data[VariableType] else VStr("categorical")];
    var kind := if VariableType in data then data[VariableType] else VNone;
    if kind == VStr("continuous") {
      entry := entry[Range1Operator := GetOr(data, Range1Operator, VStr("<="))];
      entry := entry[Range1Value := GetOr(data, Range1Value, VInt(50))];
      entry := entry[Range1Becomes := GetOr(data, Range1Becomes, VInt(1))];
      entry := entry[Range2Operator := GetOr(data, Range2Operator, VStr(">"))];
      entry := entry[Range2Value := GetOr(data, Range2Value, VInt(50))];
      entry := entry[Range2Becomes := GetOr(data, Range2Becomes, VInt(2))];
    } else if kind == VStr("binary") {
      var originalValues := OriginalCodes(data);
      if |originalValues| >= 2 {
        entry := entry[Range1Start := VInt(originalValues[0])][Range1End := VInt(originalValues[0])];
        entry := entry[Range1Becomes := BinaryBecomes(data, originalValues[0], 1)];
        entry := entry[Range2Start := VInt(originalValues[1])][Range2End := VInt(originalValues[1])];
        entry := entry[Range2Becomes := BinaryBecomes(data, originalValues[1], 2)];
      }
    } else {
      entry := entry[Range1Start := GetOr(data, Range1Start, VInt(1))];
      entry := entry[Range1End := GetOr(data, Range1End, VInt(1))];
      entry := entry[Range1Becomes := GetOr(data, Range1Becomes, VInt(1))];
      entry := entry[Range2Start := GetOr(data, Range2Start, VInt(2))];
      entry := entry[Range2End := GetOr(data, Range2End, VInt(2))];
      entry := entry[Range2Becomes := GetOr(data, Range2Becomes, VInt(2))];
    }
  }

  /** `prepare_neutral_questions_for_syntax`: each selected question without
      settings gets the settings built from its data. */
  method PrepareNeutralQuestionsForSyntax(settings: Settings, selected: Option<ODict<Config>>)
    returns (r: Settings)
    requires settings.Valid() && (selected.Some? ==> selected.value.Valid() && ColumnsPresent(settings, selected.value))
    ensures r == PreparedSettings(settings, selected)
  {
    r := settings;
    if selected.None? {
      return;
    }
    var sel := selected.value;
    ghost var es := SelectedEntries(sel);
    for i := 0 to |sel.keys|
      invariant r == InsertEntries(settings, es[..i])
    {
      InsertEntriesSnoc(settings, es, i);
      SelectedEntryAt(sel, i);
      InsertEntriesKeeps(settings, es[..i]);
      var lbl := sel.keys[i];
      var data := sel.vals[lbl];
      if lbl !in r.vals {
        var entry := PrepareEntry(data);
        r := Put(r, lbl, entry);
      }
    }
    assert es[..|sel.keys|] == es;
  }

  /** Existing settings are untouched and keep their positions; the keys
      afterwards are the old ones and the selected labels. */
  lemma PreparedKeeps(settings: Settings, selected: ODict<Config>)
    requires settings.Valid() && selected.Valid()
    ensures var r := PreparedSettings(settings, Some(selected));
            && settings.keys <= r.keys
            && (forall k :: k in settings.vals ==> r.vals[k] == settings.vals[k])
            && (forall k :: k in r.vals <==> k in settings.vals || k in selected.vals)
  {
    InsertByKeys(settings, SelectedEntries(selected), selected.keys);
  }

  /** A selected label without settings gets the settings built from its
      data. */
  lemma PreparedAdded(settings: Settings, selected: ODict<Config>, k: string)
    requires settings.Valid() && selected.Valid() && ColumnsPresent(settings, selected)
    requires k in selected.vals && k !in settings.vals
    ensures var r := PreparedSettings(settings, Some(selected));
            var data := selected.vals[k];
            k in r.vals && r.vals[k] == Prepared(data)
  {
    var es := SelectedEntries(selected);
    var i := FirstPosition(selected.keys, k);
    SelectedEntryAt(selected, i);
    InsertEntriesFirstWins(settings, es, i);
  }

  /** A continuous question as it is added by hand reaches the settings with
      its column and its ranges: at most 50 to 1, above 50 to 2. */
  lemma PreparedContinuous(column: string, lbl: string)
    ensures var c := Prepared(NeutralRecode.ContinuousQuestion(column, lbl));
            && c[VariableType] == VStr("continuous") && c[MatchedColumn] == VStr(column)
            && c[Range1Operator] == VStr("<=") && c[Range1Value] == VReal(50.0) && c[Range1Becomes] == VInt(1)
            && c[Range2Operator] == VStr(">") && c[Range2Value] == VReal(50.0) && c[Range2Becomes] == VInt(2)
  {
  }

  /** A binary question as it is added by hand reaches the settings as two
      single-code ranges with the `becomes` of its binary map: 1 and 2 when
      its codes differ. */
  lemma PreparedBinary(column: string, lbl: string, values: seq<int>)
    requires |values| == 2 && values[0] != values[1]
    ensures var c := Prepared(NeutralRecode.BinaryQuestion(column, lbl, values));
            && c[VariableType] == VStr("binary") && c[MatchedColumn] == VStr(column)
            && c[Range1Start] == c[Range1End] == VInt(values[0]) && c[Range1Becomes] == VInt(1)
            && c[Range2Start] == c[Range2End] == VInt(values[1]) && c[Range2Becomes] == VInt(2)
  {
  }

  /** A categorical question as it is added by hand reaches the settings
      with its ranges unchanged. */
  lemma PreparedCategorical(column: string, lbl: string, values: seq<int>)
    requires |values| >= 2
    ensures var c := Prepared(NeutralRecode.CategoricalQuestion(column, lbl, values));
            && c[VariableType] == VStr("categorical") && c[MatchedColumn] == VStr(column)
            && c[Range1Start] == c[Range1End] == VInt(values[0]) && c[Range1Becomes] == VInt(1)
            && c[Range2Start] == c[Range2End] == VInt(values[1]) && c[Range2Becomes] == VInt(2)
  {
  }

  /** Data with only a column is categorical with the defaults 1 thru 1
      into 1 and 2 thru 2 into 2. */
  lemma PreparedDefaults(column: Val)
    ensures var c := Prepared(map[Column := column]);
            && c[VariableType] == VStr("categorical") && c[MatchedColumn] == column
            && c[Range1Start] == c[Range1End] == c[Range1Becomes] == VInt(1)
            && c[Range2Start] == c[Range2End] == c[Range2Becomes] == VInt(2)
  {
  }

  /** A binary question whose data has fewer than two original codes gets
      only the party, the column and the type. */
  lemma PreparedBinaryTooFew(data: Config)
    requires Get(data, VariableType) == VStr("binary") && |OriginalCodes(data)| < 2
    ensures Prepared(data).Keys == {Party, MatchedColumn, VariableType}
  {
  }

  /** `get_neutral_questions_for_syntax`: the selected labels in order, or
      none without a selection. */
  function GetNeutralQuestionsForSyntax(selected: Option<ODict<Config>>): (labels: seq<string>)
    ensures selected.None? ==> labels == []
    ensures selected.Some? ==> labels == selected.value.keys
    ensures selected.Some? && selected.value.Valid() ==>
              forall k :: k in labels <==> k in selected.value.vals
  {
    if selected.None? then [] else selected.value.keys
  }

  /** `count_selected_neutral`: the number of selected questions. */
  function CountSelectedNeutral(selected: Option<ODict<Config>>): (n: nat)
    ensures selected.None? ==> n == 0
  {
    if selected.None? then 0 else |selected.value.vals|
  }

  /** The count is the number of labels handed to the syntax generator. */
  lemma CountMatchesLabels(selected: Option<ODict<Config>>)
    requires selected.Some? ==> selected.value.Valid()
    ensures CountSelectedNeutral(selected) == |GetNeutralQuestionsForSyntax(selected)|
  {
    if selected.Some? {
      SizeIsKeyCount(selected.value);
    }
  }
}
