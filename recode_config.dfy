/** The recode preparation of the user-recoding screens: the configuration
    built for a statement from its matched column and that column's codes,
    and the initialisers that add one configuration per party statement to
    `recode_settings` and one per general question to `all_questions`.
    Streamlit's session state is replaced by explicit values: the settings
    maps are passed in and the updated maps returned. */
module UserRecodePrepping {
  import opened Common
  import opened ODicts
  import opened LabelMatch
  import opened SpssProcessor
  import opened RecodeValues

  /** The fields a continuous configuration adds: split at 50 with `<=`
      and `>`. */
  function WithContinuous(c: Config, favorable: int, unfavorable: int): Config
  {
    c[VariableType := VStr("continuous")]
     [Range1Operator := VStr("<=")][Range1Value := VInt(50)][Range1Becomes := VInt(favorable)]
     [Range2Operator := VStr(">")][Range2Value := VInt(50)][Range2Becomes := VInt(unfavorable)]
  }

  /** The fields a range configuration adds: its kind and the two ranges. */
  function WithRanges(c: Config, kind: string, s1: Val, e1: Val, s2: Val, e2: Val, favorable: int, unfavorable: int): Config
  {
    c[VariableType := VStr(kind)]
     [Range1Start := s1][Range1End := e1][Range1Becomes := VInt(favorable)]
     [Range2Start := s2][Range2End := e2][Range2Becomes := VInt(unfavorable)]
  }

  /** `_create_recode_config`.  Every configuration holds the party, the
      matched column, the favourable value for range 1, the unfavourable one
      for range 2, and one of the three kinds. */
  function CreateRecodeConfig(party: string, matchedColumn: Option<string>, values: Option<seq<int>>,
                              favorable: int, unfavorable: int, includeLabel: bool, lbl: Option<string>): (c: Config)
    ensures Party in c && c[Party] == VStr(party)
    ensures MatchedColumn in c && c[MatchedColumn] == OptStr(matchedColumn)
    ensures Range1Becomes in c && c[Range1Becomes] == VInt(favorable)
    ensures Range2Becomes in c && c[Range2Becomes] == VInt(unfavorable)
    ensures VariableType in c && c[VariableType] in {VStr("continuous"), VStr("categorical"), VStr("unknown")}
  {
    var base := map[Party := VStr(party), MatchedColumn := OptStr(matchedColumn)];
    var config := if includeLabel then base[Column := OptStr(matchedColumn)][Label := OptStr(lbl)] else base;
    if Truthy(matchedColumn) && values.None? then
      WithContinuous(config, favorable, unfavorable)
    else if values.Some? && |values.value| >= 4 then
      var v := values.value;
      var c := WithRanges(config, "categorical", VInt(v[0]), VInt(v[1]), VInt(v[2]), VInt(v[3]), favorable, unfavorable);
      if includeLabel then c[OriginalValues := VInts(v)] else c
    else if values.Some? && |values.value| >= 2 && includeLabel then
      var v := values.value;
      WithRanges(config[OriginalValues := VInts(v)], "categorical", VInt(v[0]), VInt(v[0]), VInt(v[1]), VInt(v[1]), favorable, unfavorable)
    else
      WithRanges(config, "unknown", VNone, VNone, VNone, VNone, favorable, unfavorable)
  }

  /** Which kind of configuration is built: continuous exactly for a truthy
      column without value labels; categorical for at least four codes, or
      two or three codes when the label is included; unknown otherwise. */
  lemma ConfigKind(party: string, mc: Option<string>, values: Option<seq<int>>, fav: int, unfav: int, inc: bool, lbl: Option<string>)
    ensures var c := CreateRecodeConfig(party, mc, values, fav, unfav, inc, lbl);
            && VariableType in c
            && (c[VariableType] == VStr("continuous") <==> Truthy(mc) && values.None?)
            && (c[VariableType] == VStr("categorical") <==>
                  !(Truthy(mc) && values.None?) && (AtLeast(values, 4) || (AtLeast(values, 2) && inc)))
            && (c[VariableType] == VStr("unknown") <==>
                  !(Truthy(mc) && values.None?) && !AtLeast(values, 4) && !(AtLeast(values, 2) && inc))
  {
  }

  /** The `column` and `label` fields are there exactly when the label is
      included; the original codes exactly when the label is included and
      the codes give a categorical configuration. */
  lemma ConfigLabelFields(party: string, mc: Option<string>, values: Option<seq<int>>, fav: int, unfav: int, inc: bool, lbl: Option<string>)
    ensures var c := CreateRecodeConfig(party, mc, values, fav, unfav, inc, lbl);
            && (Column in c <==> inc) && (Label in c <==> inc)
            && (inc ==> c[Column] == OptStr(mc) && c[Label] == OptStr(lbl))
            && (OriginalValues in c <==> inc && AtLeast(values, 2) && !(Truthy(mc) && values.None?))
  {
  }

  /** The ranges of each kind: continuous splits at 50 with `<=` and `>`;
      four or more codes give the ranges codes 0..1 and 2..3; two or three
      codes (label included) give the single-code ranges 0..0 and 1..1; the
      unknown kind has no bounds. */
  lemma ConfigRanges(party: string, mc: Option<string>, values: Option<seq<int>>, fav: int, unfav: int, inc: bool, lbl: Option<string>)
    ensures var c := CreateRecodeConfig(party, mc, values, fav, unfav, inc, lbl);
            && (Truthy(mc) && values.None? ==>
                  c[Range1Operator] == VStr("<=") && c[Range1Value] == VInt(50)
                  && c[Range2Operator] == VStr(">") && c[Range2Value] == VInt(50)
                  && Range1Start !in c)
            && (!(Truthy(mc) && values.None?) && AtLeast(values, 4) ==>
                  var v := values.value;
                  c[Range1Start] == VInt(v[0]) && c[Range1End] == VInt(v[1])
                  && c[Range2Start] == VInt(v[2]) && c[Range2End] == VInt(v[3]))
            && (!(Truthy(mc) && values.None?) && !AtLeast(values, 4) && AtLeast(values, 2) && inc ==>
                  var v := values.value;
                  c[Range1Start] == VInt(v[0]) && c[Range1End] == VInt(v[0])
                  && c[Range2Start] == VInt(v[1]) && c[Range2End] == VInt(v[1]))
            && (!(Truthy(mc) && values.None?) && !AtLeast(values, 4) && !(AtLeast(values, 2) && inc) ==>
                  c[Range1Start] == VNone && c[Range1End] == VNone
                  && c[Range2Start] == VNone && c[Range2End] == VNone)
  {
  }

  // ---------------------------------------------------------------------------
  // _initialize_plaintiff_recodes / _initialize_defense_recodes
  // ---------------------------------------------------------------------------

  /** A party statement's configuration: its matched column, that column's
      codes when the column is truthy, and the party's `becomes` values. */
  function StatementConfig(mapping: ODict<string>, meta: ValueLabels, statement: string,
                           party: string, favorable: int, unfavorable: int): Config
    requires mapping.Valid()
  {
    var mc := FindColumn(mapping, statement);
    var values := if Truthy(mc) then GetValueRange(meta, mc.value) else None;
    CreateRecodeConfig(party, mc, values, favorable, unfavorable, false, None)
  }

  function PartyEntries(mapping: ODict<string>, meta: ValueLabels, statements: seq<string>,
                        party: string, favorable: int, unfavorable: int): (es: seq<(string, Config)>)
    requires mapping.Valid()
    ensures |es| == |statements| && forall i :: 0 <= i < |es| ==> es[i].0 == statements[i]
  {
    seq(|statements|, i requires 0 <= i < |statements| =>
      (statements[i], StatementConfig(mapping, meta, statements[i], party, favorable, unfavorable)))
  }

  lemma PartyEntryAt(mapping: ODict<string>, meta: ValueLabels, statements: seq<string>,
                      party: string, favorable: int, unfavorable: int, i: nat)
    requires mapping.Valid() && i < |statements|
    ensures PartyEntries(mapping, meta, statements, party, favorable, unfavorable)[i]
              == (statements[i], StatementConfig(mapping, meta, statements[i], party, favorable, unfavorable))
  {
  }

  /** The loop of the party initialisers: each statement without settings
      gets its configuration; statements with settings are skipped. */
  method InitializePartyRecodes(settings: Settings, highlights: Option<seq<string>>, mapping: ODict<string>,
                                meta: ValueLabels, party: string, favorable: int, unfavorable: int)
    returns (r: Settings)
    requires settings.Valid() && mapping.Valid()
    ensures r == InsertEntries(settings, PartyEntries(mapping, meta, Listed(highlights), party, favorable, unfavorable))
  {
    r := settings;
    if highlights.None? || highlights.value == [] {
      return;
    }
    var statements := highlights.value;
    ghost var es := PartyEntries(mapping, meta, statements, party, favorable, unfavorable);
    for i := 0 to |statements|
      invariant r == InsertEntries(settings, es[..i])
    {
      InsertEntriesSnoc(settings, es, i);
      PartyEntryAt(mapping, meta, statements, party, favorable, unfavorable, i);
      var statement := statements[i];
      if statement !in r.vals {
        var matchedColumn := LookupColumn(mapping, statement);
        var values := if Truthy(matchedColumn) then GetValueRange(meta, matchedColumn.value) else None;
        r := Put(r, statement, CreateRecodeConfig(party, matchedColumn, values, favorable, unfavorable, false, None));
      }
    }
    assert es[..|statements|] == es;
  }

  /** `_initialize_plaintiff_recodes`: party `name1`, favourable 1, unfavourable 2. */
  method InitializePlaintiffRecodes(settings: Settings, highlights: Option<seq<string>>, mapping: ODict<string>, meta: ValueLabels)
    returns (r: Settings)
    requires settings.Valid() && mapping.Valid()
    ensures r == InsertEntries(settings, PartyEntries(mapping, meta, Listed(highlights), "name1", 1, 2))
  {
    r := InitializePartyRecodes(settings, highlights, mapping, meta, "name1", 1, 2);
  }

  /** `_initialize_defense_recodes`: party `name2`, favourable 2, unfavourable 1. */
  method InitializeDefenseRecodes(settings: Settings, highlights: Option<seq<string>>, mapping: ODict<string>, meta: ValueLabels)
    returns (r: Settings)
    requires settings.Valid() && mapping.Valid()
    ensures r == InsertEntries(settings, PartyEntries(mapping, meta, Listed(highlights), "name2", 2, 1))
  {
    r := InitializePartyRecodes(settings, highlights, mapping, meta, "name2", 2, 1);
  }

  /** The party initialisers never overwrite: every statement that had
      settings keeps them, and the keys afterwards are the old ones and the
      statements. */
  lemma PartyRecodesKeep(settings: Settings, mapping: ODict<string>, meta: ValueLabels, statements: seq<string>,
                         party: string, fav: int, unfav: int)
    requires settings.Valid() && mapping.Valid()
    ensures var r := InsertEntries(settings, PartyEntries(mapping, meta, statements, party, fav, unfav));
            && settings.keys <= r.keys
            && (forall k :: k in settings.vals ==> r.vals[k] == settings.vals[k])
            && (forall k :: k in r.vals <==> k in settings.vals || k in statements)
  {
    InsertByKeys(settings, PartyEntries(mapping, meta, statements, party, fav, unfav), statements);
  }

  /** A new statement gets the configuration of its party: the party name,
      the `becomes` values, and the matched column of `_find_column`. */
  lemma PartyRecodesNew(settings: Settings, mapping: ODict<string>, meta: ValueLabels, statements: seq<string>,
                        party: string, fav: int, unfav: int, s: string)
    requires settings.Valid() && mapping.Valid()
    requires s in statements && s !in settings.vals
    ensures var r := InsertEntries(settings, PartyEntries(mapping, meta, statements, party, fav, unfav));
            s in r.vals && r.vals[s] == StatementConfig(mapping, meta, s, party, fav, unfav)
  {
    var es := PartyEntries(mapping, meta, statements, party, fav, unfav);
    var i := FirstPosition(statements, s);
    PartyEntryAt(mapping, meta, statements, party, fav, unfav, i);
    InsertEntriesFirstWins(settings, es, i);
  }

  /** A party statement's configuration names the party, the column
      `_find_column` reports, and the party's `becomes` values, and has no
      `column` or `label` field. */
  lemma StatementConfigFields(mapping: ODict<string>, meta: ValueLabels, s: string, party: string, fav: int, unfav: int)
    requires mapping.Valid()
    ensures var c := StatementConfig(mapping, meta, s, party, fav, unfav);
            && c[Party] == VStr(party) && c[MatchedColumn] == OptStr(FindColumn(mapping, s))
            && c[Range1Becomes] == VInt(fav) && c[Range2Becomes] == VInt(unfav)
            && Column !in c && Label !in c
  {
    var mc := FindColumn(mapping, s);
    var values := if Truthy(mc) then GetValueRange(meta, mc.value) else None;
    ConfigLabelFields(party, mc, values, fav, unfav, false, None);
  }

  /** Plaintiff statements are set up before defense statements, so a
      statement listed for both parties keeps its plaintiff configuration. */
  lemma BothPartiesKeepPlaintiff(settings: Settings, mapping: ODict<string>, meta: ValueLabels,
                                 name1: seq<string>, name2: seq<string>, s: string)
    requires settings.Valid() && mapping.Valid()
    requires s in name1 && s !in settings.vals
    ensures var after1 := InsertEntries(settings, PartyEntries(mapping, meta, name1, "name1", 1, 2));
            var after2 := InsertEntries(after1, PartyEntries(mapping, meta, name2, "name2", 2, 1));
            s in after2.vals && after2.vals[s] == StatementConfig(mapping, meta, s, "name1", 1, 2)
  {
    PartyRecodesNew(settings, mapping, meta, name1, "name1", 1, 2, s);
    var after1 := InsertEntries(settings, PartyEntries(mapping, meta, name1, "name1", 1, 2));
    PartyRecodesKeep(after1, mapping, meta, name2, "name2", 2, 1);
  }

  // ---------------------------------------------------------------------------
  // _initialize_neutral_recodes
  // ---------------------------------------------------------------------------

  /** A general question's configuration: party `neutral`, its column, that
      column's codes, favourable 1 and unfavourable 2, label included. */
  function NeutralConfig(meta: ValueLabels, column: string, lbl: string): Config
  {
    CreateRecodeConfig("neutral", Some(column), GetValueRange(meta, column), 1, 2, true, Some(lbl))
  }

  function NeutralEntries(meta: ValueLabels, general: seq<(string, string)>): (es: seq<(string, Config)>)
    ensures |es| == |general|
    ensures forall i :: 0 <= i < |es| ==> es[i] == (general[i].1, NeutralConfig(meta, general[i].0, general[i].1))
  {
    seq(|general|, i requires 0 <= i < |general| => (general[i].1, NeutralConfig(meta, general[i].0, general[i].1)))
  }

  /** `_initialize_neutral_recodes`, given the general questions as
      (column, lbl) pairs: every lbl's entry of `all_questions` is
      (over)written with its configuration. */
  method InitializeNeutralRecodes(allQuestions: Settings, general: seq<(string, string)>, meta: ValueLabels)
    returns (r: Settings)
    requires allQuestions.Valid()
    ensures r == PutEntries(allQuestions, NeutralEntries(meta, general))
  {
    r := allQuestions;
    if general == [] {
      return;
    }
    ghost var es := NeutralEntries(meta, general);
    for i := 0 to |general|
      invariant r == PutEntries(allQuestions, es[..i])
    {
      PutEntriesSnoc(allQuestions, es, i);
      var (column, lbl) := general[i];
      var values := GetValueRange(meta, column);
      r := Put(r, lbl, CreateRecodeConfig("neutral", Some(column), values, 1, 2, true, Some(lbl)));
    }
    assert es[..|general|] == es;
  }

  /** Each label ends with the configuration of its last (column, label)
      pair; entries for other labels are untouched. */
  lemma NeutralRecodesLastWins(allQuestions: Settings, general: seq<(string, string)>, meta: ValueLabels, i: nat)
    requires allQuestions.Valid()
    requires i < |general| && forall j :: i < j < |general| ==> general[j].1 != general[i].1
    ensures var r := PutEntries(allQuestions, NeutralEntries(meta, general));
            general[i].1 in r.vals && r.vals[general[i].1] == NeutralConfig(meta, general[i].0, general[i].1)
  {
    PutEntriesLastWins(allQuestions, NeutralEntries(meta, general), i);
  }

  lemma NeutralRecodesOthers(allQuestions: Settings, general: seq<(string, string)>, meta: ValueLabels, k: string)
    requires allQuestions.Valid()
    requires k in allQuestions.vals && forall j :: 0 <= j < |general| ==> general[j].1 != k
    ensures var r := PutEntries(allQuestions, NeutralEntries(meta, general));
            k in r.vals && r.vals[k] == allQuestions.vals[k]
  {
    var es := NeutralEntries(meta, general);
    PutEntriesOthers(allQuestions, es);
    assert !HasKey(es, k);
  }

  // ---------------------------------------------------------------------------
  // _initialize_recode_settings
  // ---------------------------------------------------------------------------

  /** `_initialize_recode_settings`: a matcher over the SAV labels, then the
      plaintiff, defense and neutral initialisers.  The general questions are
      a parameter, since the function that selects them is not part of this
      model. */
  method InitializeRecodeSettings(settings: Settings, allQuestions: Settings, savLabels: seq<(string, string)>,
                                  meta: ValueLabels, name1Highlights: Option<seq<string>>,
                                  name2Highlights: Option<seq<string>>, general: seq<(string, string)>)
    returns (settings': Settings, allQuestions': Settings)
    requires settings.Valid() && allQuestions.Valid()
    ensures var mapping := BuildMapping(savLabels);
            var after1 := InsertEntries(settings, PartyEntries(mapping, meta, Listed(name1Highlights), "name1", 1, 2));
            && settings' == InsertEntries(after1, PartyEntries(mapping, meta, Listed(name2Highlights), "name2", 2, 1))
            && allQuestions' == PutEntries(allQuestions, NeutralEntries(meta, general))
  {
    var mapping := BuildLabelMapping(savLabels);
    settings' := InitializePlaintiffRecodes(settings, name1Highlights, mapping, meta);
    settings' := InitializeDefenseRecodes(settings', name2Highlights, mapping, meta);
    allQuestions' := InitializeNeutralRecodes(allQuestions, general, meta);
  }
}
