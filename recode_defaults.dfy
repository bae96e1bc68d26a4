/** The first recode defaults of the frontend (`Components/recode_prepping`):
    extracted statements get placeholder configurations until they are
    matched, and general questions whose column has at least four codes get
    a neutral configuration from those codes.  Nothing is ever overwritten. */
module RecodeDefaults {
  import opened Common
  import opened ODicts
  import opened RecodeValues

  /** A placeholder configuration: the party, no column, no bounds, and the
      party's `becomes` values. */
  function PartyDefault(party: string, favorable: int, unfavorable: int): Config
  {
    map[Party := VStr(party), MatchedColumn := VNone,
        Range1Start := VNone, Range1End := VNone, Range1Becomes := VInt(favorable),
        Range2Start := VNone, Range2End := VNone, Range2Becomes := VInt(unfavorable)]
  }

  /** The configuration of a plaintiff statement. */
  function Name1Default(): Config
  {
    PartyDefault("name1", 1, 2)
  }

  /** The configuration of a defense statement. */
  function Name2Default(): Config
  {
    PartyDefault("name2", 2, 1)
  }

  /** A neutral configuration from a column's first four codes. */
  function NeutralDefault(column: string, values: seq<int>): Config
    requires |values| >= 4
  {
    map[Party := VStr("neutral"), MatchedColumn := VStr(column),
        Range1Start := VInt(values[0]), Range1End := VInt(values[1]), Range1Becomes := VInt(1),
        Range2Start := VInt(values[2]), Range2End := VInt(values[3]), Range2Becomes := VInt(2)]
  }

  /** The entries the neutral loop inserts: one per general question, in
      order, whose column has at least four codes. */
  function NeutralEntries(meta: ValueLabels, general: seq<(string, string)>): (es: seq<(string, Config)>)
    ensures |es| <= |general|
  {
    if general == [] then []
    else
      var n := |general| - 1;
      var values := GetValueRange(meta, general[n].0);
      NeutralEntries(meta, general[..n])
        + (if AtLeast(values, 4) then [(general[n].1, NeutralDefault(general[n].0, values.value))] else [])
  }

  lemma NeutralEntriesSnoc(meta: ValueLabels, general: seq<(string, string)>, i: nat)
    requires i < |general|
    ensures var values := GetValueRange(meta, general[i].0);
            NeutralEntries(meta, general[..i + 1]) == NeutralEntries(meta, general[..i])
              + (if AtLeast(values, 4) then [(general[i].1, NeutralDefault(general[i].0, values.value))] else [])
  {
    assert general[..i + 1][..i] == general[..i];
  }

  /** Every neutral entry comes from a general question whose column has at
      least four codes, and holds those codes. */
  lemma {:induction false} NeutralEntriesFrom(meta: ValueLabels, general: seq<(string, string)>, j: nat)
    requires j < |NeutralEntries(meta, general)|
    ensures exists i :: 0 <= i < |general| && general[i].1 == NeutralEntries(meta, general)[j].0
              && AtLeast(GetValueRange(meta, general[i].0), 4)
              && NeutralEntries(meta, general)[j].1 == NeutralDefault(general[i].0, GetValueRange(meta, general[i].0).value)
  {
    var n := |general| - 1;
    var p := NeutralEntries(meta, general[..n]);
    if j < |p| {
      NeutralEntriesFrom(meta, general[..n], j);
      var i :| 0 <= i < n && general[..n][i].1 == p[j].0
               && AtLeast(GetValueRange(meta, general[..n][i].0), 4)
               && p[j].1 == NeutralDefault(general[..n][i].0, GetValueRange(meta, general[..n][i].0).value);
      assert general[..n][i] == general[i];
    } else {
      assert NeutralEntries(meta, general)[j].0 == general[n].1;
    }
  }

  /** Every general question whose column has at least four codes has an
      entry. */
  lemma {:induction false} NeutralEntriesHave(meta: ValueLabels, general: seq<(string, string)>, i: nat)
    requires i < |general| && AtLeast(GetValueRange(meta, general[i].0), 4)
    ensures HasKey(NeutralEntries(meta, general), general[i].1)
  {
    var n := |general| - 1;
    var es := NeutralEntries(meta, general);
    if i < n {
      NeutralEntriesHave(meta, general[..n], i);
      var p := NeutralEntries(meta, general[..n]);
      var j :| 0 <= j < |p| && p[j].0 == general[..n][i].1;
      assert es[j] == p[j];
    } else {
      assert es[|es| - 1].0 == general[i].1;
    }
  }

  /** The loop over the statements of one party: each statement without
      settings gets the party's placeholder. */
  method InitializePartyDefaults(settings: Settings, highlights: Option<seq<string>>, config: Config)
    returns (r: Settings)
    requires settings.Valid()
    ensures r == InsertEntries(settings, Keyed(Listed(highlights), config))
  {
    r := settings;
    if highlights.None? || highlights.value == [] {
      return;
    }
    var statements := highlights.value;
    ghost var es := Keyed(statements, config);
    for i := 0 to |statements|
      invariant r == InsertEntries(settings, es[..i])
    {
      InsertEntriesSnoc(settings, es, i);
      var statement := statements[i];
      if statement !in r.vals {
        r := Put(r, statement, config);
      }
    }
    assert es[..|statements|] == es;
  }

  /** The loop over the general questions: a label without settings whose
      column has at least four codes gets a neutral configuration. */
  method InitializeNeutralDefaults(settings: Settings, general: seq<(string, string)>, meta: ValueLabels)
    returns (r: Settings)
    requires settings.Valid()
    ensures r == InsertEntries(settings, NeutralEntries(meta, general))
  {
    r := settings;
    for i := 0 to |general|
      invariant r == InsertEntries(settings, NeutralEntries(meta, general[..i]))
    {
      NeutralEntriesSnoc(meta, general, i);
      var (column, lbl) := general[i];
      ghost var before := NeutralEntries(meta, general[..i]);
      ghost var found := GetValueRange(meta, column);
      if AtLeast(found, 4) {
        InsertEntriesAppend(settings, before, (lbl, NeutralDefault(column, found.value)));
      } else {
        assert before + [] == before;
      }
      if lbl !in r.vals {
        var values := GetValueRange(meta, column);
        if values.Some? && |values.value| >= 4 {
          r := Put(r, lbl, NeutralDefault(column, values.value));
        }
      }
    }
    assert general[..|general|] == general;
  }

  lemma InsertEntriesAppend(d: Settings, es: seq<(string, Config)>, e: (string, Config))
    requires d.Valid()
    ensures InsertEntries(d, es + [e]) == PutIfAbsent(InsertEntries(d, es), e.0, e.1)
  {
    assert (es + [e])[..|es|] == es;
  }

  /** The settings after `_initialize_recode_settings`. */
  function Initialized(settings: Settings, name1: Option<seq<string>>, name2: Option<seq<string>>,
                       general: seq<(string, string)>, meta: ValueLabels): (r: Settings)
    requires settings.Valid()
    ensures r.Valid()
  {
    var after1 := InsertEntries(settings, Keyed(Listed(name1), Name1Default()));
    var after2 := InsertEntries(after1, Keyed(Listed(name2), Name2Default()));
    InsertEntries(after2, NeutralEntries(meta, general))
  }

  /** `_initialize_recode_settings`: plaintiff statements, then defense
      statements, then general questions.  The general questions are a
      parameter, since the function that selects them is not part of this
      model. */
  method InitializeRecodeSettings(settings: Settings, name1Highlights: Option<seq<string>>,
                                  name2Highlights: Option<seq<string>>, general: seq<(string, string)>,
                                  meta: ValueLabels)
    returns (r: Settings)
    requires settings.Valid()
    ensures r == Initialized(settings, name1Highlights, name2Highlights, general, meta)
  {
    r := InitializePartyDefaults(settings, name1Highlights, Name1Default());
    r := InitializePartyDefaults(r, name2Highlights, Name2Default());
    r := InitializeNeutralDefaults(r, general, meta);
  }

  /** Nothing that had settings is overwritten, and no key is moved. */
  lemma InitializedKeeps(settings: Settings, name1: Option<seq<string>>, name2: Option<seq<string>>,
                         general: seq<(string, string)>, meta: ValueLabels)
    requires settings.Valid()
    ensures var r := Initialized(settings, name1, name2, general, meta);
            && settings.keys <= r.keys
            && forall k :: k in settings.vals ==> k in r.vals && r.vals[k] == settings.vals[k]
  {
    var after1 := InsertEntries(settings, Keyed(Listed(name1), Name1Default()));
    var after2 := InsertEntries(after1, Keyed(Listed(name2), Name2Default()));
    InsertKeyed(settings, Listed(name1), Name1Default());
    InsertKeyed(after1, Listed(name2), Name2Default());
    InsertEntriesKeeps(after2, NeutralEntries(meta, general));
  }

  /** A plaintiff statement without settings gets the plaintiff placeholder,
      also when it is listed for the defense as well. */
  lemma InitializedName1(settings: Settings, name1: Option<seq<string>>, name2: Option<seq<string>>,
                         general: seq<(string, string)>, meta: ValueLabels, s: string)
    requires settings.Valid()
    requires s in Listed(name1) && s !in settings.vals
    ensures var r := Initialized(settings, name1, name2, general, meta);
            s in r.vals && r.vals[s] == Name1Default()
  {
    var after1 := InsertEntries(settings, Keyed(Listed(name1), Name1Default()));
    var after2 := InsertEntries(after1, Keyed(Listed(name2), Name2Default()));
    InsertKeyed(settings, Listed(name1), Name1Default());
    InsertKeyed(after1, Listed(name2), Name2Default());
    InsertEntriesKeeps(after2, NeutralEntries(meta, general));
  }

  /** A defense statement that had no settings and is not a plaintiff
      statement gets the defense placeholder. */
  lemma InitializedName2(settings: Settings, name1: Option<seq<string>>, name2: Option<seq<string>>,
                         general: seq<(string, string)>, meta: ValueLabels, s: string)
    requires settings.Valid()
    requires s in Listed(name2) && s !in Listed(name1) && s !in settings.vals
    ensures var r := Initialized(settings, name1, name2, general, meta);
            s in r.vals && r.vals[s] == Name2Default()
  {
    var after1 := InsertEntries(settings, Keyed(Listed(name1), Name1Default()));
    var after2 := InsertEntries(after1, Keyed(Listed(name2), Name2Default()));
    InsertKeyed(settings, Listed(name1), Name1Default());
    InsertKeyed(after1, Listed(name2), Name2Default());
    InsertEntriesKeeps(after2, NeutralEntries(meta, general));
  }

  /** A label that gains settings and is not a statement of either party is
      a general question whose column has at least four codes, and its
      configuration is built from that column's first four codes. */
  lemma InitializedNeutralOnlyWithCodes(settings: Settings, name1: Option<seq<string>>, name2: Option<seq<string>>,
                                        general: seq<(string, string)>, meta: ValueLabels, k: string)
    requires settings.Valid()
    requires k !in settings.vals && k !in Listed(name1) && k !in Listed(name2)
    requires k in Initialized(settings, name1, name2, general, meta).vals
    ensures exists i :: 0 <= i < |general| && general[i].1 == k
              && AtLeast(GetValueRange(meta, general[i].0), 4)
  {
    var after1 := InsertEntries(settings, Keyed(Listed(name1), Name1Default()));
    var after2 := InsertEntries(after1, Keyed(Listed(name2), Name2Default()));
    var es := NeutralEntries(meta, general);
    InsertKeyed(settings, Listed(name1), Name1Default());
    InsertKeyed(after1, Listed(name2), Name2Default());
    InsertEntriesKeeps(after2, es);
    var j :| 0 <= j < |es| && es[j].0 == k;
    NeutralEntriesFrom(meta, general, j);
  }

  /** A general question whose label has no settings yet and whose column
      has at least four codes gets settings. */
  lemma InitializedNeutralAdded(settings: Settings, name1: Option<seq<string>>, name2: Option<seq<string>>,
                                general: seq<(string, string)>, meta: ValueLabels, i: nat)
    requires settings.Valid()
    requires i < |general| && AtLeast(GetValueRange(meta, general[i].0), 4)
    ensures general[i].1 in Initialized(settings, name1, name2, general, meta).vals
  {
    var after1 := InsertEntries(settings, Keyed(Listed(name1), Name1Default()));
    var after2 := InsertEntries(after1, Keyed(Listed(name2), Name2Default()));
    NeutralEntriesHave(meta, general, i);
    InsertEntriesKeeps(after2, NeutralEntries(meta, general));
  }

  /** The neutral configuration: party `neutral`, the question's column,
      bounds from the column's first four codes in ascending order, and
      `becomes` 1 and 2. */
  lemma NeutralDefaultFields(column: string, values: seq<int>)
    requires |values| >= 4 && SortedInts(values)
    ensures var c := NeutralDefault(column, values);
            && c[Party] == VStr("neutral") && c[MatchedColumn] == VStr(column)
            && c[Range1Start].i <= c[Range1End].i <= c[Range2Start].i <= c[Range2End].i
            && c[Range1Becomes] == VInt(1) && c[Range2Becomes] == VInt(2)
  {
  }
}
