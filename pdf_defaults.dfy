/** The default recode settings of the PDF extractor page: every extracted
    statement without settings gets fixed ranges, 1 thru 2 and 3 thru 4,
    recoded in the direction of its party. */
module PdfDefaults {
  import opened Common
  import opened ODicts
  import opened RecodeValues

  /** Ranges 1 thru 2 and 3 thru 4 with the given `becomes` values. */
  function FixedRanges(favorable: int, unfavorable: int): Config
  {
    map[Range1Start := VInt(1), Range1End := VInt(2), Range1Becomes := VInt(favorable),
        Range2Start := VInt(3), Range2End := VInt(4), Range2Becomes := VInt(unfavorable)]
  }

  /** A plaintiff statement's ranges: low codes become 1, high codes 2. */
  function Name1Ranges(): Config
  {
    FixedRanges(1, 2)
  }

  /** A defense statement's ranges: low codes become 2, high codes 1. */
  function Name2Ranges(): Config
  {
    FixedRanges(2, 1)
  }

  /** The settings after `_initialize_recode_settings`. */
  function Defaulted(settings: Settings, name1: Option<seq<string>>, name2: Option<seq<string>>): (r: Settings)
    requires settings.Valid()
    ensures r.Valid()
  {
    InsertEntries(InsertEntries(settings, Keyed(Listed(name1), Name1Ranges())), Keyed(Listed(name2), Name2Ranges()))
  }

  /** One party's loop: each statement without settings gets the ranges. */
  method InsertDefaults(settings: Settings, highlights: Option<seq<string>>, ranges: Config)
    returns (r: Settings)
    requires settings.Valid()
    ensures r == InsertEntries(settings, Keyed(Listed(highlights), ranges))
  {
    r := settings;
    if highlights.Some? && highlights.value != [] {
      var statements := highlights.value;
      ghost var es := Keyed(statements, ranges);
      for i := 0 to |statements|
        invariant r == InsertEntries(settings, es[..i])
      {
        InsertEntriesSnoc(settings, es, i);
        if statements[i] !in r.vals {
          r := Put(r, statements[i], ranges);
        }
      }
      assert es[..|statements|] == es;
    }
  }

  /** `_initialize_recode_settings`: plaintiff statements first, then
      defense statements. */
  method InitializeRecodeSettings(settings: Settings, name1Highlights: Option<seq<string>>,
                                  name2Highlights: Option<seq<string>>)
    returns (r: Settings)
    requires settings.Valid()
    ensures r == Defaulted(settings, name1Highlights, name2Highlights)
  {
    r := InsertDefaults(settings, name1Highlights, Name1Ranges());
    r := InsertDefaults(r, name2Highlights, Name2Ranges());
  }

  /** Existing settings are left as they are and keep their positions; the
      keys afterwards are the old ones and the highlighted statements. */
  lemma DefaultedKeeps(settings: Settings, name1: Option<seq<string>>, name2: Option<seq<string>>)
    requires settings.Valid()
    ensures var r := Defaulted(settings, name1, name2);
            && settings.keys <= r.keys
            && (forall k :: k in settings.vals ==> k in r.vals && r.vals[k] == settings.vals[k])
            && (forall k :: k in r.vals <==> k in settings.vals || k in Listed(name1) || k in Listed(name2))
  {
    var after1 := InsertEntries(settings, Keyed(Listed(name1), Name1Ranges()));
    InsertKeyed(settings, Listed(name1), Name1Ranges());
    InsertKeyed(after1, Listed(name2), Name2Ranges());
  }

  /** A new plaintiff statement gets 1 thru 2 into 1 and 3 thru 4 into 2,
      even when it is also a defense statement. */
  lemma DefaultedName1(settings: Settings, name1: Option<seq<string>>, name2: Option<seq<string>>, s: string)
    requires settings.Valid()
    requires s in Listed(name1) && s !in settings.vals
    ensures var r := Defaulted(settings, name1, name2);
            s in r.vals && r.vals[s] == Name1Ranges()
  {
    var after1 := InsertEntries(settings, Keyed(Listed(name1), Name1Ranges()));
    InsertKeyed(settings, Listed(name1), Name1Ranges());
    InsertKeyed(after1, Listed(name2), Name2Ranges());
  }

  /** A new defense statement that is not a plaintiff statement gets
      1 thru 2 into 2 and 3 thru 4 into 1. */
  lemma DefaultedName2(settings: Settings, name1: Option<seq<string>>, name2: Option<seq<string>>, s: string)
    requires settings.Valid()
    requires s in Listed(name2) && s !in Listed(name1) && s !in settings.vals
    ensures var r := Defaulted(settings, name1, name2);
            s in r.vals && r.vals[s] == Name2Ranges()
  {
    var after1 := InsertEntries(settings, Keyed(Listed(name1), Name1Ranges()));
    InsertKeyed(settings, Listed(name1), Name1Ranges());
    InsertKeyed(after1, Listed(name2), Name2Ranges());
  }

  /** Without highlights nothing changes. */
  lemma NothingHighlighted(settings: Settings, name1: Option<seq<string>>, name2: Option<seq<string>>)
    requires settings.Valid()
    requires (name1.None? || name1.value == []) && (name2.None? || name2.value == [])
    ensures Defaulted(settings, name1, name2) == settings
  {
  }
}
