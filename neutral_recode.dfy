/** Choosing neutral questions by hand: searching the SAV questions, telling
    party questions apart, and adding a chosen question to `all_questions`
    with a configuration that follows its codes. */
module NeutralRecode {
  import opened Common
  import opened ODicts
  import opened RecodeValues

  // ---------------------------------------------------------------------------
  // _filter_questions
  // ---------------------------------------------------------------------------

  /** The lowercased query occurs in the lowercased column or label. */
  predicate QueryMatches(q: (string, string), query: string)
  {
    Contains(Lower(q.0), Lower(query)) || Contains(Lower(q.1), Lower(query))
  }

  /** The questions that match the query, in their order. */
  function Filtered(questions: seq<(string, string)>, query: string): seq<(string, string)>
  {
    FilterMap(questions, q => QueryMatches(q, query), q => q)
  }

  /** `_filter_questions`: one pass appending every matching pair. */
  method FilterQuestions(questions: seq<(string, string)>, query: string) returns (filtered: seq<(string, string)>)
    ensures filtered == Filtered(questions, query)
  {
    var queryLower := Lower(query);
    filtered := [];
    for i := 0 to |questions|
      invariant filtered == Filtered(questions[..i], query)
    {
      FilterMapSnoc(questions, i, q => QueryMatches(q, query), q => q);
      var (column, lbl) := questions[i];
      if Contains(Lower(column), queryLower) || Contains(Lower(lbl), queryLower) {
        filtered := filtered + [(column, lbl)];
      }
    }
    assert questions[..|questions|] == questions;
  }

  /** The result lists exactly the matching questions, each at its own
      position and in input order. */
  lemma FilteredExactly(questions: seq<(string, string)>, query: string)
    ensures var pos := Positions(questions, q => QueryMatches(q, query));
            && |Filtered(questions, query)| == |pos|
            && (forall k :: 0 <= k < |pos| ==> Filtered(questions, query)[k] == questions[pos[k]])
            && (forall a, b :: 0 <= a < b < |pos| ==> pos[a] < pos[b])
            && (forall i :: 0 <= i < |questions| && QueryMatches(questions[i], query) ==> i in pos)
  {
    FilterMapPositions(questions, q => QueryMatches(q, query), q => q);
    PositionsComplete(questions, q => QueryMatches(q, query));
  }

  /** A pair is in the result exactly when it is a question that matches. */
  lemma FilteredMembers(questions: seq<(string, string)>, query: string, q: (string, string))
    ensures q in Filtered(questions, query) <==> q in questions && QueryMatches(q, query)
  {
    var keep := (x: (string, string)) => QueryMatches(x, query);
    var pos := Positions(questions, keep);
    FilteredExactly(questions, query);
    if q in Filtered(questions, query) {
      var k :| 0 <= k < |Filtered(questions, query)| && Filtered(questions, query)[k] == q;
      assert questions[pos[k]] == q;
    }
    if q in questions && QueryMatches(q, query) {
      var i :| 0 <= i < |questions| && questions[i] == q;
      var k :| 0 <= k < |pos| && pos[k] == i;
      assert Filtered(questions, query)[k] == q;
    }
  }

  // ---------------------------------------------------------------------------
  // _is_party_question
  // ---------------------------------------------------------------------------

  /** The column patterns of party questions. */
  const PartyPatterns: seq<string> := ["plaaffs", "defaffs", "plaintiff", "defense"]

  /** One of the party patterns occurs in the lowercased column. */
  predicate HasPartyPattern(column: string)
  {
    exists i :: 0 <= i < |PartyPatterns| && Contains(Lower(column), PartyPatterns[i])
  }

  /** `_is_party_question`, with the two party names as parameters.  An
      empty party name is contained in every text, so it makes every
      question a party question. */
  predicate IsPartyQuestion(column: string, lbl: string, name1: string, name2: string): (r: bool)
    ensures name1 == "" || name2 == "" ==> r
  {
    ContainsEmpty(Lower(column));
    Contains(Lower(column), Lower(name1)) || Contains(Lower(lbl), Lower(name1))
    || Contains(Lower(column), Lower(name2)) || Contains(Lower(lbl), Lower(name2))
    || HasPartyPattern(column)
  }

  lemma {:induction false} ContainsLonger(hay: string, needle: string)
    requires |needle| > |hay|
    ensures !Contains(hay, needle)
  {
    if |hay| > 0 {
      ContainsLonger(hay[1..], needle);
    }
  }

  /** The label is only searched for the party names: two labels that agree
      on the names give the same answer whatever patterns they hold. */
  lemma LabelOnlyForNames(column: string, lbl: string, other: string, name1: string, name2: string)
    requires Contains(Lower(lbl), Lower(name1)) == Contains(Lower(other), Lower(name1))
    requires Contains(Lower(lbl), Lower(name2)) == Contains(Lower(other), Lower(name2))
    ensures IsPartyQuestion(column, lbl, name1, name2) == IsPartyQuestion(column, other, name1, name2)
  {
  }

  /** A label that says "plaintiff" does not make a question a party
      question when the column carries no pattern and no name. */
  lemma PlaintiffLabelNotParty()
    ensures Contains(Lower("Plaintiff"), "plaintiff")
    ensures !IsPartyQuestion("Q7", "Plaintiff", "Alexandra Smith", "Jonathan Brown")
  {
    assert Lower("Plaintiff") == "plaintiff";
    ContainsLonger(Lower("Q7"), Lower("Alexandra Smith"));
    ContainsLonger(Lower("Plaintiff"), Lower("Alexandra Smith"));
    ContainsLonger(Lower("Q7"), Lower("Jonathan Brown"));
    ContainsLonger(Lower("Plaintiff"), Lower("Jonathan Brown"));
    forall i | 0 <= i < |PartyPatterns| ensures !Contains(Lower("Q7"), PartyPatterns[i]) {
      ContainsLonger(Lower("Q7"), PartyPatterns[i]);
    }
  }

  // ---------------------------------------------------------------------------
  // _add_neutral_question
  // ---------------------------------------------------------------------------

  /** The configuration of a question without value labels. */
  function ContinuousQuestion(column: string, lbl: string): Config
  {
    map[Column := VStr(column), Label := VStr(lbl), VariableType := VStr("continuous"), Selected := VBool(true),
        Range1Operator := VStr("<="), Range1Value := VReal(50.0), Range1Becomes := VInt(1),
        Range2Operator := VStr(">"), Range2Value := VReal(50.0), Range2Becomes := VInt(2)]
  }

  /** The configuration of a question with two codes. */
  function BinaryQuestion(column: string, lbl: string, values: seq<int>): Config
    requires |values| == 2
  {
    map[Column := VStr(column), Label := VStr(lbl), VariableType := VStr("binary"), Selected := VBool(true),
        OriginalValues := VInts(values), BinaryMap := VIntMap(map[values[0] := 1, values[1] := 2])]
  }

  /** The configuration of a question with three or more codes. */
  function CategoricalQuestion(column: string, lbl: string, values: seq<int>): Config
    requires |values| >= 2
  {
    map[Column := VStr(column), Label := VStr(lbl), VariableType := VStr("categorical"), Selected := VBool(true),
        OriginalValues := VInts(values),
        Range1Start := VInt(values[0]), Range1End := VInt(values[0]), Range1Becomes := VInt(1),
        Range2Start := VInt(values[1]), Range2End := VInt(values[1]), Range2Becomes := VInt(2)]
  }

  /** The configuration chosen for a question's codes, or nothing when the
      column has value labels but fewer than two codes. */
  function NeutralQuestion(column: string, lbl: string, values: Option<seq<int>>): (r: Option<Config>)
    ensures r.None? <==> values.Some? && |values.value| < 2
    ensures r.Some? ==> && Column in r.value && r.value[Column] == VStr(column)
                        && Label in r.value && r.value[Label] == VStr(lbl)
                        && Selected in r.value && r.value[Selected] == VBool(true)
                        && (OriginalValues in r.value <==> values.Some?)
  {
    if values.None? then Some(ContinuousQuestion(column, lbl))
    else if |values.value| == 2 then Some(BinaryQuestion(column, lbl, values.value))
    else if |values.value| >= 2 then Some(CategoricalQuestion(column, lbl, values.value))
    else None
  }

  /** `_add_neutral_question`: `all_questions[label]` is set to the chosen
      configuration, replacing any earlier one. */
  function AddNeutralQuestion(allQuestions: Settings, meta: ValueLabels, column: string, lbl: string): (r: Settings)
    requires allQuestions.Valid()
    ensures r.Valid()
  {
    match NeutralQuestion(column, lbl, GetValueRange(meta, column))
    case Some(c) => Put(allQuestions, lbl, c)
    case None => allQuestions
  }

  /** Only the label's entry can change, and no key moves. */
  lemma AddNeutralOthers(allQuestions: Settings, meta: ValueLabels, column: string, lbl: string)
    requires allQuestions.Valid()
    ensures var r := AddNeutralQuestion(allQuestions, meta, column, lbl);
            && allQuestions.keys <= r.keys
            && (forall k :: k in r.vals <==> k in allQuestions.vals || (k == lbl && r != allQuestions))
            && (forall k :: k in allQuestions.vals && k != lbl ==> r.vals[k] == allQuestions.vals[k])
  {
  }

  /** A column without value labels is added as continuous: at most 50 is
      recoded to 1, above 50 to 2, and the question is selected. */
  lemma AddNeutralContinuous(allQuestions: Settings, meta: ValueLabels, column: string, lbl: string)
    requires allQuestions.Valid() && column !in meta
    ensures var r := AddNeutralQuestion(allQuestions, meta, column, lbl);
            && lbl in r.vals
            && var c := r.vals[lbl];
               && c[VariableType] == VStr("continuous") && c[Selected] == VBool(true)
               && c[Column] == VStr(column) && c[Label] == VStr(lbl)
               && c[Range1Operator] == VStr("<=") && c[Range1Value] == VReal(50.0) && c[Range1Becomes] == VInt(1)
               && c[Range2Operator] == VStr(">") && c[Range2Value] == VReal(50.0) && c[Range2Becomes] == VInt(2)
  {
  }

  /** Two codes give a binary question: the lower code maps to 1, the higher
      to 2, and the codes are kept in ascending order. */
  lemma AddNeutralBinary(allQuestions: Settings, meta: ValueLabels, column: string, lbl: string)
    requires allQuestions.Valid() && column in meta && |meta[column]| == 2
    ensures var r := AddNeutralQuestion(allQuestions, meta, column, lbl);
            var v := GetValueRange(meta, column).value;
            && lbl in r.vals && |v| == 2
            && SortedInts(v) && multiset(v) == multiset(meta[column])
            && r.vals[lbl] == BinaryQuestion(column, lbl, v)
            && r.vals[lbl][BinaryMap] == VIntMap(map[v[0] := 1, v[1] := 2])
            && r.vals[lbl][VariableType] == VStr("binary") && Range1Start !in r.vals[lbl]
  {
    var v := GetValueRange(meta, column).value;
    assert |multiset(v)| == |multiset(meta[column])|;
  }

  /** Three or more codes give a categorical question recoding the lowest
      code to 1 and the second lowest to 2. */
  lemma AddNeutralCategorical(allQuestions: Settings, meta: ValueLabels, column: string, lbl: string)
    requires allQuestions.Valid() && column in meta && |meta[column]| >= 3
    ensures var r := AddNeutralQuestion(allQuestions, meta, column, lbl);
            var v := GetValueRange(meta, column).value;
            && lbl in r.vals && |v| >= 3
            && (forall j :: 0 <= j < |v| ==> v[0] <= v[1] <= v[j] || j == 0)
            && r.vals[lbl] == CategoricalQuestion(column, lbl, v)
            && r.vals[lbl][VariableType] == VStr("categorical")
            && r.vals[lbl][Range1Start] == r.vals[lbl][Range1End] == VInt(v[0])
            && r.vals[lbl][Range2Start] == r.vals[lbl][Range2End] == VInt(v[1])
  {
    var v := GetValueRange(meta, column).value;
    assert |multiset(v)| == |multiset(meta[column])|;
  }

  /** A column with value labels but fewer than two codes adds nothing. */
  lemma AddNeutralNothing(allQuestions: Settings, meta: ValueLabels, column: string, lbl: string)
    requires allQuestions.Valid() && column in meta && |meta[column]| < 2
    ensures AddNeutralQuestion(allQuestions, meta, column, lbl) == allQuestions
  {
    var v := GetValueRange(meta, column).value;
    assert |multiset(v)| == |multiset(meta[column])|;
  }
}
