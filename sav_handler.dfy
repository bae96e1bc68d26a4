/** `SavHandler`, the older single-class version of the recode-script
    builder: the same label table and lookup as the match processor, the
    recode template that writes `into Cr.`, and fixed 'Plaintiff' and
    'Defense' tags and value labels. */
module SavHandlers {
  import opened Common
  import opened ODicts
  import opened LabelMatch
  import opened SpssProcessor
  import opened SpssSyntax
  import opened RecodeValues

  class SavHandler {
    const sav: seq<(string, string)>
    const labelToColumn: ODict<string>
    var script: string
    var matched: seq<Tagged>
    var unmatched: seq<Tagged>

    /** The label table is the one built from the SAV pairs. */
    ghost predicate Valid()
    {
      labelToColumn == BuildMapping(sav)
    }

    /** `__init__`: the label table is built and the results are empty. */
    constructor (sav: seq<(string, string)>)
      ensures Valid() && this.sav == sav
      ensures script == "" && matched == [] && unmatched == []
    {
      this.sav := sav;
      var m := BuildLabelMapping(sav);
      this.labelToColumn := m;
      this.script := "";
      this.matched := [];
      this.unmatched := [];
    }

    /** `_find_column`. */
    method FindColumn(q: string) returns (r: Option<string>)
      requires Valid()
      ensures r == LabelMatch.FindColumn(labelToColumn, q)
    {
      r := LookupColumn(labelToColumn, q);
    }

    /** The body of the loop of `_process_questions` for one question: as
        in the generator, with the handler's template; a `KeyError` leaves
        everything as it was. */
    method ProcessQuestion(q: string, cat: string, settings: map<string, Config>)
      returns (ghost column: Option<string>, keyError: bool)
      requires Valid()
      modifies this
      ensures column == LabelMatch.FindColumn(labelToColumn, q)
      ensures keyError == Raises(column, q, settings)
      ensures keyError ==> script == old(script) && matched == old(matched) && unmatched == old(unmatched)
      ensures Recoded(column, q, settings) && !keyError ==>
                && script == old(script) + Block(Handler, column.value, q, settings[q])
                && matched == old(matched) + [(cat, q)]
                && unmatched == old(unmatched)
      ensures !Recoded(column, q, settings) ==>
                && script == old(script)
                && matched == old(matched)
                && unmatched == old(unmatched) + [(cat, q)]
    {
      var c := FindColumn(q);
      column := c;
      keyError := false;
      if c.Some? && c.value != "" && q in settings {
        if !HasRanges(settings[q]) {
          keyError := true;
          return;
        }
        var syntax := Block(Handler, c.value, q, settings[q]);
        script := script + syntax;
        matched := matched + [(cat, q)];
      } else {
        unmatched := unmatched + [(cat, q)];
      }
    }

    /** `_process_questions`: the script and the two lists grow by what
        `Process` describes for these questions; a `KeyError` ends the loop. */
    method ProcessQuestions(qs: seq<string>, cat: string, settings: map<string, Config>)
      returns (keyError: bool)
      requires Valid()
      modifies this
      ensures var p := Process(settings, cat, qs, Columns(labelToColumn, qs));
              && keyError == p.keyError
              && script == old(script) + Blocks(Handler, settings, p.recoded)
              && matched == old(matched) + p.matched
              && unmatched == old(unmatched) + p.unmatched
    {
      ghost var cols: seq<Option<string>> := [];
      keyError := false;
      var i := 0;
      while i < |qs| && !keyError
        invariant 0 <= i <= |qs|
        invariant cols == Columns(labelToColumn, qs[..i])
        invariant keyError == Process(settings, cat, qs[..i], cols).keyError
        invariant Reached(Handler, settings, cat, qs[..i], cols, old(script), old(matched), old(unmatched),
                          script, matched, unmatched)
      {
        ghost var sc, m, u := script, matched, unmatched;
        ghost var column;
        column, keyError := ProcessQuestion(qs[i], cat, settings);
        ColumnsSnoc(labelToColumn, qs, i, column);
        ProcessStep(Handler, settings, cat, qs, cols, i, column, old(script), old(matched), old(unmatched), sc, m, u);
        cols := cols + [column];
        i := i + 1;
      }
      ColumnsPrefix(labelToColumn, qs, i);
      if keyError {
        ProcessStopped(settings, cat, qs, Columns(labelToColumn, qs), i);
      } else {
        assert qs[..i] == qs;
      }
    }

    /** `generate_recode_script`: the results are reset, then the plaintiff
        questions and the defense questions are processed under the fixed
        tags 'Plaintiff' and 'Defense'.  `None` stands for the `KeyError`
        that escapes when a block raises. */
    method GenerateRecodeScript(qs1: seq<string>, qs2: seq<string>, settings: map<string, Config>)
      returns (r: Option<RecodeResult>)
      requires Valid()
      modifies this
      ensures var p1 := Process(settings, "Plaintiff", qs1, Columns(labelToColumn, qs1));
              var p2 := Process(settings, "Defense", qs2, Columns(labelToColumn, qs2));
              && script == Blocks(Handler, settings, p1.recoded) + (if p1.keyError then "" else Blocks(Handler, settings, p2.recoded))
              && matched == p1.matched + (if p1.keyError then [] else p2.matched)
              && unmatched == p1.unmatched + (if p1.keyError then [] else p2.unmatched)
              && r == if p1.keyError || p2.keyError then None
                      else Some(RecodeResult(Blocks(Handler, settings, p1.recoded) + Blocks(Handler, settings, p2.recoded),
                                             p1.matched + p2.matched, p1.unmatched + p2.unmatched))
      ensures r.Some? ==> r.value == RecodeResult(script, matched, unmatched)
    {
      script := "";
      matched := [];
      unmatched := [];
      var error1 := ProcessQuestions(qs1, "Plaintiff", settings);
      if error1 {
        assert script == "" + Blocks(Handler, settings, Process(settings, "Plaintiff", qs1, Columns(labelToColumn, qs1)).recoded);
        return None;
      }
      ghost var p1 := Process(settings, "Plaintiff", qs1, Columns(labelToColumn, qs1));
      assert script == Blocks(Handler, settings, p1.recoded);
      assert matched == p1.matched && unmatched == p1.unmatched;
      var error2 := ProcessQuestions(qs2, "Defense", settings);
      if error2 {
        return None;
      }
      r := Some(RecodeResult(script, matched, unmatched));
    }

    /** `get_matched_questions`. */
    method GetMatchedQuestions() returns (r: seq<Tagged>)
      ensures r == matched
    {
      r := matched;
    }

    /** `get_unmatched_questions`. */
    method GetUnmatchedQuestions() returns (r: seq<Tagged>)
      ensures r == unmatched
    {
      r := unmatched;
    }

    /** `get_script`. */
    method GetScript() returns (s: string)
      ensures s == script
    {
      s := script;
    }
  }
}
