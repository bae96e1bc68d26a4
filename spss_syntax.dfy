/** `SPSSSyntaxGenerator` and the recode block of the older `SavHandler`:
    for every question with a truthy column and an entry in the recode
    settings one block of SPSS syntax is appended to the script. */
module SpssSyntax {
  import opened Common
  import opened ODicts
  import opened LabelMatch
  import opened SpssProcessor
  import opened RecodeValues
  import UserRecodePrepping
  import RecodeDefaults

  /** The fields a recode block reads.  A configuration that lacks one of
      them makes the f-string raise a `KeyError`: a continuous
      configuration, for one, has no `range1_start`. */
  predicate HasRanges(c: Config)
  {
    && Range1Start in c && Range1End in c && Range1Becomes in c
    && Range2Start in c && Range2End in c && Range2Becomes in c
  }

  /** The integers of a list as `str` writes them. */
  function IntTexts(xs: seq<int>): (ts: seq<string>)
    ensures |ts| == |xs| && forall i :: 0 <= i < |xs| ==> ts[i] == IntToString(xs[i])
  {
    seq(|xs|, i requires 0 <= i < |xs| => IntToString(xs[i]))
  }

  /** `str` of a float: a whole number is written with `.0`. */
  function RealText(r: real): string
  {
    IntToString(r.Floor) + ".0"
  }

  /** How the f-string writes a setting: Python's `str` of the value. */
  function FieldText(v: Val): string
  {
    match v
    case VStr(s) => s
    case VInt(i) => IntToString(i)
    case VReal(r) => RealText(r)
    case VBool(b) => if b then "True" else "False"
    case VNone => "None"
    case VInts(xs) => "[" + Join(", ", IntTexts(xs)) + "]"
    case VIntMap(m) =>
      var ks := Ascending(m.Keys);
      "{" + Join(", ", seq(|ks|, i requires 0 <= i < |ks| => IntToString(ks[i]) + ": " + IntToString(m[ks[i]]))) + "}"
  }

  /** The two recode templates: the syntax generator writes `into C.r` and
      labels the values with its two party names; the older handler writes
      `into Cr.` and always labels them 'Plaintiff' and 'Defense'. */
  datatype Template = Generator(name1: string, name2: string) | Handler

  /** `recode C (s1 thru e1=b1) (s2 thru e2=b2) into T`. */
  function RecodeLine(column: string, c: Config, target: string): string
    requires HasRanges(c)
  {
    "recode " + column + " "
    + "(" + FieldText(c[Range1Start]) + " thru " + FieldText(c[Range1End]) + "=" + FieldText(c[Range1Becomes]) + ") "
    + "(" + FieldText(c[Range2Start]) + " thru " + FieldText(c[Range2End]) + "=" + FieldText(c[Range2Becomes]) + ") "
    + "into " + target
  }

  function VariableLabelLine(column: string, question: string): string
  {
    "variable labels " + column + "r '" + question + "'."
  }

  function ValueLabelLine(column: string, name1: string, name2: string): string
  {
    "value labels " + column + "r 1 '" + name1 + "' 2 '" + name2 + "'."
  }

  /** The variable the recode writes into. */
  function Target(t: Template, column: string): string
  {
    match t
    case Generator(_, _) => column + ".r"
    case Handler => column + "r."
  }

  function Party1(t: Template): string
  {
    match t
    case Generator(n1, _) => n1
    case Handler => "Plaintiff"
  }

  function Party2(t: Template): string
  {
    match t
    case Generator(_, n2) => n2
    case Handler => "Defense"
  }

  /** Both templates label the variable `Cr`.  The handler's recode writes
      into that variable and ends the command with its period; the
      generator's writes into `C.r`, which is a different name. */
  lemma TargetsAndLabels(column: string, name1: string, name2: string)
    ensures Target(Handler, column) == (column + "r") + "."
    ensures Target(Generator(name1, name2), column) != column + "r"
  {
    assert |Target(Generator(name1, name2), column)| == |column| + 2;
  }

  /** The lines of one block: the recode command, the variable label, the
      value labels naming the two parties, `execute.` and one blank line
      (the block ends in two line breaks). */
  function BlockLines(t: Template, column: string, question: string, c: Config): seq<string>
    requires HasRanges(c)
  {
    [RecodeLine(column, c, Target(t, column)),
     VariableLabelLine(column, question),
     ValueLabelLine(column, Party1(t), Party2(t)),
     "execute.", "", ""]
  }

  /** `_generate_recode_syntax`: the lines of the block, each ended by a line break. */
  function Block(t: Template, column: string, question: string, c: Config): string
    requires HasRanges(c)
  {
    Join("\n", BlockLines(t, column, question, c))
  }

  predicate NoNewline(s: string)
  {
    '\n' !in s
  }

  /** None of the six settings is written with a line break. */
  predicate RangesOneLine(c: Config)
    requires HasRanges(c)
  {
    && NoNewline(FieldText(c[Range1Start])) && NoNewline(FieldText(c[Range1End])) && NoNewline(FieldText(c[Range1Becomes]))
    && NoNewline(FieldText(c[Range2Start])) && NoNewline(FieldText(c[Range2End])) && NoNewline(FieldText(c[Range2Becomes]))
  }

  lemma NoNewlineAppend(a: string, b: string)
    requires NoNewline(a) && NoNewline(b)
    ensures NoNewline(a + b)
  {
  }

  lemma RecodeLineNoNewline(column: string, c: Config, target: string)
    requires HasRanges(c) && RangesOneLine(c) && NoNewline(column) && NoNewline(target)
    ensures NoNewline(RecodeLine(column, c, target))
  {
    var f1, f2, f3 := FieldText(c[Range1Start]), FieldText(c[Range1End]), FieldText(c[Range1Becomes]);
    var g1, g2, g3 := FieldText(c[Range2Start]), FieldText(c[Range2End]), FieldText(c[Range2Becomes]);
    var p := "recode " + column + " (";
    NoNewlineAppend(p, f1);
    NoNewlineAppend(p + f1 + " thru ", f2);
    NoNewlineAppend(p + f1 + " thru " + f2 + "=", f3);
    var q := p + f1 + " thru " + f2 + "=" + f3 + ") (";
    NoNewlineAppend(q, g1);
    NoNewlineAppend(q + g1 + " thru ", g2);
    NoNewlineAppend(q + g1 + " thru " + g2 + "=", g3);
    NoNewlineAppend(q + g1 + " thru " + g2 + "=" + g3 + ") into ", target);
    assert RecodeLine(column, c, target) == q + g1 + " thru " + g2 + "=" + g3 + ") into " + target;
  }

  lemma LabelLinesNoNewline(column: string, question: string, name1: string, name2: string)
    requires NoNewline(column) && NoNewline(question) && NoNewline(name1) && NoNewline(name2)
    ensures NoNewline(VariableLabelLine(column, question))
    ensures NoNewline(ValueLabelLine(column, name1, name2))
  {
    NoNewlineAppend("variable labels " + column + "r '", question);
    NoNewlineAppend("value labels " + column + "r 1 '", name1);
    NoNewlineAppend("value labels " + column + "r 1 '" + name1 + "' 2 '", name2);
  }

  /** No line of a block contains a line break of its own. */
  lemma BlockLinesNoNewline(t: Template, column: string, question: string, c: Config)
    requires HasRanges(c) && RangesOneLine(c)
    requires NoNewline(column) && NoNewline(question) && NoNewline(Party1(t)) && NoNewline(Party2(t))
    ensures forall k :: 0 <= k < |BlockLines(t, column, question, c)| ==> NoNewline(BlockLines(t, column, question, c)[k])
  {
    assert NoNewline(Target(t, column));
    RecodeLineNoNewline(column, c, Target(t, column));
    LabelLinesNoNewline(column, question, Party1(t), Party2(t));
  }

  /** Read line by line, a block gives back exactly its six lines, provided
      none of the inserted texts contains a line break. */
  lemma BlockSplit(t: Template, column: string, question: string, c: Config)
    requires HasRanges(c) && RangesOneLine(c)
    requires NoNewline(column) && NoNewline(question) && NoNewline(Party1(t)) && NoNewline(Party2(t))
    ensures Split(Block(t, column, question, c), "\n") == BlockLines(t, column, question, c)
  {
    BlockLinesNoNewline(t, column, question, c);
    SplitJoin(BlockLines(t, column, question, c), '\n');
  }

  /** A whole float is written as Python writes it, with `.0`. */
  lemma WholeRealText(n: int)
    ensures FieldText(VReal(n as real)) == IntToString(n) + ".0"
  {
  }

  /** The values of a configuration without bounds: its four bounds are
      written `None`, as the unknown and placeholder configurations are. */
  lemma NoneBoundsLine(column: string, c: Config, target: string, b1: int, b2: int)
    requires HasRanges(c)
    requires c[Range1Start] == VNone && c[Range1End] == VNone && c[Range2Start] == VNone && c[Range2End] == VNone
    requires c[Range1Becomes] == VInt(b1) && c[Range2Becomes] == VInt(b2)
    ensures RecodeLine(column, c, target) ==
              "recode " + column + " "
              + "(" + "None" + " thru " + "None" + "=" + IntToString(b1) + ") "
              + "(" + "None" + " thru " + "None" + "=" + IntToString(b2) + ") "
              + "into " + target
  {
  }

  /** A configuration built for a truthy column without value labels is
      continuous and has no `range1_start`, so its block raises. */
  lemma ContinuousConfigLacksRanges(party: string, mc: Option<string>, fav: int, unfav: int, inc: bool, lbl: Option<string>)
    requires Truthy(mc)
    ensures !HasRanges(UserRecodePrepping.CreateRecodeConfig(party, mc, None, fav, unfav, inc, lbl))
  {
    UserRecodePrepping.ConfigRanges(party, mc, None, fav, unfav, inc, lbl);
  }

  /** Every other configuration built has all six fields. */
  lemma OtherConfigsHaveRanges(party: string, mc: Option<string>, values: Option<seq<int>>, fav: int, unfav: int, inc: bool, lbl: Option<string>)
    requires !(Truthy(mc) && values.None?)
    ensures HasRanges(UserRecodePrepping.CreateRecodeConfig(party, mc, values, fav, unfav, inc, lbl))
  {
  }

  /** The placeholder of a party statement writes `None` bounds. */
  lemma PlaceholderLine(column: string, party: string, fav: int, unfav: int, target: string)
    ensures var c := RecodeDefaults.PartyDefault(party, fav, unfav);
            && HasRanges(c)
            && RecodeLine(column, c, target) ==
                 "recode " + column + " "
                 + "(" + "None" + " thru " + "None" + "=" + IntToString(fav) + ") "
                 + "(" + "None" + " thru " + "None" + "=" + IntToString(unfav) + ") "
                 + "into " + target
  {
    NoneBoundsLine(column, RecodeDefaults.PartyDefault(party, fav, unfav), target, fav, unfav);
  }

  /** What `_process_questions` does for one list of questions: the
      (column, question) pair of each recoded question, whose block goes into
      the script, the two tracking lists, and whether a block raised a
      `KeyError`, which ends the loop. */
  datatype Outcome = Outcome(recoded: seq<(string, string)>, matched: seq<Tagged>, unmatched: seq<Tagged>, keyError: bool)

  /** `RecodeResult`. */
  datatype RecodeResult = RecodeResult(script: string, matched: seq<Tagged>, unmatched: seq<Tagged>)

  /** A question is recoded when its column is truthy and it has settings. */
  predicate Recoded(c: Option<string>, q: string, settings: map<string, Config>)
  {
    Truthy(c) && q in settings
  }

  /** A recoded question whose settings lack a field the block reads. */
  predicate Raises(c: Option<string>, q: string, settings: map<string, Config>)
  {
    Recoded(c, q, settings) && !HasRanges(settings[q])
  }

  /** The outcome of `_process_questions` for questions tagged `cat`,
      given the column found for each.  After a `KeyError` nothing more is
      processed. */
  function Process(settings: map<string, Config>, cat: string,
                   qs: seq<string>, cols: seq<Option<string>>): (r: Outcome)
    requires |cols| == |qs|
    ensures forall k :: 0 <= k < |r.recoded| ==> r.recoded[k].1 in settings && HasRanges(settings[r.recoded[k].1])
  {
    if qs == [] then Outcome([], [], [], false)
    else
      var n := |qs| - 1;
      var r := Process(settings, cat, qs[..n], cols[..n]);
      if r.keyError then r
      else if Raises(cols[n], qs[n], settings) then r.(keyError := true)
      else if Recoded(cols[n], qs[n], settings) then
        Outcome(r.recoded + [(cols[n].value, qs[n])], r.matched + [(cat, qs[n])], r.unmatched, false)
      else
        Outcome(r.recoded, r.matched, r.unmatched + [(cat, qs[n])], false)
  }

  /** The concatenation of one block per (column, question) pair. */
  function Blocks(t: Template, settings: map<string, Config>, ps: seq<(string, string)>): string
    requires forall k :: 0 <= k < |ps| ==> ps[k].1 in settings && HasRanges(settings[ps[k].1])
  {
    if ps == [] then ""
    else
      var n := |ps| - 1;
      Blocks(t, settings, ps[..n]) + Block(t, ps[n].0, ps[n].1, settings[ps[n].1])
  }

  /** Processing one more question after no `KeyError`: a block that raises
      sets the flag and changes nothing else; otherwise the question's block
      is appended when it is recoded, and it joins exactly one of the two lists. */
  lemma ProcessSnoc(settings: map<string, Config>, cat: string, qs: seq<string>,
                    cols: seq<Option<string>>, i: nat, c: Option<string>)
    requires i < |qs| && |cols| == i
    requires !Process(settings, cat, qs[..i], cols).keyError
    ensures var p := Process(settings, cat, qs[..i], cols);
            var p' := Process(settings, cat, qs[..i + 1], cols + [c]);
            if Raises(c, qs[i], settings) then p' == p.(keyError := true)
            else if Recoded(c, qs[i], settings) then
              p' == Outcome(p.recoded + [(c.value, qs[i])], p.matched + [(cat, qs[i])], p.unmatched, false)
            else p' == Outcome(p.recoded, p.matched, p.unmatched + [(cat, qs[i])], false)
  {
    assert qs[..i + 1][..i] == qs[..i];
    assert (cols + [c])[..i] == cols;
  }

  /** Once a block has raised, the later questions change nothing. */
  lemma {:induction false} ProcessStopped(settings: map<string, Config>, cat: string,
                                          qs: seq<string>, cols: seq<Option<string>>, i: nat)
    requires |cols| == |qs| && i <= |qs|
    requires Process(settings, cat, qs[..i], cols[..i]).keyError
    ensures Process(settings, cat, qs, cols) == Process(settings, cat, qs[..i], cols[..i])
  {
    if i < |qs| {
      var n := |qs| - 1;
      assert qs[..n][..i] == qs[..i] && cols[..n][..i] == cols[..i];
      ProcessStopped(settings, cat, qs[..n], cols[..n], i);
    } else {
      assert qs[..i] == qs && cols[..i] == cols;
    }
  }

  /** Appending one recoded pair appends its block. */
  lemma BlocksSnoc(t: Template, settings: map<string, Config>, ps: seq<(string, string)>, c: string, q: string)
    requires q in settings && HasRanges(settings[q])
    requires forall k :: 0 <= k < |ps| ==> ps[k].1 in settings && HasRanges(settings[ps[k].1])
    ensures Blocks(t, settings, ps + [(c, q)]) == Blocks(t, settings, ps) + Block(t, c, q, settings[q])
  {
    assert (ps + [(c, q)])[..|ps|] == ps;
  }

  /** A script and two lists that have grown from `s0`, `m0` and `u0` by
      what `Process` describes for these questions. */
  ghost predicate Reached(t: Template, settings: map<string, Config>, cat: string,
                          qs: seq<string>, cols: seq<Option<string>>,
                          s0: string, m0: seq<Tagged>, u0: seq<Tagged>,
                          sc: string, m: seq<Tagged>, u: seq<Tagged>)
    requires |cols| == |qs|
  {
    var p := Process(settings, cat, qs, cols);
    sc == s0 + Blocks(t, settings, p.recoded) && m == m0 + p.matched && u == u0 + p.unmatched
  }

  /** One step of the loop of `_process_questions`: a block that raises
      changes nothing, a recoded question adds its block and joins the
      matched list, any other joins the unmatched list. */
  lemma ProcessStep(t: Template, settings: map<string, Config>, cat: string,
                    qs: seq<string>, cols: seq<Option<string>>, i: nat, c: Option<string>,
                    s0: string, m0: seq<Tagged>, u0: seq<Tagged>,
                    sc: string, m: seq<Tagged>, u: seq<Tagged>)
    requires i < |qs| && |cols| == i
    requires !Process(settings, cat, qs[..i], cols).keyError
    requires Reached(t, settings, cat, qs[..i], cols, s0, m0, u0, sc, m, u)
    ensures Process(settings, cat, qs[..i + 1], cols + [c]).keyError == Raises(c, qs[i], settings)
    ensures Raises(c, qs[i], settings) ==>
              Reached(t, settings, cat, qs[..i + 1], cols + [c], s0, m0, u0, sc, m, u)
    ensures Recoded(c, qs[i], settings) && !Raises(c, qs[i], settings) ==>
              Reached(t, settings, cat, qs[..i + 1], cols + [c], s0, m0, u0,
                      sc + Block(t, c.value, qs[i], settings[qs[i]]), m + [(cat, qs[i])], u)
    ensures !Recoded(c, qs[i], settings) ==>
              Reached(t, settings, cat, qs[..i + 1], cols + [c], s0, m0, u0, sc, m, u + [(cat, qs[i])])
  {
    var p := Process(settings, cat, qs[..i], cols);
    ProcessSnoc(settings, cat, qs, cols, i, c);
    if Raises(c, qs[i], settings) {
    } else if Recoded(c, qs[i], settings) {
      BlocksSnoc(t, settings, p.recoded, c.value, qs[i]);
      AppendAssoc(s0, Blocks(t, settings, p.recoded), Block(t, c.value, qs[i], settings[qs[i]]));
      AppendAssoc(m0, p.matched, [(cat, qs[i])]);
    } else {
      AppendAssoc(u0, p.unmatched, [(cat, qs[i])]);
    }
  }

  /** One block per matched question, in matched order: the k-th recoded
      pair belongs to the k-th matched question; without a `KeyError` the
      two lists together are exactly as long as the input. */
  lemma {:induction false} ProcessCounts(settings: map<string, Config>, cat: string,
                                         qs: seq<string>, cols: seq<Option<string>>)
    requires |cols| == |qs|
    ensures var r := Process(settings, cat, qs, cols);
            && |r.matched| == |r.recoded|
            && (forall k :: 0 <= k < |r.recoded| ==> r.matched[k] == (cat, r.recoded[k].1))
            && (!r.keyError ==> |r.matched| + |r.unmatched| == |qs|)
  {
    if qs != [] {
      var n := |qs| - 1;
      ProcessCounts(settings, cat, qs[..n], cols[..n]);
    }
  }

  /** The first question whose block raises, if any. */
  ghost predicate FirstRaise(settings: map<string, Config>, qs: seq<string>, cols: seq<Option<string>>, i: int)
    requires |cols| == |qs|
  {
    && 0 <= i < |qs| && Raises(cols[i], qs[i], settings)
    && forall j :: 0 <= j < i ==> !Raises(cols[j], qs[j], settings)
  }

  /** `_process_questions` raises exactly when some recoded question's
      settings lack a field the block reads; it then stops at the first
      such question, which every earlier question has gone through. */
  lemma {:induction false} ProcessKeyError(settings: map<string, Config>, cat: string,
                                           qs: seq<string>, cols: seq<Option<string>>)
    requires |cols| == |qs|
    ensures var r := Process(settings, cat, qs, cols);
            && (r.keyError <==> exists i :: 0 <= i < |qs| && Raises(cols[i], qs[i], settings))
            && (r.keyError ==> exists i :: FirstRaise(settings, qs, cols, i) && |r.matched| + |r.unmatched| == i)
  {
    if qs != [] {
      var n := |qs| - 1;
      var p, pc := qs[..n], cols[..n];
      ProcessKeyError(settings, cat, p, pc);
      ProcessCounts(settings, cat, p, pc);
      var r0 := Process(settings, cat, p, pc);
      var r := Process(settings, cat, qs, cols);
      if r0.keyError {
        var i :| FirstRaise(settings, p, pc, i) && |r0.matched| + |r0.unmatched| == i;
        assert FirstRaise(settings, qs, cols, i) by {
          assert forall j :: 0 <= j < i ==> qs[j] == p[j] && cols[j] == pc[j];
        }
      } else {
        assert forall j :: 0 <= j < n ==> qs[j] == p[j] && cols[j] == pc[j];
        if Raises(cols[n], qs[n], settings) {
          assert FirstRaise(settings, qs, cols, n);
        }
      }
    }
  }

  /** The pair names a recoded question and that question's own column. */
  ghost predicate RecodedAt(settings: map<string, Config>, qs: seq<string>, cols: seq<Option<string>>, pair: (string, string))
    requires |cols| == |qs|
  {
    exists i :: 0 <= i < |qs| && qs[i] == pair.1 && Recoded(cols[i], qs[i], settings) && cols[i].value == pair.0
  }

  /** Each block is for a recoded question and uses that question's own column. */
  lemma {:induction false} ProcessRecodedFrom(settings: map<string, Config>, cat: string,
                                              qs: seq<string>, cols: seq<Option<string>>)
    requires |cols| == |qs|
    ensures forall k :: 0 <= k < |Process(settings, cat, qs, cols).recoded| ==>
              RecodedAt(settings, qs, cols, Process(settings, cat, qs, cols).recoded[k])
  {
    if qs != [] {
      var n := |qs| - 1;
      var p, pc := qs[..n], cols[..n];
      ProcessRecodedFrom(settings, cat, p, pc);
      var r0 := Process(settings, cat, p, pc);
      var r := Process(settings, cat, qs, cols);
      forall k | 0 <= k < |r.recoded|
        ensures RecodedAt(settings, qs, cols, r.recoded[k])
      {
        if k < |r0.recoded| {
          assert r.recoded[k] == r0.recoded[k];
          assert RecodedAt(settings, p, pc, r0.recoded[k]);
          var i :| 0 <= i < |p| && p[i] == r0.recoded[k].1 && Recoded(pc[i], p[i], settings) && pc[i].value == r0.recoded[k].0;
          assert qs[i] == p[i] && cols[i] == pc[i];
        } else {
          assert qs[n] == r.recoded[k].1 && Recoded(cols[n], qs[n], settings) && cols[n].value == r.recoded[k].0;
        }
      }
    }
  }

  /** Without a `KeyError`, every question with a truthy column and
      settings is matched, and every other question is unmatched. */
  lemma {:induction false} ProcessCovers(settings: map<string, Config>, cat: string,
                                         qs: seq<string>, cols: seq<Option<string>>)
    requires |cols| == |qs|
    ensures var r := Process(settings, cat, qs, cols);
            && (!r.keyError ==> forall i :: 0 <= i < |qs| && Recoded(cols[i], qs[i], settings) ==> (cat, qs[i]) in r.matched)
            && (!r.keyError ==> forall i :: 0 <= i < |qs| && !Recoded(cols[i], qs[i], settings) ==> (cat, qs[i]) in r.unmatched)
  {
    if qs != [] {
      var n := |qs| - 1;
      ProcessCovers(settings, cat, qs[..n], cols[..n]);
      forall i | 0 <= i < n ensures qs[i] == qs[..n][i] && cols[i] == cols[..n][i] { }
    }
  }

  /** Each unmatched question was not recoded. */
  lemma {:induction false} UnmatchedNotRecoded(settings: map<string, Config>, cat: string,
                                               qs: seq<string>, cols: seq<Option<string>>)
    requires |cols| == |qs|
    ensures var r := Process(settings, cat, qs, cols);
            forall x :: x in r.unmatched ==> x.0 == cat && exists i :: 0 <= i < |qs| && qs[i] == x.1 && !Recoded(cols[i], qs[i], settings)
  {
    if qs != [] {
      var n := |qs| - 1;
      var p, pc := qs[..n], cols[..n];
      UnmatchedNotRecoded(settings, cat, p, pc);
      var r0 := Process(settings, cat, p, pc);
      var r := Process(settings, cat, qs, cols);
      forall x | x in r.unmatched
        ensures x.0 == cat && exists i :: 0 <= i < |qs| && qs[i] == x.1 && !Recoded(cols[i], qs[i], settings)
      {
        if x in r0.unmatched {
          var i :| 0 <= i < |p| && p[i] == x.1 && !Recoded(pc[i], p[i], settings);
          assert qs[i] == p[i] && cols[i] == pc[i];
        } else {
          assert qs[n] == x.1;
        }
      }
    }
  }

  /** A matched party statement that was given a continuous configuration
      makes `_process_questions` raise. */
  lemma ContinuousStatementRaises(settings: map<string, Config>, cat: string,
                                  qs: seq<string>, cols: seq<Option<string>>, i: nat,
                                  party: string, mc: Option<string>, fav: int, unfav: int)
    requires |cols| == |qs| && i < |qs| && Truthy(cols[i]) && Truthy(mc)
    requires qs[i] in settings && settings[qs[i]] == UserRecodePrepping.CreateRecodeConfig(party, mc, None, fav, unfav, false, None)
    ensures Process(settings, cat, qs, cols).keyError
  {
    ContinuousConfigLacksRanges(party, mc, fav, unfav, false, None);
    ProcessKeyError(settings, cat, qs, cols);
  }

  class SyntaxGenerator {
    /** The matching state this generator extends. */
    const base: MatchProcessor
    var script: string

    ghost predicate Valid()
    {
      base.Valid()
    }

    /** `SPSSSyntaxGenerator.__init__`, whose party names default to
        'Plaintiff' and 'Defense'. */
    constructor (savLabels: seq<(string, string)>, name1: string := "Plaintiff", name2: string := "Defense")
      ensures Valid() && fresh(base)
      ensures base.savLabels == savLabels && base.name1 == name1 && base.name2 == name2
      ensures base.matched == [] && base.unmatched == [] && script == ""
    {
      base := new MatchProcessor(savLabels, name1, name2);
      script := "";
    }

    function Tmpl(): Template
    {
      Generator(base.name1, base.name2)
    }

    /** The body of the loop of `_process_questions` for one question: a
        question with a truthy column and settings gets its block appended to
        the script and joins the matched list, unless its settings lack a
        field the block reads, which raises a `KeyError` before anything
        changes; any other question joins the unmatched list. */
    method ProcessQuestion(q: string, cat: string, settings: map<string, Config>)
      returns (ghost column: Option<string>, keyError: bool)
      requires Valid()
      modifies this, base
      ensures column == LabelMatch.FindColumn(base.labelToColumn, q)
      ensures keyError == Raises(column, q, settings)
      ensures keyError ==>
                script == old(script) && base.matched == old(base.matched) && base.unmatched == old(base.unmatched)
      ensures Recoded(column, q, settings) && !keyError ==>
                && script == old(script) + Block(Tmpl(), column.value, q, settings[q])
                && base.matched == old(base.matched) + [(cat, q)]
                && base.unmatched == old(base.unmatched)
      ensures !Recoded(column, q, settings) ==>
                && script == old(script)
                && base.matched == old(base.matched)
                && base.unmatched == old(base.unmatched) + [(cat, q)]
    {
      var c := base.FindColumn(q);
      column := c;
      keyError := false;
      if c.Some? && c.value != "" && q in settings {
        if !HasRanges(settings[q]) {
          keyError := true;
          return;
        }
        var syntax := Block(Tmpl(), c.value, q, settings[q]);
        script := script + syntax;
        base.matched := base.matched + [(cat, q)];
      } else {
        base.unmatched := base.unmatched + [(cat, q)];
      }
    }

    /** `_process_questions`: the script and the two lists grow by what
        `Process` describes for these questions; a `KeyError` ends the loop. */
    method ProcessQuestions(qs: seq<string>, cat: string, settings: map<string, Config>)
      returns (keyError: bool)
      requires Valid()
      modifies this, base
      ensures var p := Process(settings, cat, qs, Columns(base.labelToColumn, qs));
              && keyError == p.keyError
              && script == old(script) + Blocks(Tmpl(), settings, p.recoded)
              && base.matched == old(base.matched) + p.matched
              && base.unmatched == old(base.unmatched) + p.unmatched
    {
      ghost var cols: seq<Option<string>> := [];
      keyError := false;
      var i := 0;
      while i < |qs| && !keyError
        invariant 0 <= i <= |qs|
        invariant cols == Columns(base.labelToColumn, qs[..i])
        invariant keyError == Process(settings, cat, qs[..i], cols).keyError
        invariant Reached(Tmpl(), settings, cat, qs[..i], cols, old(script), old(base.matched), old(base.unmatched),
                          script, base.matched, base.unmatched)
      {
        ghost var sc, m, u := script, base.matched, base.unmatched;
        ghost var column;
        column, keyError := ProcessQuestion(qs[i], cat, settings);
        ColumnsSnoc(base.labelToColumn, qs, i, column);
        ProcessStep(Tmpl(), settings, cat, qs, cols, i, column, old(script), old(base.matched), old(base.unmatched), sc, m, u);
        cols := cols + [column];
        i := i + 1;
      }
      ColumnsPrefix(base.labelToColumn, qs, i);
      if keyError {
        ProcessStopped(settings, cat, qs, Columns(base.labelToColumn, qs), i);
      } else {
        assert qs[..i] == qs;
      }
    }

    /** `generate_recode_script`: script and tracking are reset first, so the
        outcome depends only on the arguments.  `None` stands for the
        `KeyError` that escapes when a block raises; the state is then as far
        as processing got. */
    method GenerateRecodeScript(qs1: seq<string>, qs2: seq<string>, settings: map<string, Config>)
      returns (r: Option<RecodeResult>)
      requires Valid()
      modifies this, base
      ensures var p1 := Process(settings, base.name1, qs1, Columns(base.labelToColumn, qs1));
              var p2 := Process(settings, base.name2, qs2, Columns(base.labelToColumn, qs2));
              && script == Blocks(Tmpl(), settings, p1.recoded) + (if p1.keyError then "" else Blocks(Tmpl(), settings, p2.recoded))
              && base.matched == p1.matched + (if p1.keyError then [] else p2.matched)
              && base.unmatched == p1.unmatched + (if p1.keyError then [] else p2.unmatched)
              && r == if p1.keyError || p2.keyError then None
                      else Some(RecodeResult(Blocks(Tmpl(), settings, p1.recoded) + Blocks(Tmpl(), settings, p2.recoded),
                                             p1.matched + p2.matched, p1.unmatched + p2.unmatched))
      ensures r.Some? ==> r.value == RecodeResult(script, base.matched, base.unmatched)
    {
      script := "";
      base.ResetTracking();
      var error1 := ProcessQuestions(qs1, base.name1, settings);
      if error1 {
        assert script == "" + Blocks(Tmpl(), settings, Process(settings, base.name1, qs1, Columns(base.labelToColumn, qs1)).recoded);
        return None;
      }
      ghost var p1 := Process(settings, base.name1, qs1, Columns(base.labelToColumn, qs1));
      assert script == Blocks(Tmpl(), settings, p1.recoded);
      assert base.matched == p1.matched && base.unmatched == p1.unmatched;
      var error2 := ProcessQuestions(qs2, base.name2, settings);
      if error2 {
        return None;
      }
      r := Some(RecodeResult(script, base.matched, base.unmatched));
    }

    /** `get_script`. */
    method GetScript() returns (s: string)
      ensures s == script
    {
      s := script;
    }
  }
}
