/** The values the frontend keeps per question: a recode configuration is a
    Python `dict` from field names to values, and `recode_settings` maps each
    statement to its configuration in insertion order.  The SAV metadata the
    frontend consults is `meta.variable_value_labels`: for each column that
    has value labels, the codes of its labels. */
module RecodeValues {
  import opened Common
  import opened ODicts

  /** The kinds of value a configuration field holds. */
  datatype Val =
    | VStr(s: string)
    | VInt(i: int)
    | VReal(r: real)
    | VBool(b: bool)
    | VNone
    | VInts(xs: seq<int>)
    | VIntMap(m: map<int, int>)

  /** The keys of a configuration: `party`, `matched_column`, `column`,
      `label`, `variable_type`, `selected`, `original_values`, `binary_map`,
      and `range1_*` / `range2_*` with `operator`, `value`, `start`, `end`
      and `becomes`. */
  datatype Field =
    | Party | MatchedColumn | Column | Label | VariableType | Selected | OriginalValues | BinaryMap
    | Range1Operator | Range1Value | Range1Start | Range1End | Range1Becomes
    | Range2Operator | Range2Value | Range2Start | Range2End | Range2Becomes

  type Config = map<Field, Val>

  type Settings = ODict<Config>

  /** `meta.variable_value_labels`, each column with the codes of its labels. */
  type ValueLabels = map<string, seq<int>>

  /** `None` or a string. */
  function OptStr(c: Option<string>): (v: Val)
    ensures c.None? <==> v == VNone
  {
    if c.Some? then VStr(c.value) else VNone
  }

  /** `data.get(key, default)`. */
  function GetOr(data: Config, key: Field, default: Val): (v: Val)
    ensures key in data ==> v == data[key]
    ensures key !in data ==> v == default
  {
    if key in data then data[key] else default
  }

  /** `d.get(key)`: the value, or `None` for a missing key. */
  function Get(c: Config, key: Field): (v: Val)
    ensures key in c ==> v == c[key]
    ensures key !in c ==> v == VNone
  {
    GetOr(c, key, VNone)
  }

  /** `if highlights:` — `None` and the empty list both list no statement. */
  function Listed(highlights: Option<seq<string>>): seq<string>
  {
    if highlights.Some? then highlights.value else []
  }

  /** `_get_value_range`: the column's codes in ascending order, or `None`
      when the column has no value labels. */
  function GetValueRange(meta: ValueLabels, column: string): (r: Option<seq<int>>)
    ensures r.Some? <==> column in meta
    ensures r.Some? ==> SortedInts(r.value) && multiset(r.value) == multiset(meta[column])
  {
    if column in meta then Some(SortInts(meta[column])) else None
  }

  /** `values and len(values) >= n`, for n at least 1. */
  predicate AtLeast(values: Option<seq<int>>, n: nat)
  {
    values.Some? && |values.value| >= n
  }

  /** The fields a match sets. */
  function MatchFields(): set<Field>
  {
    {MatchedColumn, Range1Start, Range1End, Range2Start, Range2End}
  }

  /** The configuration after a match: the column and the four bounds from
      the first four codes; the `becomes` fields and every other field keep
      their values. */
  function WithMatch(c: Config, column: string, values: seq<int>): (r: Config)
    requires |values| >= 4
    ensures r.Keys == c.Keys + MatchFields()
    ensures r[MatchedColumn] == VStr(column)
    ensures r[Range1Start] == VInt(values[0]) && r[Range1End] == VInt(values[1])
    ensures r[Range2Start] == VInt(values[2]) && r[Range2End] == VInt(values[3])
    ensures forall f :: f in c && f !in MatchFields() ==> r[f] == c[f]
  {
    c[MatchedColumn := VStr(column)]
     [Range1Start := VInt(values[0])][Range1End := VInt(values[1])]
     [Range2Start := VInt(values[2])][Range2End := VInt(values[3])]
  }

  /** `update_recode_with_match`: a statement with settings whose new column
      has at least four codes gets that column and the first four codes as
      its bounds; in every other case nothing changes. */
  function UpdateRecodeWithMatch(settings: Settings, meta: ValueLabels, statement: string, column: string): (r: Settings)
    requires settings.Valid()
    ensures r.Valid() && r.keys == settings.keys
    ensures forall k :: k in settings.vals && k != statement ==> r.vals[k] == settings.vals[k]
    ensures !(statement in settings.vals && AtLeast(GetValueRange(meta, column), 4)) ==> r == settings
    ensures statement in settings.vals && AtLeast(GetValueRange(meta, column), 4) ==>
              r.vals[statement] == WithMatch(settings.vals[statement], column, GetValueRange(meta, column).value)
  {
    if statement in settings.vals then
      var values := GetValueRange(meta, column);
      if values.Some? && |values.value| >= 4 then
        Put(settings, statement, WithMatch(settings.vals[statement], column, values.value))
      else settings
    else settings
  }
}
