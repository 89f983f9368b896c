/**
 * Cell-level cleaning shared by the two consolidation scripts
 * (scripts/consolidate_solvent_csv.py and scripts/consolidate_csv.py
 * define `clean_numeric_field` and `calculate_completeness` identically).
 * A CSV cell is missing (NaN/None), text, or a number that carries the
 * text `str()` gives for it; `float()` on a string is a parameter.
 */
module CsvCleaning {

  import opened Common
  import opened Text

  datatype Cell = Missing | Text(s: string) | Number(x: real, shown: string)

  /** `str(cell)`. */
  function Shown(c: Cell): string
  {
    match c
    case Missing => "nan"
    case Text(s) => s
    case Number(_, t) => t
  }

  /** Python's `float()` on a string: None where it raises ValueError. */
  type ParseFloat = string -> Option<real>

  /** The strings both scripts treat as a missing value after stripping. */
  const MissingMarkers: seq<string> := ["-", "\U{2013}", "\U{2014}", "", "nan", "NaN", "NA", "N/A"]

  /** `int(x)` on a float: truncation toward zero. */
  function Trunc(x: real): (n: int)
    ensures x >= 0.0 ==> n >= 0 && n as real <= x < n as real + 1.0
    ensures x < 0.0 ==> n <= 0 && n as real - 1.0 < x <= n as real
  {
    if x >= 0.0 then x.Floor else -((-x).Floor)
  }

  /** The maximal run of non-whitespace characters at the start of `s`. */
  function Token(s: string): (w: string)
    ensures |w| <= |s| && w == s[..|w|]
    ensures forall i :: 0 <= i < |w| ==> !IsSpace(w[i])
    ensures |s| > 0 && !IsSpace(s[0]) ==> |w| > 0
    ensures |w| < |s| ==> IsSpace(s[|w|])
  {
    if |s| == 0 || IsSpace(s[0]) then [] else [s[0]] + Token(s[1..])
  }

  /** `s.split()`: the non-empty whitespace-free words of `s`, in order. */
  predicate IsWord(w: string)
  {
    |w| > 0 && forall j :: 0 <= j < |w| ==> !IsSpace(w[j])
  }

  function Words(s: string): (ws: seq<string>)
    ensures forall i :: 0 <= i < |ws| ==> IsWord(ws[i])
    decreases |s|
  {
    var t := TrimStart(s);
    if |t| == 0 then []
    else
      var w := Token(t);
      assert IsWord(w);
      var rest := Words(t[|w|..]);
      AllWordsCons(w, rest);
      [w] + rest
  }

  lemma AllWordsCons(w: string, rest: seq<string>)
    requires IsWord(w) && forall i :: 0 <= i < |rest| ==> IsWord(rest[i])
    ensures forall i :: 0 <= i < |[w] + rest| ==> IsWord(([w] + rest)[i])
  {
    forall i | 0 <= i < |[w] + rest| ensures IsWord(([w] + rest)[i]) {
      if i > 0 { assert ([w] + rest)[i] == rest[i - 1]; }
    }
  }

  datatype FieldType = IntField | FloatField

  datatype Num = IntNum(i: int) | FloatNum(x: real)

  predicate NumNonneg(n: Num)
  {
    match n
    case IntNum(i) => i >= 0
    case FloatNum(x) => x >= 0.0
  }

  /** The conversion after the string checks: `int(float(v))` or
      `float(v)`, then the negative check. */
  function Convert(x: real, ft: FieldType, allowNegative: bool): Option<Num>
  {
    match ft
    case IntField => if !allowNegative && Trunc(x) < 0 then None else Some(IntNum(Trunc(x)))
    case FloatField => if !allowNegative && x < 0.0 then None else Some(FloatNum(x))
  }

  /** The first word that parses, truncated; no negative check. */
  function FirstInt(words: seq<string>, parse: ParseFloat): (r: Option<Num>)
    ensures r.Some? <==> exists i :: 0 <= i < |words| && parse(words[i]).Some?
    ensures r.Some? ==> exists i :: (0 <= i < |words| && parse(words[i]).Some?
      && (forall j :: 0 <= j < i ==> parse(words[j]).None?) && r == Some(IntNum(Trunc(parse(words[i]).value))))
  {
    if |words| == 0 then None
    else match parse(words[0])
      case Some(x) => Some(IntNum(Trunc(x)))
      case None =>
        var r := FirstInt(words[1..], parse);
        assert forall i :: 1 <= i < |words| ==> words[i] == words[1..][i - 1];
        r
  }

  /** `clean_numeric_field`. */
  function CleanNumericField(v: Cell, ft: FieldType, allowNegative: bool, parse: ParseFloat): Option<Num>
  {
    match v
    case Missing => None
    case Number(x, _) => Convert(x, ft, allowNegative)
    case Text(s) =>
      var t := Strip(s);
      if t in MissingMarkers then None
      else if HasChar(t, ' ') && ft == IntField then FirstInt(Words(t), parse)
      else
        match parse(t)
        case None => None
        case Some(x) => Convert(x, ft, allowNegative)
  }

  /** Missing cells and the missing-value markers give None; with
      negatives disallowed every value is non-negative, except in the
      space-separated integer branch, which takes the first word that
      parses and skips the check. */
  lemma CleanNumericMeaning(v: Cell, ft: FieldType, allowNegative: bool, parse: ParseFloat)
    ensures v.Missing? ==> CleanNumericField(v, ft, allowNegative, parse).None?
    ensures v.Text? && Strip(v.s) in MissingMarkers ==> CleanNumericField(v, ft, allowNegative, parse).None?
    ensures (
      var r := CleanNumericField(v, ft, allowNegative, parse);
      var spaced := v.Text? && HasChar(Strip(v.s), ' ') && ft == IntField;
      !allowNegative && r.Some? && !spaced ==> NumNonneg(r.value))
    ensures v.Text? && Strip(v.s) !in MissingMarkers && HasChar(Strip(v.s), ' ') && ft == IntField ==>
      CleanNumericField(v, ft, allowNegative, parse) == FirstInt(Words(Strip(v.s)), parse)
    ensures (
      var r := CleanNumericField(v, ft, allowNegative, parse);
      ft == IntField && r.Some? ==> r.value.IntNum?)
    ensures (
      var r := CleanNumericField(v, ft, allowNegative, parse);
      ft == FloatField && r.Some? ==> r.value.FloatNum?)
  {
  }

  /** "-5 3" in a non-negative integer column comes out as -5. */
  lemma SpacedNegativeKept(parse: ParseFloat)
    requires parse("-5") == Some(-5.0)
    ensures CleanNumericField(Text("-5 3"), IntField, false, parse) == Some(IntNum(-5))
  {
    SpacedText();
    SpacedWords();
  }

  lemma SpacedText()
    ensures Strip("-5 3") == "-5 3" && "-5 3" !in MissingMarkers && HasChar("-5 3", ' ')
  {
    var s := "-5 3";
    assert IsStripped(s);
    StripOfStripped(s);
    assert s[2] == ' ';
  }

  lemma SpacedWords()
    ensures |Words("-5 3")| > 0 && Words("-5 3")[0] == "-5"
  {
    var s := "-5 3";
    assert TrimStart(s) == s;
    assert s[1..][1..] == " 3";
    assert Token(" 3") == [];
    assert Token(s[1..]) == "5";
    assert Token(s) == "-5";
  }

  // -------------------------------------------------- calculate_completeness

  /** The row as `row.to_dict()` sees it: column name to cell, a later
      column of the same name winning, and a short row missing its last
      cells. */
  function RowOf(columns: seq<string>, cells: seq<Cell>): (row: map<string, Cell>)
    ensures forall c :: c in row <==> exists i :: 0 <= i < |columns| && i < |cells| && columns[i] == c
  {
    if |columns| == 0 || |cells| == 0 then map[]
    else
      var n := if |columns| < |cells| then |columns| else |cells|;
      RowOf(columns[..n - 1], cells[..n - 1])[columns[n - 1] := cells[n - 1]]
  }

  predicate Present(row: map<string, Cell>, c: string)
  {
    c in row && !row[c].Missing?
  }

  function PresentCount(row: map<string, Cell>, cols: seq<string>): (n: nat)
    ensures n <= |cols|
  {
    if |cols| == 0 then 0 else PresentCount(row, cols[..|cols| - 1]) + (if Present(row, cols[|cols| - 1]) then 1 else 0)
  }

  /** `calculate_completeness`. */
  function Completeness(row: map<string, Cell>, cols: seq<string>): real
  {
    if |cols| == 0 then 1.0 else (PresentCount(row, cols) as real) / (|cols| as real)
  }

  lemma {:induction false} PresentCountFull(row: map<string, Cell>, cols: seq<string>)
    ensures PresentCount(row, cols) == |cols| <==> forall i :: 0 <= i < |cols| ==> Present(row, cols[i])
  {
    if |cols| > 0 {
      var init := cols[..|cols| - 1];
      PresentCountFull(row, init);
      assert forall i :: 0 <= i < |init| ==> init[i] == cols[i];
    }
  }

  /** Completeness lies in [0, 1], is 1.0 for no columns, and is 1.0
      exactly when every listed column holds a value. */
  lemma CompletenessMeaning(row: map<string, Cell>, cols: seq<string>)
    ensures 0.0 <= Completeness(row, cols) <= 1.0
    ensures |cols| == 0 ==> Completeness(row, cols) == 1.0
    ensures Completeness(row, cols) == 1.0 <==> forall i :: 0 <= i < |cols| ==> Present(row, cols[i])
  {
    PresentCountFull(row, cols);
    if |cols| > 0 { RatioUnit(PresentCount(row, cols) as real, |cols| as real); }
  }

  lemma RatioUnit(a: real, n: real)
    requires 0.0 <= a <= n && n > 0.0
    ensures 0.0 <= a / n <= 1.0
    ensures a / n == 1.0 <==> a == n
  {
  }

  /** `int(completeness_ratio * 100)`. */
  function CompletenessBonus(c: real): int
  {
    Trunc(Mul(c, 100.0))
  }

  lemma CompletenessBonusBounds(c: real)
    requires 0.0 <= c <= 1.0
    ensures 0 <= CompletenessBonus(c) <= 100
    ensures c == 1.0 ==> CompletenessBonus(c) == 100
  {
  }

  /** The file weights both scripts use. */
  function FileWeight(fileName: string): (w: int)
    ensures w in {3000, 2000, 1000, 500}
  {
    if fileName == "JoshuaSchrier_Hansen-Solubility-Parameters" then 3000
    else if fileName == "HSP_Calculations" then 2000
    else if fileName == "Solvent List for calc" then 1000
    else 500
  }

  /** Whether a row is kept: `str(row['Solvent'])` cleaned is neither
      empty nor "nan" in any case. */
  predicate UsableName(name: string)
  {
    name != [] && Lower(name) != "nan"
  }

  /** A missing cell shows as "nan", which is not a usable name. */
  lemma MissingUnusable()
    ensures !UsableName(Strip(Shown(Missing)))
  {
    StripOfStripped("nan");
    assert Lower("nan") == "nan";
  }

  // ------------------------------------------------- the numeric-field loop

  datatype NumericRule = NumericRule(column: string, ft: FieldType, allowNegative: bool)

  /** The numeric-field table both scripts write, with the boiling point
      listed as "Tv". */
  const NumericFieldTable: seq<NumericRule> := [
    NumericRule("WGK", IntField, false),
    NumericRule("delta_D", FloatField, false),
    NumericRule("delta_P", FloatField, false),
    NumericRule("delta_H", FloatField, false),
    NumericRule("MWt", FloatField, false),
    NumericRule("MVol", FloatField, false),
    NumericRule("Density", FloatField, false),
    NumericRule("Tv", FloatField, true),
    NumericRule("Pv", FloatField, false),
    NumericRule("Cost", FloatField, false)
  ]

  function RuleFor(table: seq<NumericRule>, c: string): (r: Option<NumericRule>)
    ensures r.Some? ==> r.value in table && r.value.column == c
    ensures r.None? <==> forall i :: 0 <= i < |table| ==> table[i].column != c
  {
    if |table| == 0 then None
    else if table[0].column == c then Some(table[0])
    else
      var r := RuleFor(table[1..], c);
      assert forall i :: 1 <= i < |table| ==> table[i] == table[1..][i - 1];
      r
  }

  /** The rule found is the first one for the column. */
  lemma {:induction false} RuleForAt(table: seq<NumericRule>, k: nat, c: string)
    requires k < |table| && table[k].column == c
    requires forall i :: 0 <= i < k ==> table[i].column != c
    ensures RuleFor(table, c) == Some(table[k])
  {
    if k > 0 {
      assert forall i :: 0 <= i < k - 1 ==> table[1..][i] == table[i + 1];
      RuleForAt(table[1..], k - 1, c);
    }
  }

  /** A row value: a cell as read, or a cleaned number. */
  datatype Value = Raw(cell: Cell) | Cleaned(num: Option<Num>)

  /** The numeric-cleaning loop over one row. */
  function CleanRow(row: map<string, Cell>, table: seq<NumericRule>, parse: ParseFloat): (r: map<string, Value>)
    ensures r.Keys == row.Keys
  {
    map c | c in row :: if RuleFor(table, c).Some? then
      (var rule := RuleFor(table, c).value; Cleaned(CleanNumericField(row[c], rule.ft, rule.allowNegative, parse)))
      else Raw(row[c])
  }

  // ------------------------------------------------------------ files

  datatype CsvFile = CsvFile(name: string, columns: seq<string>, rows: seq<seq<Cell>>)

  function Lookup(row: map<string, Cell>, c: string): Option<Cell>
  {
    if c in row then Some(row[c]) else None
  }
}
