/** The question-type handlers: what each type accepts, which complaint it may raise, and the
    flat rows it produces. Go map iteration is an arbitrary choice of the next key. */
module Handlers {
  import opened Base
  import opened Schema
  import IdCard

  /** The complaint a handler returns; Fine is Go's empty string. */
  datatype Problem =
    | Fine | RequiredMissing | BadShape | UnknownOption | FillMissing | Duplicate | TooFew | TooMany
    | ForeignItem | ItemMissing | OutOfRange | TooLong | TooShort | BadFormat

  // ---------- text values ----------

  /** Length in UTF-16 code units. */
  function Utf16Len(s: string): nat {
    if s == [] then 0 else (if s[0] as int >= 0x10000 then 2 else 1) + Utf16Len(s[1..])
  }

  predicate FormatOk(s: string, f: Format) {
    match f
    case Plain => true
    case IdentityCard => IdCard.Valid(s)
    case Checked(accepts) => accepts(s)
  }

  predicate AtMost(n: int, bound: Option<int>) {
    bound.Some? ==> n <= bound.value
  }

  predicate AtLeast(n: int, bound: Option<int>) {
    bound.Some? ==> bound.value <= n
  }

  predicate TextAccepts(v: Json, r: TextRules) {
    v.Str? && AtLeast(Utf16Len(v.str), r.minLength) && AtMost(Utf16Len(v.str), r.maxLength) && FormatOk(v.str, r.format)
  }

  /** Type, then the upper bound, then the lower bound, then the format. */
  function TextProblem(v: Json, r: TextRules): Problem {
    if !v.Str? then BadShape
    else if !AtMost(Utf16Len(v.str), r.maxLength) then TooLong
    else if !AtLeast(Utf16Len(v.str), r.minLength) then TooShort
    else if !FormatOk(v.str, r.format) then BadFormat
    else Fine
  }

  predicate IsSpace(c: char) {
    var n := c as int;
    || 0x09 <= n <= 0x0D || n == 0x20 || n == 0x85 || n == 0xA0 || n == 0x1680
    || 0x2000 <= n <= 0x200A || n == 0x2028 || n == 0x2029 || n == 0x202F || n == 0x205F || n == 0x3000
  }

  /** strings.TrimSpace(s) == "". */
  predicate Blanked(s: string) {
    forall i :: 0 <= i < |s| ==> IsSpace(s[i])
  }

  // ---------- choices ----------

  datatype Pick = Pick(value: string, text: string)

  /** A bare option value, or an object with a string `value` and perhaps a string `text`. */
  function ReadPick(a: Json): Option<Pick> {
    match a
    case Str(s) => Some(Pick(s, ""))
    case Obj(m) =>
      if !Lookup(m, "value").Str? then None
      else
        var t := Lookup(m, "text");
        Some(Pick(Lookup(m, "value").str, if t.Str? then t.str else ""))
    case _ => None
  }

  predicate FillOk(o: ChoiceOption, text: string) {
    o.fill.Fill? && o.fill.enabled && o.fill.required ==> !Blanked(text)
  }

  /** Single choice looks the value up from the front: the first option of that value decides. */
  ghost predicate FirstOption(options: seq<ChoiceOption>, value: string, i: nat) {
    i < |options| && options[i].value == value && forall j :: 0 <= j < i ==> options[j].value != value
  }

  ghost predicate Offers(options: seq<ChoiceOption>, value: string) {
    exists o :: o in options && o.value == value
  }

  ghost predicate SingleAccepts(options: seq<ChoiceOption>, a: Json) {
    && ReadPick(a).Some?
    && exists i: nat :: FirstOption(options, ReadPick(a).value.value, i) && FillOk(options[i], ReadPick(a).value.text)
  }

  ghost predicate SingleVerdict(options: seq<ChoiceOption>, a: Json, p: Problem) {
    match ReadPick(a)
    case None => p == BadShape
    case Some(pick) =>
      if !Offers(options, pick.value) then p == UnknownOption
      else exists i: nat :: FirstOption(options, pick.value, i) && p == if FillOk(options[i], pick.text) then Fine else FillMissing
  }

  /** Multiple choice builds a map: the last option of a value decides. */
  function OptionMap(options: seq<ChoiceOption>): map<string, ChoiceOption> {
    if options == [] then map[]
    else
      var n := |options| - 1;
      OptionMap(options[..n])[options[n].value := options[n]]
  }

  lemma {:induction false} OptionMapKeys(options: seq<ChoiceOption>, value: string)
    ensures value in OptionMap(options) <==> Offers(options, value)
    ensures value in OptionMap(options) ==>
              OptionMap(options)[value] in options && OptionMap(options)[value].value == value
  {
    if options != [] {
      var n := |options| - 1;
      OptionMapKeys(options[..n], value);
      assert options == options[..n] + [options[n]];
    }
  }

  ghost function PickProblem(options: seq<ChoiceOption>, el: Json): Problem {
    match ReadPick(el)
    case None => UnknownOption
    case Some(pick) =>
      if pick.value !in OptionMap(options) then UnknownOption
      else if !FillOk(OptionMap(options)[pick.value], pick.text) then FillMissing
      else Fine
  }

  predicate PicksRead(items: seq<Json>) {
    forall i :: 0 <= i < |items| ==> ReadPick(items[i]).Some?
  }

  function PickValues(items: seq<Json>): (vs: seq<string>)
    requires PicksRead(items)
    ensures |vs| == |items|
  {
    seq(|items|, i requires 0 <= i < |items| => ReadPick(items[i]).value.value)
  }

  ghost predicate MultiAccepts(options: seq<ChoiceOption>, min: Option<int>, max: Option<int>, required: bool, a: Json) {
    && a.Arr?
    && (required ==> a.items != [])
    && (forall i :: 0 <= i < |a.items| ==> PickProblem(options, a.items[i]) == Fine)
    && Distinct(PickValues(a.items))
    && AtLeast(|a.items|, min) && AtMost(|a.items|, max)
  }

  ghost predicate MultiVerdict(options: seq<ChoiceOption>, min: Option<int>, max: Option<int>, required: bool, a: Json, p: Problem) {
    if !a.Arr? then p == BadShape
    else if required && a.items == [] then p == RequiredMissing
    else if exists i :: 0 <= i < |a.items| && PickProblem(options, a.items[i]) != Fine then
      exists i :: 0 <= i < |a.items| && PickProblem(options, a.items[i]) == p != Fine
                  && forall j :: 0 <= j < i ==> PickProblem(options, a.items[j]) == Fine
    else if !Distinct(PickValues(a.items)) then p == Duplicate
    else if !AtLeast(|a.items|, min) then p == TooFew
    else if !AtMost(|a.items|, max) then p == TooMany
    else p == Fine
  }

  method SingleChoiceValidate(options: seq<ChoiceOption>, answer: Json) returns (p: Problem)
    ensures SingleVerdict(options, answer, p)
  {
    var read := ReadPick(answer);
    if read.None? {
      return BadShape;
    }
    var pick := read.value;
    for i := 0 to |options|
      invariant forall j :: 0 <= j < i ==> options[j].value != pick.value
    {
      if options[i].value == pick.value {
        assert FirstOption(options, pick.value, i);
        assert options[i] in options;
        var o := options[i];
        if o.fill.Fill? && o.fill.enabled && o.fill.required && Blanked(pick.text) {
          return FillMissing;
        }
        return Fine;
      }
    }
    return UnknownOption;
  }

  lemma PickValuesNext(arr: seq<Json>, i: nat)
    requires i < |arr| && PicksRead(arr[..i]) && ReadPick(arr[i]).Some?
    ensures PicksRead(arr[..i + 1])
    ensures ToSet(PickValues(arr[..i + 1])) == ToSet(PickValues(arr[..i])) + {ReadPick(arr[i]).value.value}
  {
    assert PickValues(arr[..i + 1]) == PickValues(arr[..i]) + [ReadPick(arr[i]).value.value];
  }

  method MultiChoiceValidate(options: seq<ChoiceOption>, min: Option<int>, max: Option<int>, required: bool, answer: Json)
    returns (p: Problem)
    ensures MultiVerdict(options, min, max, required, answer, p)
  {
    if !answer.Arr? {
      return BadShape;
    }
    var arr := answer.items;
    if required && |arr| == 0 {
      return RequiredMissing;
    }
    var optOf := IndexOptions(options);
    var seen: set<string> := {};
    for i := 0 to |arr|
      invariant forall j :: 0 <= j < i ==> PickProblem(options, arr[j]) == Fine
      invariant PicksRead(arr[..i])
      invariant seen == ToSet(PickValues(arr[..i]))
    {
      var read := ReadPick(arr[i]);
      if read.None? || read.value.value !in optOf {
        return UnknownOption;
      }
      var pick := read.value;
      seen := seen + {pick.value};
      if !FillOk(optOf[pick.value], pick.text) {
        return FillMissing;
      }
      PickValuesNext(arr, i);
    }
    assert arr[..|arr|] == arr;
    SetSizeDecidesDistinct(PickValues(arr));
    if |seen| != |arr| {
      return Duplicate;
    }
    if min.Some? && |arr| < min.value {
      return TooFew;
    }
    if max.Some? && |arr| > max.value {
      return TooMany;
    }
    return Fine;
  }

  /** The map a loop over the options fills. */
  method IndexOptions(options: seq<ChoiceOption>) returns (optOf: map<string, ChoiceOption>)
    ensures optOf == OptionMap(options)
  {
    optOf := map[];
    for i := 0 to |options|
      invariant optOf == OptionMap(options[..i])
    {
      assert options[..i + 1][..i] == options[..i];
      optOf := optOf[options[i].value := options[i]];
    }
    assert options[..|options|] == options;
  }

  // ---------- matrices and multi-fill: a map from item id to cell ----------

  /** A non-object answer reads as no cells at all. */
  function ReadCells(a: Json): map<string, Json> {
    if a.Obj? then a.fields else map[]
  }

  predicate StrAnswered(v: Json) {
    v.Str? && v.str != ""
  }

  predicate IsGrid(kind: Kind) {
    kind.MatrixSingle? || kind.MatrixMulti? || kind.MatrixScale? || kind.MatrixFill? || kind.MatrixSlider? || kind.MultiFill?
  }

  function BlankIds(blanks: seq<Blank>): seq<string> {
    seq(|blanks|, i requires 0 <= i < |blanks| => blanks[i].id)
  }

  function ItemIds(kind: Kind): seq<string>
    requires IsGrid(kind)
  {
    if kind.MultiFill? then BlankIds(kind.blanks) else kind.rows
  }

  function BlankMap(blanks: seq<Blank>): map<string, Blank> {
    if blanks == [] then map[]
    else
      var n := |blanks| - 1;
      BlankMap(blanks[..n])[blanks[n].id := blanks[n]]
  }

  lemma {:induction false} BlankMapKeys(blanks: seq<Blank>)
    ensures BlankMap(blanks).Keys == ToSet(BlankIds(blanks))
  {
    if blanks != [] {
      var n := |blanks| - 1;
      BlankMapKeys(blanks[..n]);
      assert BlankIds(blanks) == BlankIds(blanks[..n]) + [blanks[n].id];
    }
  }

  function ScoreMap(cols: seq<ScoredColumn>): map<string, Option<real>> {
    if cols == [] then map[]
    else
      var n := |cols| - 1;
      ScoreMap(cols[..n])[cols[n].value := cols[n].score]
  }

  function ColumnValues(cols: seq<ScoredColumn>): seq<string> {
    seq(|cols|, i requires 0 <= i < |cols| => cols[i].value)
  }

  lemma {:induction false} ScoreMapKeys(cols: seq<ScoredColumn>)
    ensures ScoreMap(cols).Keys == ToSet(ColumnValues(cols))
  {
    if cols != [] {
      var n := |cols| - 1;
      ScoreMapKeys(cols[..n]);
      assert ColumnValues(cols) == ColumnValues(cols[..n]) + [cols[n].value];
    }
  }

  predicate InRange(n: real, lo: Option<real>, hi: Option<real>, defaultLo: real, defaultHi: real) {
    && (if lo.Some? then lo.value else defaultLo) <= n
    && n <= (if hi.Some? then hi.value else defaultHi)
  }

  predicate AllStrings(items: seq<Json>) {
    forall i :: 0 <= i < |items| ==> items[i].Str?
  }

  function Strings(items: seq<Json>): (ss: seq<string>)
    requires AllStrings(items)
    ensures |ss| == |items|
  {
    seq(|items|, i requires 0 <= i < |items| => items[i].str)
  }

  /** What an accepted row of a multi-select matrix looks like. */
  ghost predicate RowPicksOk(columns: seq<string>, min: Option<int>, max: Option<int>, items: seq<Json>) {
    && AllStrings(items) && (forall i :: 0 <= i < |items| ==> items[i].str in columns)
    && Distinct(Strings(items)) && AtLeast(|items|, min) && AtMost(|items|, max)
  }

  /** Cells the handler passes over without looking further. */
  ghost predicate CellSkipped(kind: Kind, v: Json)
    requires IsGrid(kind)
  {
    match kind
    case MatrixSingle(_, _) => !StrAnswered(v)
    case MatrixScale(_, _) => !StrAnswered(v)
    case MatrixMulti(_, _, _, _) => v == Null || v == Arr([])
    case MatrixSlider(_, _, _) => v == Null
    case _ => v == Null || v == Str("")
  }

  ghost predicate CellOk(kind: Kind, id: string, v: Json)
    requires IsGrid(kind)
  {
    match kind
    case MatrixSingle(rows, columns) => id in rows && v.Str? && v.str in columns
    case MatrixScale(rows, scored) => id in rows && v.Str? && v.str in ColumnValues(scored)
    case MatrixMulti(rows, columns, min, max) => id in rows && v.Arr? && RowPicksOk(columns, min, max, v.items)
    case MatrixFill(rows, maxLength) => id in rows && v.Str? && AtMost(Utf16Len(v.str), maxLength)
    case MatrixSlider(rows, lo, hi) => id in rows && v.Num? && InRange(v.num, lo, hi, 0.0, 100.0)
    case MultiFill(blanks) => id in BlankMap(blanks) && TextAccepts(v, BlankMap(blanks)[id].rules)
  }

  ghost predicate CellComplete(kind: Kind, v: Json)
    requires IsGrid(kind)
  {
    match kind
    case MatrixMulti(_, _, _, _) => v.Arr? && v.items != []
    case MatrixSlider(_, _, _) => v.Num?
    case _ => StrAnswered(v)
  }

  ghost predicate GridAccepts(kind: Kind, required: bool, cells: map<string, Json>)
    requires IsGrid(kind)
  {
    && (forall id :: id in cells ==> CellSkipped(kind, cells[id]) || CellOk(kind, id, cells[id]))
    && (required ==> forall id :: id in ItemIds(kind) ==> CellComplete(kind, Lookup(cells, id)))
  }

  ghost function RowPicksProblem(columns: seq<string>, min: Option<int>, max: Option<int>, items: seq<Json>): Problem {
    if exists i :: 0 <= i < |items| && !(items[i].Str? && items[i].str in columns) then UnknownOption
    else if !Distinct(Strings(items)) then Duplicate
    else if !AtLeast(|items|, min) then TooFew
    else if !AtMost(|items|, max) then TooMany
    else Fine
  }

  /** The complaint about one cell, in each handler's own order of checks. */
  ghost function CellProblem(kind: Kind, id: string, v: Json): Problem
    requires IsGrid(kind)
  {
    if CellSkipped(kind, v) then Fine
    else match kind
      case MatrixSingle(rows, columns) =>
        if id !in rows then ForeignItem else if v.str in columns then Fine else UnknownOption
      case MatrixScale(rows, scored) =>
        if id !in rows then ForeignItem else if v.str in ColumnValues(scored) then Fine else UnknownOption
      case MatrixMulti(rows, columns, min, max) =>
        if !v.Arr? then BadShape else if id !in rows then ForeignItem else RowPicksProblem(columns, min, max, v.items)
      case MatrixFill(rows, maxLength) =>
        if id !in rows then ForeignItem else TextProblem(v, TextRules(Plain, None, maxLength))
      case MatrixSlider(rows, lo, hi) =>
        if id !in rows then ForeignItem
        else if !v.Num? then BadShape
        else if InRange(v.num, lo, hi, 0.0, 100.0) then Fine else OutOfRange
      case MultiFill(blanks) =>
        if id !in BlankMap(blanks) then ForeignItem else TextProblem(v, BlankMap(blanks)[id].rules)
  }

  ghost predicate CleanCells(kind: Kind, cells: map<string, Json>)
    requires IsGrid(kind)
  {
    forall id :: id in cells ==> CellProblem(kind, id, cells[id]) == Fine
  }

  ghost predicate AllComplete(kind: Kind, cells: map<string, Json>)
    requires IsGrid(kind)
  {
    forall id :: id in ItemIds(kind) ==> CellComplete(kind, Lookup(cells, id))
  }

  /** Every result some enumeration of the answer map can lead to: any faulty cell may be the
      one reported; only a map without faulty cells reaches the completeness check. */
  ghost predicate GridVerdict(kind: Kind, required: bool, cells: map<string, Json>, p: Problem)
    requires IsGrid(kind)
  {
    if !CleanCells(kind, cells) then
      p != Fine && exists id :: id in cells && CellProblem(kind, id, cells[id]) == p
    else if required && !AllComplete(kind, cells) then p == ItemMissing
    else p == Fine
  }

  /** Passing does not depend on the enumeration: it is one declarative predicate. */
  lemma GridPassesIffAccepts(kind: Kind, required: bool, cells: map<string, Json>, p: Problem)
    requires IsGrid(kind) && GridVerdict(kind, required, cells, p)
    ensures p == Fine <==> GridAccepts(kind, required, cells)
  {
    forall id | id in cells
      ensures CellProblem(kind, id, cells[id]) == Fine <==> CellSkipped(kind, cells[id]) || CellOk(kind, id, cells[id])
    {
      CellFineIffOk(kind, id, cells[id]);
    }
  }

  lemma CellFineIffOk(kind: Kind, id: string, v: Json)
    requires IsGrid(kind)
    ensures CellProblem(kind, id, v) == Fine <==> CellSkipped(kind, v) || CellOk(kind, id, v)
  {
    if kind.MatrixMulti? && v.Arr? && AllStrings(v.items) {
      assert (forall i :: 0 <= i < |v.items| ==> v.items[i].str in kind.columns) <==>
             !(exists i :: 0 <= i < |v.items| && !(v.items[i].Str? && v.items[i].str in kind.columns));
    }
  }

  /** matrix-single, and matrix-scale over its column values. */
  method SelectMatrixValidate(kind: Kind, rows: seq<string>, columns: seq<string>, required: bool, answer: Json)
    returns (p: Problem)
    requires kind == MatrixSingle(rows, columns) || (kind.MatrixScale? && kind.rows == rows && ColumnValues(kind.scored) == columns)
    ensures GridVerdict(kind, required, ReadCells(answer), p)
  {
    var ans := ReadCells(answer);
    var validValues, rowIds := ToSet(columns), ToSet(rows);
    var todo := ans.Keys;
    while todo != {}
      invariant todo <= ans.Keys
      invariant forall k :: k in ans && k !in todo ==> CellProblem(kind, k, ans[k]) == Fine
    {
      var subId :| subId in todo;
      todo := todo - {subId};
      var val := ans[subId];
      if !StrAnswered(val) {
        continue;
      }
      if subId !in rowIds {
        return ForeignItem;
      }
      if val.str !in validValues {
        return UnknownOption;
      }
    }
    if required {
      for i := 0 to |rows|
        invariant forall j :: 0 <= j < i ==> StrAnswered(Lookup(ans, rows[j]))
      {
        if !StrAnswered(Lookup(ans, rows[i])) {
          return ItemMissing;
        }
      }
    }
    return Fine;
  }

  lemma StringsNext(arr: seq<Json>, i: nat)
    requires i < |arr| && AllStrings(arr[..i]) && arr[i].Str?
    ensures AllStrings(arr[..i + 1])
    ensures ToSet(Strings(arr[..i + 1])) == ToSet(Strings(arr[..i])) + {arr[i].str}
  {
    assert Strings(arr[..i + 1]) == Strings(arr[..i]) + [arr[i].str];
  }

  /** One row of a multi-select matrix. */
  method RowPicksValidate(columns: seq<string>, min: Option<int>, max: Option<int>, arr: seq<Json>) returns (p: Problem)
    ensures p == RowPicksProblem(columns, min, max, arr)
  {
    var validValues := ToSet(columns);
    var seen: set<string> := {};
    for i := 0 to |arr|
      invariant forall j :: 0 <= j < i ==> arr[j].Str? && arr[j].str in columns
      invariant AllStrings(arr[..i]) && seen == ToSet(Strings(arr[..i]))
    {
      var v := arr[i];
      if !v.Str? || v.str !in validValues {
        return UnknownOption;
      }
      seen := seen + {v.str};
      StringsNext(arr, i);
    }
    assert arr[..|arr|] == arr;
    SetSizeDecidesDistinct(Strings(arr));
    if |seen| != |arr| {
      return Duplicate;
    }
    if min.Some? && |arr| < min.value {
      return TooFew;
    }
    if max.Some? && |arr| > max.value {
      return TooMany;
    }
    return Fine;
  }

  method MatrixMultiValidate(rows: seq<string>, columns: seq<string>, min: Option<int>, max: Option<int>, required: bool, answer: Json)
    returns (p: Problem)
    ensures GridVerdict(MatrixMulti(rows, columns, min, max), required, ReadCells(answer), p)
  {
    var ans := ReadCells(answer);
    ghost var kind := MatrixMulti(rows, columns, min, max);
    var rowIds := ToSet(rows);
    var todo := ans.Keys;
    while todo != {}
      invariant todo <= ans.Keys
      invariant forall k :: k in ans && k !in todo ==> CellProblem(kind, k, ans[k]) == Fine
    {
      var subId :| subId in todo;
      todo := todo - {subId};
      var val := ans[subId];
      if val == Null {
        continue;
      }
      if !val.Arr? {
        return BadShape;
      }
      if |val.items| == 0 {
        continue;
      }
      if subId !in rowIds {
        return ForeignItem;
      }
      var q := RowPicksValidate(columns, min, max, val.items);
      if q != Fine {
        return q;
      }
    }
    if required {
      for i := 0 to |rows|
        invariant forall j :: 0 <= j < i ==> CellComplete(kind, Lookup(ans, rows[j]))
      {
        var cell := Lookup(ans, rows[i]);
        if !cell.Arr? || |cell.items| == 0 {
          return ItemMissing;
        }
        // A row that passed the loop above has its minimum, so the repeated test for it never fires.
        assert rows[i] in ans && CellProblem(kind, rows[i], cell) == Fine;
        assert AtLeast(|cell.items|, min);
      }
    }
    return Fine;
  }

  method MatrixFillValidate(rows: seq<string>, maxLength: Option<int>, required: bool, answer: Json) returns (p: Problem)
    ensures GridVerdict(MatrixFill(rows, maxLength), required, ReadCells(answer), p)
  {
    var ans := ReadCells(answer);
    ghost var kind := MatrixFill(rows, maxLength);
    var rowIds := ToSet(rows);
    var todo := ans.Keys;
    while todo != {}
      invariant todo <= ans.Keys
      invariant forall k :: k in ans && k !in todo ==> CellProblem(kind, k, ans[k]) == Fine
    {
      var subId :| subId in todo;
      todo := todo - {subId};
      var val := ans[subId];
      if val == Null || val == Str("") {
        continue;
      }
      if subId !in rowIds {
        return ForeignItem;
      }
      if !val.Str? {
        return BadShape;
      }
      if maxLength.Some? && Utf16Len(val.str) > maxLength.value {
        return TooLong;
      }
    }
    if required {
      for i := 0 to |rows|
        invariant forall j :: 0 <= j < i ==> StrAnswered(Lookup(ans, rows[j]))
      {
        if !StrAnswered(Lookup(ans, rows[i])) {
          return ItemMissing;
        }
      }
    }
    return Fine;
  }

  method MatrixSliderValidate(rows: seq<string>, lo: Option<real>, hi: Option<real>, required: bool, answer: Json)
    returns (p: Problem)
    ensures GridVerdict(MatrixSlider(rows, lo, hi), required, ReadCells(answer), p)
  {
    var ans := ReadCells(answer);
    ghost var kind := MatrixSlider(rows, lo, hi);
    var min, max := 0.0, 100.0;
    if lo.Some? {
      min := lo.value;
    }
    if hi.Some? {
      max := hi.value;
    }
    var rowIds := ToSet(rows);
    var todo := ans.Keys;
    while todo != {}
      invariant todo <= ans.Keys
      invariant forall k :: k in ans && k !in todo ==> CellProblem(kind, k, ans[k]) == Fine
    {
      var subId :| subId in todo;
      todo := todo - {subId};
      var val := ans[subId];
      if val == Null {
        continue;
      }
      if subId !in rowIds {
        return ForeignItem;
      }
      if !val.Num? {
        return BadShape;
      }
      if val.num < min || val.num > max {
        return OutOfRange;
      }
    }
    if required {
      for i := 0 to |rows|
        invariant forall j :: 0 <= j < i ==> Lookup(ans, rows[j]).Num?
      {
        if !Lookup(ans, rows[i]).Num? {
          return ItemMissing;
        }
      }
    }
    return Fine;
  }

  method IndexBlanks(blanks: seq<Blank>) returns (byId: map<string, Blank>)
    ensures byId == BlankMap(blanks)
  {
    byId := map[];
    for i := 0 to |blanks|
      invariant byId == BlankMap(blanks[..i])
    {
      assert blanks[..i + 1][..i] == blanks[..i];
      byId := byId[blanks[i].id := blanks[i]];
    }
    assert blanks[..|blanks|] == blanks;
  }

  method MultiFillValidate(blanks: seq<Blank>, required: bool, answer: Json) returns (p: Problem)
    ensures GridVerdict(MultiFill(blanks), required, ReadCells(answer), p)
  {
    var ans := ReadCells(answer);
    ghost var kind := MultiFill(blanks);
    var byId := IndexBlanks(blanks);
    var todo := ans.Keys;
    while todo != {}
      invariant todo <= ans.Keys
      invariant forall k :: k in ans && k !in todo ==> CellProblem(kind, k, ans[k]) == Fine
    {
      var subId :| subId in todo;
      todo := todo - {subId};
      var val := ans[subId];
      if val == Null || val == Str("") {
        continue;
      }
      if subId !in byId {
        return ForeignItem;
      }
      var q := TextProblem(val, byId[subId].rules);
      if q != Fine {
        return q;
      }
    }
    if required {
      for i := 0 to |blanks|
        invariant forall j :: 0 <= j < i ==> StrAnswered(Lookup(ans, blanks[j].id))
      {
        if !StrAnswered(Lookup(ans, blanks[i].id)) {
          assert BlankIds(blanks)[i] == blanks[i].id;
          return ItemMissing;
        }
      }
    }
    return Fine;
  }

  // ---------- all kinds together ----------

  ghost predicate ScaleAccepts(lo: Option<real>, hi: Option<real>, a: Json) {
    a.Num? && a.num.Floor as real == a.num && InRange(a.num, lo, hi, 1.0, 5.0)
  }

  /** What each registered type accepts. An unregistered type is never validated. */
  ghost predicate Accepts(kind: Kind, required: bool, a: Json) {
    match kind
    case SingleChoice(options) => SingleAccepts(options, a)
    case MultiChoice(options, min, max) => MultiAccepts(options, min, max, required, a)
    case Dropdown(values) => a.Str? && (a.str == "" || a.str in values)
    case Scale(lo, hi) => ScaleAccepts(lo, hi, a)
    case TextInput(rules) => TextAccepts(a, rules)
    case Textarea(minLength, maxLength) => TextAccepts(a, TextRules(Plain, minLength, maxLength))
    case Unregistered => true
    case _ => GridAccepts(kind, required, ReadCells(a))
  }

  /** The results a handler may return. */
  ghost predicate Verdict(kind: Kind, required: bool, a: Json, p: Problem) {
    match kind
    case SingleChoice(options) => SingleVerdict(options, a, p)
    case MultiChoice(options, min, max) => MultiVerdict(options, min, max, required, a, p)
    case Dropdown(values) =>
      p == (if !a.Str? then BadShape else if a.str == "" || a.str in values then Fine else UnknownOption)
    case Scale(lo, hi) =>
      p == (if !a.Num? || a.num.Floor as real != a.num then BadShape
            else if InRange(a.num, lo, hi, 1.0, 5.0) then Fine else OutOfRange)
    case TextInput(rules) => p == TextProblem(a, rules)
    case Textarea(minLength, maxLength) => p == TextProblem(a, TextRules(Plain, minLength, maxLength))
    case Unregistered => p == Fine
    case _ => GridVerdict(kind, required, ReadCells(a), p)
  }

  method DropdownValidate(values: seq<string>, answer: Json) returns (p: Problem)
    ensures Verdict(Dropdown(values), false, answer, p)
  {
    if !answer.Str? {
      return BadShape;
    }
    if answer.str == "" {
      return Fine;
    }
    for i := 0 to |values|
      invariant forall j :: 0 <= j < i ==> values[j] != answer.str
    {
      if values[i] == answer.str {
        return Fine;
      }
    }
    return UnknownOption;
  }

  method Validate(q: Question, answer: Json) returns (p: Problem)
    ensures Verdict(q.kind, q.required, answer, p)
  {
    match q.kind {
      case SingleChoice(options) => p := SingleChoiceValidate(options, answer);
      case MultiChoice(options, min, max) => p := MultiChoiceValidate(options, min, max, q.required, answer);
      case Dropdown(values) => p := DropdownValidate(values, answer);
      case Scale(lo, hi) =>
        var min, max := 1.0, 5.0;
        if lo.Some? {
          min := lo.value;
        }
        if hi.Some? {
          max := hi.value;
        }
        if !answer.Num? || answer.num.Floor as real != answer.num {
          return BadShape;
        }
        p := if answer.num < min || answer.num > max then OutOfRange else Fine;
      case TextInput(rules) => p := TextProblem(answer, rules);
      case Textarea(minLength, maxLength) => p := TextProblem(answer, TextRules(Plain, minLength, maxLength));
      case MatrixSingle(rows, columns) => p := SelectMatrixValidate(q.kind, rows, columns, q.required, answer);
      case MatrixScale(rows, scored) => p := SelectMatrixValidate(q.kind, rows, ColumnValues(scored), q.required, answer);
      case MatrixMulti(rows, columns, min, max) => p := MatrixMultiValidate(rows, columns, min, max, q.required, answer);
      case MatrixFill(rows, maxLength) => p := MatrixFillValidate(rows, maxLength, q.required, answer);
      case MatrixSlider(rows, lo, hi) => p := MatrixSliderValidate(rows, lo, hi, q.required, answer);
      case MultiFill(blanks) => p := MultiFillValidate(blanks, q.required, answer);
      case Unregistered => p := Fine;
    }
  }

  /** Whichever complaint is raised, whether one is raised is decided by Accepts alone. */
  lemma PassesIffAccepts(kind: Kind, required: bool, a: Json, p: Problem)
    requires Verdict(kind, required, a, p)
    ensures p == Fine <==> Accepts(kind, required, a)
  {
    match kind {
      case SingleChoice(options) => SinglePassesIffAccepts(options, a, p);
      case MultiChoice(options, _, _) =>
      case Dropdown(_) =>
      case Scale(_, _) =>
      case TextInput(_) =>
      case Textarea(_, _) =>
      case Unregistered =>
      case _ => GridPassesIffAccepts(kind, required, ReadCells(a), p);
    }
  }

  lemma SinglePassesIffAccepts(options: seq<ChoiceOption>, a: Json, p: Problem)
    requires SingleVerdict(options, a, p)
    ensures p == Fine <==> SingleAccepts(options, a)
  {
  }
}
