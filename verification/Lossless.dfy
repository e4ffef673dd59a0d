/** Rows keep everything a validated answer says: a decoder rebuilds the answer from them. */
module Lossless {
  import opened Base
  import opened Schema
  import opened Handlers
  import opened Rows

  // ---------- canonical answers ----------

  /** An option with an empty text is the same pick as the bare option value. */
  function CanonicalPick(el: Json): Json {
    match ReadPick(el)
    case None => el
    case Some(pick) => PickJson(pick)
  }

  function PickJson(pick: Pick): Json {
    if pick.text == "" then Str(pick.value)
    else Obj(map["value" := Str(pick.value), "text" := Str(pick.text)])
  }

  /** The meaning of an accepted answer: picks in canonical form, unanswered cells dropped. */
  ghost function Canonical(kind: Kind, a: Json): Json {
    match kind
    case SingleChoice(_) => CanonicalPick(a)
    case MultiChoice(_, _, _) => if a.Arr? then Arr(CanonicalPicks(a.items)) else a
    case Dropdown(_) => a
    case Scale(_, _) => a
    case TextInput(_) => a
    case Textarea(_, _) => a
    case Unregistered => a
    case _ => Obj(KeptCells(kind, ReadCells(a)))
  }

  function CanonicalPicks(items: seq<Json>): seq<Json> {
    seq(|items|, i requires 0 <= i < |items| => CanonicalPick(items[i]))
  }

  ghost function KeptCells(kind: Kind, cells: map<string, Json>): map<string, Json>
    requires IsGrid(kind)
  {
    map id | id in cells && CellComplete(kind, cells[id]) :: cells[id]
  }

  // ---------- the decoder ----------

  function TextOf(v: Value): string {
    match v
    case Text(s) => s
    case Number(_) => ""
  }

  function DecodePicks(rows: seq<NormalizedRow>): seq<Json> {
    if rows == [] then []
    else
      var n := |rows| - 1;
      if n > 0 && rows[n].subId != "" then
        DecodePicks(rows[..n - 1]) + [PickJson(Pick(TextOf(rows[n - 1].value), TextOf(rows[n].value)))]
      else
        DecodePicks(rows[..n]) + [Str(TextOf(rows[n].value))]
  }

  function RowsAt(rows: seq<NormalizedRow>, subId: string): seq<NormalizedRow> {
    if rows == [] then []
    else
      var n := |rows| - 1;
      RowsAt(rows[..n], subId) + if rows[n].subId == subId then [rows[n]] else []
  }

  function SubIds(rows: seq<NormalizedRow>): set<string> {
    set r | r in rows :: r.subId
  }

  function TextItems(rows: seq<NormalizedRow>): seq<Json> {
    seq(|rows|, i requires 0 <= i < |rows| => Str(TextOf(rows[i].value)))
  }

  /** A non-empty column value with the given score. */
  ghost function ColumnOf(scores: map<string, Option<real>>, x: real): string {
    if exists v :: v in scores && v != "" && scores[v] == Some(x)
    then var v :| v in scores && v != "" && scores[v] == Some(x); v
    else ""
  }

  ghost function DecodeCell(kind: Kind, rows: seq<NormalizedRow>): Json
    requires rows != []
  {
    match kind
    // Repeated row ids repeat the whole row; the first occurrence of each pick is the row itself.
    case MatrixMulti(_, _, _, _) => SetSizeDecidesDistinct(TextItems(rows)); Arr(TextItems(rows)[..|ToSet(TextItems(rows))|])
    case MatrixSlider(_, _, _) => if rows[0].value.Number? then Num(rows[0].value.number) else Null
    case MatrixScale(_, scored) =>
      if rows[0].value.Number? then Str(ColumnOf(ScoreMap(scored), rows[0].value.number)) else Str(TextOf(rows[0].value))
    case _ => Str(TextOf(rows[0].value))
  }

  lemma {:induction false} SubIdHasRows(rows: seq<NormalizedRow>, id: string)
    ensures RowsAt(rows, id) != [] <==> id in SubIds(rows)
  {
    if rows != [] {
      var n := |rows| - 1;
      SubIdHasRows(rows[..n], id);
      assert rows == rows[..n] + [rows[n]];
      assert SubIds(rows) == SubIds(rows[..n]) + {rows[n].subId};
    }
  }

  ghost function DecodeGrid(kind: Kind, rows: seq<NormalizedRow>): map<string, Json> {
    map id | id in SubIds(rows) :: (SubIdHasRows(rows, id); DecodeCell(kind, RowsAt(rows, id)))
  }

  ghost function Decode(kind: Kind, rows: seq<NormalizedRow>): Json {
    match kind
    case SingleChoice(_) => if DecodePicks(rows) == [] then Null else DecodePicks(rows)[0]
    case MultiChoice(_, _, _) => Arr(DecodePicks(rows))
    case Scale(_, _) => if rows != [] && rows[0].value.Number? then Num(rows[0].value.number) else Null
    case Dropdown(_) => Str(if rows == [] then "" else TextOf(rows[0].value))
    case TextInput(_) => Str(if rows == [] then "" else TextOf(rows[0].value))
    case Textarea(_, _) => Str(if rows == [] then "" else TextOf(rows[0].value))
    case Unregistered => Null
    case _ => Obj(DecodeGrid(kind, rows))
  }

  // ---------- what the props must satisfy ----------

  /** Some non-empty selection out of n values respects the bounds. */
  ghost predicate CanPick(min: Option<int>, max: Option<int>, n: nat) {
    exists k: nat :: 1 <= k <= n && AtLeast(k, min) && AtMost(k, max)
  }

  /** No two column values that can be answered share a score. */
  ghost predicate ScoresDistinguish(scored: seq<ScoredColumn>) {
    forall u, v :: u in ScoreMap(scored) && v in ScoreMap(scored) && u != "" && v != "" && u != v ==>
      ScoreMap(scored)[u].None? || ScoreMap(scored)[u] != ScoreMap(scored)[v]
  }

  /** What the props must satisfy for rows to keep the answer: the empty string is not a value
      that can be picked, and scores tell columns apart. */
  ghost predicate Recoverable(kind: Kind) {
    match kind
    case SingleChoice(options) => !Offers(options, "")
    case MultiChoice(options, min, max) => !Offers(options, "") || !CanPick(min, max, |OptionMap(options)|)
    case MatrixMulti(rows, columns, min, max) => rows == [] || "" !in columns || !CanPick(min, max, |ToSet(columns)|)
    case MatrixScale(rows, scored) => rows == [] || ScoresDistinguish(scored)
    case Unregistered => false
    case _ => true
  }

  // ---------- picks ----------

  function PickAsRows(qid: string, pick: Pick, subId: string): seq<NormalizedRow> {
    [TextRow(qid, "", pick.value)] + if pick.text == "" then [] else [TextRow(qid, subId, pick.text)]
  }

  lemma PickDecodes(init: seq<NormalizedRow>, qid: string, pick: Pick, subId: string)
    requires subId != ""
    ensures DecodePicks(init + PickAsRows(qid, pick, subId)) == DecodePicks(init) + [PickJson(pick)]
  {
  }

  /** Accepted picks are distinct option values, so there are no more of them than values. */
  lemma PicksBounded(options: seq<ChoiceOption>, items: seq<Json>)
    requires forall i :: 0 <= i < |items| ==> PickProblem(options, items[i]) == Fine
    requires PicksRead(items) && Distinct(PickValues(items))
    ensures |items| <= |OptionMap(options)|
  {
    var vs := PickValues(items);
    SetSizeDecidesDistinct(vs);
    forall v | v in vs ensures v in OptionMap(options).Keys {
      var i :| 0 <= i < |vs| && vs[i] == v;
      assert PickProblem(options, items[i]) == Fine;
    }
    Subset(ToSet(vs), OptionMap(options).Keys);
    assert |OptionMap(options).Keys| == |OptionMap(options)|;
  }

  lemma {:induction false} Subset<T>(a: set<T>, b: set<T>)
    requires a <= b
    ensures |a| <= |b|
  {
    if a != {} {
      var x :| x in a;
      Subset(a - {x}, b - {x});
    }
  }

  predicate NamedPick(el: Json) {
    ReadPick(el).Some? && ReadPick(el).value.value != ""
  }

  lemma AcceptedPickNamed(options: seq<ChoiceOption>, el: Json)
    requires !Offers(options, "") && PickProblem(options, el) == Fine
    ensures NamedPick(el)
  {
    OptionMapKeys(options, ReadPick(el).value.value);
  }

  lemma PickRowsOf(qid: string, el: Json)
    requires NamedPick(el)
    ensures var pick := ReadPick(el).value;
            PickRows(qid, el) == PickAsRows(qid, pick, FillSubId(pick.value)) && FillSubId(pick.value) != ""
  {
  }

  lemma {:induction false} PicksDecode(qid: string, items: seq<Json>)
    requires forall i :: 0 <= i < |items| ==> NamedPick(items[i])
    ensures DecodePicks(MultiRows(qid, items)) == CanonicalPicks(items)
  {
    if items != [] {
      var n := |items| - 1;
      var el := items[n];
      PicksDecode(qid, items[..n]);
      PickRowsOf(qid, el);
      PickDecodes(MultiRows(qid, items[..n]), qid, ReadPick(el).value, FillSubId(ReadPick(el).value.value));
      CanonicalPicksStep(items);
    }
  }

  lemma CanonicalPicksStep(items: seq<Json>)
    requires items != []
    ensures CanonicalPicks(items) == CanonicalPicks(items[..|items| - 1]) + [CanonicalPick(items[|items| - 1])]
  {
  }

  lemma SingleDecodes(options: seq<ChoiceOption>, qid: string, a: Json)
    requires !Offers(options, "") && SingleAccepts(options, a)
    ensures Decode(SingleChoice(options), SingleRows(qid, a)) == CanonicalPick(a)
  {
    var pick := ReadPick(a).value;
    var i: nat :| FirstOption(options, pick.value, i);
    assert options[i] in options;
    PickDecodes([], qid, pick, "fill");
    assert SingleRows(qid, a) == [] + PickAsRows(qid, pick, "fill");
  }

  // ---------- grids ----------

  lemma {:induction false} RowsAtConcat(xs: seq<NormalizedRow>, ys: seq<NormalizedRow>, id: string)
    ensures RowsAt(xs + ys, id) == RowsAt(xs, id) + RowsAt(ys, id)
  {
    if ys == [] {
      assert xs + ys == xs;
    } else {
      var n := |ys| - 1;
      assert (xs + ys)[..|xs + ys| - 1] == xs + ys[..n];
      RowsAtConcat(xs, ys[..n], id);
    }
  }

  lemma {:induction false} RowsAtUniform(rows: seq<NormalizedRow>, own: string, id: string)
    requires forall r :: r in rows ==> r.subId == own
    ensures RowsAt(rows, id) == if own == id then rows else []
  {
    if rows != [] {
      var n := |rows| - 1;
      assert rows == rows[..n] + [rows[n]];
      RowsAtUniform(rows[..n], own, id);
    }
  }

  lemma {:induction false} CellRowsNamed(kind: Kind, qid: string, id: string, v: Json)
    ensures forall r :: r in CellRows(kind, qid, id, v) ==> r.qid == qid && r.subId == id
  {
    if kind.MatrixMulti? && v.Arr? {
      StringRowsNamed(qid, id, v.items);
    }
  }

  lemma {:induction false} StringRowsNamed(qid: string, id: string, items: seq<Json>)
    ensures forall r :: r in StringRows(qid, id, items) ==> r.qid == qid && r.subId == id
  {
    if items != [] {
      StringRowsNamed(qid, id, items[..|items| - 1]);
    }
  }

  /** The rows under one listed item id start with that cell's rows and hold no others. */
  ghost predicate Found(cell: seq<NormalizedRow>, at: seq<NormalizedRow>, ids: seq<string>, id: string) {
    && (id !in ids ==> at == [])
    && (id in ids ==> cell <= at)
    && (id in ids && cell == [] ==> at == [])
    && (forall r :: r in at ==> r in cell)
  }

  lemma FoundStep(cell: seq<NormalizedRow>, at: seq<NormalizedRow>, ids: seq<string>, last: string, id: string)
    requires Found(cell, at, ids, id)
    ensures Found(cell, at + if last == id then cell else [], ids + [last], id)
  {
  }

  lemma GridRowsAtStep(kind: Kind, qid: string, ids: seq<string>, last: string, cells: map<string, Json>, id: string)
    ensures RowsAt(GridRows(kind, qid, ids + [last], cells), id) ==
            RowsAt(GridRows(kind, qid, ids, cells), id) + if last == id then CellRows(kind, qid, id, Lookup(cells, id)) else []
  {
    var own := CellRows(kind, qid, last, Lookup(cells, last));
    assert (ids + [last])[..|ids|] == ids;
    RowsAtConcat(GridRows(kind, qid, ids, cells), own, id);
    CellRowsNamed(kind, qid, last, Lookup(cells, last));
    RowsAtUniform(own, last, id);
  }

  lemma {:induction false} CellFound(kind: Kind, qid: string, ids: seq<string>, cells: map<string, Json>, id: string)
    ensures Found(CellRows(kind, qid, id, Lookup(cells, id)), RowsAt(GridRows(kind, qid, ids, cells), id), ids, id)
  {
    if ids == [] {
      assert GridRows(kind, qid, ids, cells) == [];
    } else {
      var init, last := ids[..|ids| - 1], ids[|ids| - 1];
      assert ids == init + [last];
      CellFound(kind, qid, init, cells, id);
      GridRowsAtStep(kind, qid, init, last, cells, id);
      FoundStep(CellRows(kind, qid, id, Lookup(cells, id)), RowsAt(GridRows(kind, qid, init, cells), id), init, last, id);
    }
  }

  lemma {:induction false} StringRowsDecode(qid: string, id: string, items: seq<Json>)
    requires forall i :: 0 <= i < |items| ==> StrAnswered(items[i])
    ensures |StringRows(qid, id, items)| == |items|
    ensures TextItems(StringRows(qid, id, items)) == items
  {
    if items != [] {
      var n := |items| - 1;
      StringRowsDecode(qid, id, items[..n]);
      var init := StringRows(qid, id, items[..n]);
      assert TextItems(StringRows(qid, id, items)) == TextItems(init) + [items[n]];
      assert items == items[..n] + [items[n]];
    }
  }

  /** A multi-select row's distinct picks come back out of any repetition of its rows. */
  lemma RepeatedPicksDecode(qid: string, id: string, items: seq<Json>, rows: seq<NormalizedRow>)
    requires AllStrings(items) && Distinct(Strings(items))
    requires forall i :: 0 <= i < |items| ==> StrAnswered(items[i])
    requires StringRows(qid, id, items) <= rows
    requires forall r :: r in rows ==> r in StringRows(qid, id, items)
    ensures |ToSet(TextItems(rows))| == |items| <= |rows|
    ensures TextItems(rows)[..|items|] == items
  {
    var cell := StringRows(qid, id, items);
    StringRowsDecode(qid, id, items);
    assert forall i :: 0 <= i < |cell| ==> rows[i] == cell[i];
    assert forall i :: 0 <= i < |items| ==> TextItems(rows)[i] == TextItems(cell)[i];
    assert Distinct(items) by {
      assert forall i :: 0 <= i < |items| ==> Strings(items)[i] == items[i].str;
    }
    SetSizeDecidesDistinct(items);
    assert ToSet(TextItems(rows)) == ToSet(items) by {
      forall x | x in TextItems(rows) ensures x in items {
        var i :| 0 <= i < |rows| && TextItems(rows)[i] == x;
        assert rows[i] in cell;
        var j :| 0 <= j < |cell| && cell[j] == rows[i];
        assert TextItems(cell)[j] == x;
      }
      forall x | x in items ensures x in TextItems(rows) {
        var i :| 0 <= i < |items| && items[i] == x;
        assert TextItems(rows)[i] == x;
      }
    }
  }

  lemma RowPicksBounded(columns: seq<string>, min: Option<int>, max: Option<int>, items: seq<Json>)
    requires RowPicksOk(columns, min, max, items)
    ensures |items| <= |ToSet(columns)|
  {
    SetSizeDecidesDistinct(Strings(items));
    Subset(ToSet(Strings(items)), ToSet(columns));
  }

  /** A complete accepted cell has rows, and any repetition of them decodes to the cell. */
  lemma CellDecodes(kind: Kind, qid: string, id: string, v: Json, rows: seq<NormalizedRow>)
    requires IsGrid(kind) && Recoverable(kind)
    requires CellComplete(kind, v) && CellOk(kind, id, v)
    requires CellRows(kind, qid, id, v) <= rows
    requires forall r :: r in rows ==> r in CellRows(kind, qid, id, v)
    ensures CellRows(kind, qid, id, v) != [] && rows != [] && DecodeCell(kind, rows) == v
  {
    if kind.MatrixMulti? {
      RowPicksBounded(kind.columns, kind.min, kind.max, v.items);
      assert "" !in kind.columns;
      forall i | 0 <= i < |v.items| ensures StrAnswered(v.items[i]) {
        assert v.items[i].str in kind.columns;
      }
      StringRowsDecode(qid, id, v.items);
      RepeatedPicksDecode(qid, id, v.items, rows);
    } else {
      assert rows[0] == CellRows(kind, qid, id, v)[0];
      if kind.MatrixScale? {
        ScoreMapKeys(kind.scored);
      }
    }
  }

  lemma CellOkListed(kind: Kind, id: string, v: Json)
    requires IsGrid(kind) && CellOk(kind, id, v)
    ensures id in ItemIds(kind)
  {
    if kind.MultiFill? {
      BlankMapKeys(kind.blanks);
    }
  }

  /** Without a complete cell there are no rows. */
  lemma {:induction false} IncompleteHasNoRows(kind: Kind, qid: string, id: string, v: Json)
    requires IsGrid(kind) && !CellComplete(kind, v)
    ensures CellRows(kind, qid, id, v) == []
  {
  }

  /** Rows name an item exactly when its cell is kept, and decode to that cell. */
  ghost predicate DecodesAt(kind: Kind, rows: seq<NormalizedRow>, cells: map<string, Json>, id: string)
    requires IsGrid(kind)
  {
    var at := RowsAt(rows, id);
    (at != [] <==> id in cells && CellComplete(kind, cells[id])) && (at != [] ==> DecodeCell(kind, at) == cells[id])
  }

  lemma GridCellDecodes(kind: Kind, required: bool, qid: string, cells: map<string, Json>, id: string)
    requires IsGrid(kind) && Recoverable(kind) && GridAccepts(kind, required, cells)
    ensures DecodesAt(kind, GridRows(kind, qid, ItemIds(kind), cells), cells, id)
  {
    var v := Lookup(cells, id);
    CellFound(kind, qid, ItemIds(kind), cells, id);
    if id in cells && CellComplete(kind, v) {
      assert CellOk(kind, id, v);
      CellOkListed(kind, id, v);
      CellDecodes(kind, qid, id, v, RowsAt(GridRows(kind, qid, ItemIds(kind), cells), id));
    } else {
      IncompleteHasNoRows(kind, qid, id, v);
    }
  }

  lemma {:induction false} CellsMakeGrid(kind: Kind, rows: seq<NormalizedRow>, cells: map<string, Json>)
    requires IsGrid(kind) && forall id :: DecodesAt(kind, rows, cells, id)
    ensures DecodeGrid(kind, rows) == KeptCells(kind, cells)
  {
    forall id
      ensures id in SubIds(rows) <==> id in KeptCells(kind, cells)
      ensures id in SubIds(rows) ==> DecodeGrid(kind, rows)[id] == cells[id]
    {
      SubIdHasRows(rows, id);
      assert DecodesAt(kind, rows, cells, id);
    }
  }

  lemma {:induction false} GridDecodes(kind: Kind, required: bool, qid: string, cells: map<string, Json>)
    requires IsGrid(kind) && Recoverable(kind) && GridAccepts(kind, required, cells)
    ensures DecodeGrid(kind, GridRows(kind, qid, ItemIds(kind), cells)) == KeptCells(kind, cells)
  {
    var rows := GridRows(kind, qid, ItemIds(kind), cells);
    forall id ensures DecodesAt(kind, rows, cells, id) {
      GridCellDecodes(kind, required, qid, cells, id);
    }
    CellsMakeGrid(kind, rows, cells);
  }

  /** Lossless normalisation of one answer: what a handler accepts can be rebuilt from its rows. */
  lemma AnswerDecodes(kind: Kind, required: bool, qid: string, a: Json)
    requires Recoverable(kind) && Accepts(kind, required, a)
    ensures Decode(kind, AnswerRows(kind, qid, a)) == Canonical(kind, a)
  {
    if IsGrid(kind) {
      GridDecodes(kind, required, qid, ReadCells(a));
    } else if kind.SingleChoice? {
      SingleDecodes(kind.options, qid, a);
    } else if kind.MultiChoice? {
      PicksBounded(kind.options, a.items);
      assert a.items != [] ==> !Offers(kind.options, "");
      forall i | 0 <= i < |a.items| ensures NamedPick(a.items[i]) {
        AcceptedPickNamed(kind.options, a.items[i]);
      }
      PicksDecode(qid, a.items);
    }
  }

  // ---------- canonical form loses nothing ----------

  /** The canonical form is itself accepted, reads back as itself, and has the same rows. */
  lemma CanonicalFaithful(kind: Kind, required: bool, qid: string, a: Json)
    requires Accepts(kind, required, a)
    ensures Accepts(kind, required, Canonical(kind, a))
    ensures Canonical(kind, Canonical(kind, a)) == Canonical(kind, a)
    ensures AnswerRows(kind, qid, Canonical(kind, a)) == AnswerRows(kind, qid, a)
  {
    if IsGrid(kind) {
      GridCanonical(kind, required, qid, ReadCells(a));
    } else if kind.SingleChoice? {
      CanonicalPickReadsBack(a);
    } else if kind.MultiChoice? {
      MultiCanonical(kind.options, kind.min, kind.max, required, qid, a);
    }
  }

  lemma CanonicalPickReadsBack(el: Json)
    ensures ReadPick(CanonicalPick(el)) == ReadPick(el)
  {
  }

  lemma MultiCanonical(options: seq<ChoiceOption>, min: Option<int>, max: Option<int>, required: bool, qid: string, a: Json)
    requires MultiAccepts(options, min, max, required, a)
    ensures MultiAccepts(options, min, max, required, Arr(CanonicalPicks(a.items)))
    ensures CanonicalPicks(CanonicalPicks(a.items)) == CanonicalPicks(a.items)
    ensures MultiRows(qid, CanonicalPicks(a.items)) == MultiRows(qid, a.items)
  {
    var items, canon := a.items, CanonicalPicks(a.items);
    forall i | 0 <= i < |items|
      ensures ReadPick(canon[i]) == ReadPick(items[i]) && PickProblem(options, canon[i]) == Fine
    {
      CanonicalPickReadsBack(items[i]);
      assert PickProblem(options, items[i]) == Fine;
    }
    assert PickValues(canon) == PickValues(items);
    MultiRowsCanonical(qid, items);
  }

  lemma GridCanonical(kind: Kind, required: bool, qid: string, cells: map<string, Json>)
    requires IsGrid(kind) && GridAccepts(kind, required, cells)
    ensures GridAccepts(kind, required, KeptCells(kind, cells))
    ensures KeptCells(kind, KeptCells(kind, cells)) == KeptCells(kind, cells)
    ensures GridRows(kind, qid, ItemIds(kind), KeptCells(kind, cells)) == GridRows(kind, qid, ItemIds(kind), cells)
  {
    GridRowsCanonical(kind, qid, ItemIds(kind), cells);
    if required {
      forall id | id in ItemIds(kind) ensures CellComplete(kind, Lookup(KeptCells(kind, cells), id)) {
        assert CellComplete(kind, Lookup(cells, id));
      }
    }
  }

  lemma {:induction false} MultiRowsCanonical(qid: string, items: seq<Json>)
    ensures MultiRows(qid, CanonicalPicks(items)) == MultiRows(qid, items)
  {
    if items != [] {
      var n := |items| - 1;
      MultiRowsCanonical(qid, items[..n]);
      assert CanonicalPicks(items)[..n] == CanonicalPicks(items[..n]);
    }
  }

  lemma {:induction false} GridRowsCanonical(kind: Kind, qid: string, ids: seq<string>, cells: map<string, Json>)
    requires IsGrid(kind)
    ensures GridRows(kind, qid, ids, KeptCells(kind, cells)) == GridRows(kind, qid, ids, cells)
  {
    if ids != [] {
      var n := |ids| - 1;
      GridRowsCanonical(kind, qid, ids[..n], cells);
      if !CellComplete(kind, Lookup(cells, ids[n])) {
        IncompleteHasNoRows(kind, qid, ids[n], Lookup(cells, ids[n]));
        IncompleteHasNoRows(kind, qid, ids[n], Null);
      }
    }
  }
}
