/** The rows each question type leaves, spelt out. */
module RowShapes {
  import opened Base
  import opened Schema
  import opened Handlers
  import opened Rows
  import opened Acceptance

  // ---------- one item, and one after another ----------

  lemma MultiSnoc(qid: string, items: seq<Json>, el: Json)
    ensures MultiRows(qid, items + [el]) == MultiRows(qid, items) + PickRows(qid, el)
  {
    assert (items + [el])[..|items|] == items;
  }

  lemma GridSnoc(kind: Kind, qid: string, ids: seq<string>, id: string, cells: map<string, Json>)
    ensures GridRows(kind, qid, ids + [id], cells) == GridRows(kind, qid, ids, cells) + CellRows(kind, qid, id, Lookup(cells, id))
  {
    assert (ids + [id])[..|ids|] == ids;
  }

  lemma {:induction false} MultiConcat(qid: string, xs: seq<Json>, ys: seq<Json>)
    ensures MultiRows(qid, xs + ys) == MultiRows(qid, xs) + MultiRows(qid, ys)
  {
    var f, own := (zs: seq<Json>) => MultiRows(qid, zs), (el: Json) => PickRows(qid, el);
    forall zs: seq<Json>, z: Json ensures f(zs + [z]) == f(zs) + own(z) {
      MultiSnoc(qid, zs, z);
    }
    BuiltInOrder(f, own, xs, ys);
    assert f(xs + ys) == MultiRows(qid, xs + ys);
  }

  lemma {:induction false} GridConcat(kind: Kind, qid: string, xs: seq<string>, ys: seq<string>, cells: map<string, Json>)
    ensures GridRows(kind, qid, xs + ys, cells) == GridRows(kind, qid, xs, cells) + GridRows(kind, qid, ys, cells)
  {
    var f := (ids: seq<string>) => GridRows(kind, qid, ids, cells);
    var own := (id: string) => CellRows(kind, qid, id, Lookup(cells, id));
    forall ids: seq<string>, id: string ensures f(ids + [id]) == f(ids) + own(id) {
      GridSnoc(kind, qid, ids, id, cells);
    }
    BuiltInOrder(f, own, xs, ys);
    assert f(xs + ys) == GridRows(kind, qid, xs + ys, cells);
  }

  lemma OnePick(options: seq<ChoiceOption>, min: Option<int>, max: Option<int>, qid: string, el: Json)
    ensures AnswerRows(MultiChoice(options, min, max), qid, Arr([el])) == PickRows(qid, el)
  {
    MultiSnoc(qid, [], el);
    assert [] + [el] == [el];
  }

  lemma OneItem(kind: Kind, qid: string, id: string, a: Json)
    requires IsGrid(kind) && ItemIds(kind) == [id]
    ensures AnswerRows(kind, qid, a) == CellRows(kind, qid, id, Lookup(Cells(a), id))
  {
    GridSnoc(kind, qid, [], id, Cells(a));
    assert [] + [id] == [id];
    assert Cells(a) == ReadCells(a);
  }

  // ---------- single answers ----------

  /** A text, a dropdown value or a number leaves one row without a sub id; the empty string and
      anything of the wrong type leave none, and so does a type that is not registered. */
  lemma ScalarShape(kind: Kind, qid: string, a: Json)
    ensures kind.TextInput? || kind.Textarea? || kind.Dropdown? ==>
              AnswerRows(kind, qid, a) ==
              (if a.Str? && a.str != "" then [NormalizedRow(qid, "", Value.Text(a.str))] else [])
    ensures kind.Scale? ==>
              AnswerRows(kind, qid, a) == (if a.Num? then [NormalizedRow(qid, "", Number(a.num))] else [])
    ensures kind.Unregistered? ==> AnswerRows(kind, qid, a) == []
  {
  }

  /** A choice leaves its value, followed by its text under "fill", or under the value's own sub id
      where several can be chosen; an empty text leaves no row, an empty value none at all. */
  lemma PickShape(options: seq<ChoiceOption>, min: Option<int>, max: Option<int>, qid: string, el: Json, value: string, text: string)
    requires Names(el, value, text)
    ensures AnswerRows(SingleChoice(options), qid, el) ==
            if value == "" then []
            else if text == "" then [NormalizedRow(qid, "", Value.Text(value))]
            else [NormalizedRow(qid, "", Value.Text(value)), NormalizedRow(qid, "fill", Value.Text(text))]
    ensures AnswerRows(MultiChoice(options, min, max), qid, Arr([el])) ==
            if value == "" then []
            else if text == "" then [NormalizedRow(qid, "", Value.Text(value))]
            else [NormalizedRow(qid, "", Value.Text(value)), NormalizedRow(qid, value + ".fill", Value.Text(text))]
  {
    NamesIsRead(el, value, text);
    OnePick(options, min, max, qid, el);
  }

  /** What names no value leaves no row. */
  lemma NoPickNoRows(options: seq<ChoiceOption>, min: Option<int>, max: Option<int>, qid: string, el: Json)
    requires forall value, text {:trigger Names(el, value, text)} :: !Names(el, value, text)
    ensures AnswerRows(SingleChoice(options), qid, el) == []
    ensures AnswerRows(MultiChoice(options, min, max), qid, Arr([el])) == []
  {
    if ReadPick(el).Some? {
      NamesIsRead(el, ReadPick(el).value.value, ReadPick(el).value.text);
    }
    OnePick(options, min, max, qid, el);
  }

  /** The rows of several choices are those of each, in order. */
  lemma {:induction false} PicksInOrder(options: seq<ChoiceOption>, min: Option<int>, max: Option<int>, qid: string, xs: seq<Json>, ys: seq<Json>)
    ensures var kind := MultiChoice(options, min, max);
            AnswerRows(kind, qid, Arr(xs + ys)) == AnswerRows(kind, qid, Arr(xs)) + AnswerRows(kind, qid, Arr(ys))
  {
    MultiConcat(qid, xs, ys);
  }

  // ---------- matrices ----------

  /** The same question about other rows. */
  function WithRows(kind: Kind, rows: seq<string>): Kind
    requires IsGrid(kind) && !kind.MultiFill?
  {
    kind.(rows := rows)
  }

  lemma {:induction false} RowsOnlyOrder(kind: Kind, rows: seq<string>, qid: string, ids: seq<string>, cells: map<string, Json>)
    requires IsGrid(kind) && !kind.MultiFill?
    ensures GridRows(WithRows(kind, rows), qid, ids, cells) == GridRows(kind, qid, ids, cells)
  {
    if ids != [] {
      RowsOnlyOrder(kind, rows, qid, ids[..|ids| - 1], cells);
    }
  }

  lemma {:induction false} RowsOfMatrix(kind: Kind, rows: seq<string>, qid: string, a: Json)
    requires IsGrid(kind) && !kind.MultiFill?
    ensures AnswerRows(WithRows(kind, rows), qid, a) == GridRows(kind, qid, rows, Cells(a))
  {
    RowsOnlyOrder(kind, rows, qid, rows, Cells(a));
    assert Cells(a) == ReadCells(a);
  }

  /** The rows of a matrix are those of its items, in the order of the props. */
  lemma {:induction false} ItemsInOrder(kind: Kind, qid: string, xs: seq<string>, ys: seq<string>, a: Json)
    requires IsGrid(kind) && !kind.MultiFill?
    ensures AnswerRows(WithRows(kind, xs + ys), qid, a) == AnswerRows(WithRows(kind, xs), qid, a) + AnswerRows(WithRows(kind, ys), qid, a)
  {
    RowsOfMatrix(kind, xs + ys, qid, a);
    RowsOfMatrix(kind, xs, qid, a);
    RowsOfMatrix(kind, ys, qid, a);
    GridConcat(kind, qid, xs, ys, Cells(a));
  }

  lemma {:induction false} BlanksOnlyOrder(blanks: seq<Schema.Blank>, other: seq<Schema.Blank>, qid: string, ids: seq<string>, cells: map<string, Json>)
    ensures GridRows(MultiFill(blanks), qid, ids, cells) == GridRows(MultiFill(other), qid, ids, cells)
  {
    if ids != [] {
      BlanksOnlyOrder(blanks, other, qid, ids[..|ids| - 1], cells);
    }
  }

  lemma {:induction false} RowsOfBlanks(blanks: seq<Schema.Blank>, other: seq<Schema.Blank>, qid: string, a: Json)
    ensures AnswerRows(MultiFill(blanks), qid, a) == GridRows(MultiFill(other), qid, BlankIds(blanks), Cells(a))
  {
    BlanksOnlyOrder(blanks, other, qid, BlankIds(blanks), Cells(a));
    assert Cells(a) == ReadCells(a);
  }

  lemma {:induction false} BlankIdsConcat(xs: seq<Schema.Blank>, ys: seq<Schema.Blank>)
    ensures BlankIds(xs + ys) == BlankIds(xs) + BlankIds(ys)
  {
  }

  lemma {:induction false} BlanksInOrder(xs: seq<Schema.Blank>, ys: seq<Schema.Blank>, qid: string, a: Json)
    ensures AnswerRows(MultiFill(xs + ys), qid, a) == AnswerRows(MultiFill(xs), qid, a) + AnswerRows(MultiFill(ys), qid, a)
  {
    RowsOfBlanks(xs + ys, xs, qid, a);
    RowsOfBlanks(xs, xs, qid, a);
    RowsOfBlanks(ys, xs, qid, a);
    BlankIdsConcat(xs, ys);
    GridConcat(MultiFill(xs), qid, BlankIds(xs), BlankIds(ys), Cells(a));
  }

  /** A text cell leaves its text under the item's id: columns, texts and blanks alike. */
  lemma TextItemShape(id: string, columns: seq<string>, maxLength: Option<int>, rules: TextRules, qid: string, a: Json)
    ensures var rows := if Acceptance.Text(Cells(a), id) then [NormalizedRow(qid, id, Value.Text(Cells(a)[id].str))] else [];
            && AnswerRows(MatrixSingle([id], columns), qid, a) == rows
            && AnswerRows(MatrixFill([id], maxLength), qid, a) == rows
            && AnswerRows(MultiFill([Schema.Blank(id, rules)]), qid, a) == rows
  {
    OneItem(MatrixSingle([id], columns), qid, id, a);
    OneItem(MatrixFill([id], maxLength), qid, id, a);
    assert BlankIds([Schema.Blank(id, rules)]) == [id];
    OneItem(MultiFill([Schema.Blank(id, rules)]), qid, id, a);
  }

  /** A scale cell leaves the score of the last column of that value, or its text without one. */
  lemma ScaleItemShape(id: string, scored: seq<ScoredColumn>, qid: string, a: Json)
    ensures !Acceptance.Text(Cells(a), id) ==> AnswerRows(MatrixScale([id], scored), qid, a) == []
    ensures Acceptance.Text(Cells(a), id) ==>
              AnswerRows(MatrixScale([id], scored), qid, a) ==
              [NormalizedRow(qid, id, match ScoreOf(scored, Cells(a)[id].str) case Some(x) => Number(x) case None => Value.Text(Cells(a)[id].str))]
  {
    OneItem(MatrixScale([id], scored), qid, id, a);
    if Acceptance.Text(Cells(a), id) {
      ScoreIsLast(scored, Cells(a)[id].str);
    }
  }

  /** The score of the last column of that value, if it has one. */
  function ScoreOf(scored: seq<ScoredColumn>, value: string): Option<real> {
    if scored == [] then None
    else if scored[|scored| - 1].value == value then scored[|scored| - 1].score
    else ScoreOf(scored[..|scored| - 1], value)
  }

  lemma {:induction false} ScoreIsLast(scored: seq<ScoredColumn>, value: string)
    ensures ScoreOf(scored, value) == if value in ScoreMap(scored) then ScoreMap(scored)[value] else None
  {
    if scored != [] {
      ScoreIsLast(scored[..|scored| - 1], value);
    }
  }

  /** A number leaves itself under the item's id. */
  lemma SliderItemShape(id: string, lo: Option<real>, hi: Option<real>, qid: string, a: Json)
    ensures AnswerRows(MatrixSlider([id], lo, hi), qid, a) ==
            if id in Cells(a) && Cells(a)[id].Num? then [NormalizedRow(qid, id, Number(Cells(a)[id].num))] else []
  {
    OneItem(MatrixSlider([id], lo, hi), qid, id, a);
  }

  /** The picks of a row are rows of their own under the item's id, in order: the first string, if
      not empty, then those of the rest. What is no array leaves none. */
  lemma {:induction false} PicksItemShape(id: string, columns: seq<string>, min: Option<int>, max: Option<int>, qid: string, items: seq<Json>, el: Json)
    ensures var kind := MatrixMulti([id], columns, min, max);
            && AnswerRows(kind, qid, Obj(map[id := Arr([])])) == []
            && AnswerRows(kind, qid, Obj(map[id := Arr(items + [el])])) ==
               AnswerRows(kind, qid, Obj(map[id := Arr(items)])) +
               (if el.Str? && el != Str("") then [NormalizedRow(qid, id, Value.Text(el.str))] else [])
  {
    var kind := MatrixMulti([id], columns, min, max);
    OneItem(kind, qid, id, Obj(map[id := Arr([])]));
    OneItem(kind, qid, id, Obj(map[id := Arr(items)]));
    OneItem(kind, qid, id, Obj(map[id := Arr(items + [el])]));
    assert (items + [el])[..|items|] == items;
  }

  lemma NoArrayNoRows(id: string, columns: seq<string>, min: Option<int>, max: Option<int>, qid: string, a: Json)
    requires id in Cells(a) ==> !Cells(a)[id].Arr?
    ensures AnswerRows(MatrixMulti([id], columns, min, max), qid, a) == []
  {
    OneItem(MatrixMulti([id], columns, min, max), qid, id, a);
  }
}
