/** Flattening one answer into rows. */
module Rows {
  import opened Base
  import opened Schema
  import opened Handlers

  // ---------- specification ----------

  function TextRow(qid: string, subId: string, s: string): NormalizedRow {
    NormalizedRow(qid, subId, Text(s))
  }

  function FillSubId(value: string): string {
    value + ".fill"
  }

  function SingleRows(qid: string, a: Json): seq<NormalizedRow> {
    if ReadPick(a).None? || ReadPick(a).value.value == "" then []
    else
      var pick := ReadPick(a).value;
      [TextRow(qid, "", pick.value)] + if pick.text == "" then [] else [TextRow(qid, "fill", pick.text)]
  }

  function PickRows(qid: string, el: Json): seq<NormalizedRow> {
    if ReadPick(el).None? || ReadPick(el).value.value == "" then []
    else
      var pick := ReadPick(el).value;
      [TextRow(qid, "", pick.value)] + if pick.text == "" then [] else [TextRow(qid, FillSubId(pick.value), pick.text)]
  }

  function MultiRows(qid: string, items: seq<Json>): seq<NormalizedRow> {
    if items == [] then []
    else
      var n := |items| - 1;
      MultiRows(qid, items[..n]) + PickRows(qid, items[n])
  }

  function ScalarRows(qid: string, a: Json): seq<NormalizedRow> {
    if StrAnswered(a) then [TextRow(qid, "", a.str)] else []
  }

  function StringRows(qid: string, subId: string, items: seq<Json>): seq<NormalizedRow> {
    if items == [] then []
    else
      var n := |items| - 1;
      StringRows(qid, subId, items[..n]) + if StrAnswered(items[n]) then [TextRow(qid, subId, items[n].str)] else []
  }

  function ScoreValue(scores: map<string, Option<real>>, s: string): Value {
    if s in scores && scores[s].Some? then Number(scores[s].value) else Text(s)
  }

  /** The rows of one cell. */
  function CellRows(kind: Kind, qid: string, id: string, v: Json): seq<NormalizedRow> {
    match kind
    case MatrixMulti(_, _, _, _) => if v.Arr? then StringRows(qid, id, v.items) else []
    case MatrixScale(_, scored) =>
      if StrAnswered(v) then [NormalizedRow(qid, id, ScoreValue(ScoreMap(scored), v.str))] else []
    case MatrixSlider(_, _, _) => if v.Num? then [NormalizedRow(qid, id, Number(v.num))] else []
    case _ => if StrAnswered(v) then [TextRow(qid, id, v.str)] else []
  }

  /** Cells in the order of the props, never of the answer map. */
  function GridRows(kind: Kind, qid: string, ids: seq<string>, cells: map<string, Json>): seq<NormalizedRow> {
    if ids == [] then []
    else
      var n := |ids| - 1;
      GridRows(kind, qid, ids[..n], cells) + CellRows(kind, qid, ids[n], Lookup(cells, ids[n]))
  }

  function AnswerRows(kind: Kind, qid: string, a: Json): seq<NormalizedRow> {
    match kind
    case SingleChoice(_) => SingleRows(qid, a)
    case MultiChoice(_, _, _) => if a.Arr? then MultiRows(qid, a.items) else []
    case Scale(_, _) => if a.Num? then [NormalizedRow(qid, "", Number(a.num))] else []
    case Dropdown(_) => ScalarRows(qid, a)
    case TextInput(_) => ScalarRows(qid, a)
    case Textarea(_, _) => ScalarRows(qid, a)
    case Unregistered => []
    case _ => GridRows(kind, qid, ItemIds(kind), ReadCells(a))
  }

  /** What is built up item by item is the concatenation of its parts. */
  lemma {:induction false} BuiltInOrder<T(!new)>(f: seq<T> -> seq<NormalizedRow>, own: T -> seq<NormalizedRow>, xs: seq<T>, ys: seq<T>)
    requires f([]) == [] && forall zs: seq<T>, z: T :: f(zs + [z]) == f(zs) + own(z)
    ensures f(xs + ys) == f(xs) + f(ys)
  {
    if ys == [] {
      assert xs + ys == xs;
    } else {
      var init, last := ys[..|ys| - 1], ys[|ys| - 1];
      BuiltInOrder(f, own, xs, init);
      assert ys == init + [last] && xs + ys == (xs + init) + [last];
      assert f((xs + init) + [last]) == f(xs + init) + own(last);
    }
  }

  // ---------- the handlers' loops ----------

  method MultiChoiceNormalize(qid: string, answer: Json) returns (out: seq<NormalizedRow>)
    ensures out == if answer.Arr? then MultiRows(qid, answer.items) else []
  {
    out := [];
    if !answer.Arr? {
      return;
    }
    var arr := answer.items;
    for i := 0 to |arr|
      invariant out == MultiRows(qid, arr[..i])
    {
      assert arr[..i + 1][..i] == arr[..i];
      var read := ReadPick(arr[i]);
      if read.None? || read.value.value == "" {
        continue;
      }
      out := out + [NormalizedRow(qid, "", Text(read.value.value))];
      if read.value.text != "" {
        out := out + [NormalizedRow(qid, read.value.value + ".fill", Text(read.value.text))];
      }
    }
    assert arr[..|arr|] == arr;
  }

  /** matrix-single, matrix-fill and multi-fill share this loop. */
  method TextGridNormalize(kind: Kind, qid: string, ids: seq<string>, answer: Json) returns (out: seq<NormalizedRow>)
    requires kind.MatrixSingle? || kind.MatrixFill? || kind.MultiFill?
    ensures out == GridRows(kind, qid, ids, ReadCells(answer))
  {
    var ans := ReadCells(answer);
    out := [];
    for i := 0 to |ids|
      invariant out == GridRows(kind, qid, ids[..i], ans)
    {
      assert ids[..i + 1][..i] == ids[..i];
      var cell := Lookup(ans, ids[i]);
      if !cell.Str? || cell.str == "" {
        continue;
      }
      out := out + [NormalizedRow(qid, ids[i], Text(cell.str))];
    }
    assert ids[..|ids|] == ids;
  }

  method MatrixMultiNormalize(kind: Kind, qid: string, rows: seq<string>, answer: Json) returns (out: seq<NormalizedRow>)
    requires kind.MatrixMulti?
    ensures out == GridRows(kind, qid, rows, ReadCells(answer))
  {
    var ans := ReadCells(answer);
    out := [];
    for i := 0 to |rows|
      invariant out == GridRows(kind, qid, rows[..i], ans)
    {
      assert rows[..i + 1][..i] == rows[..i];
      var cell := Lookup(ans, rows[i]);
      if !cell.Arr? {
        continue;
      }
      var arr := cell.items;
      ghost var before := out;
      for k := 0 to |arr|
        invariant out == before + StringRows(qid, rows[i], arr[..k])
      {
        assert arr[..k + 1][..k] == arr[..k];
        if arr[k].Str? && arr[k].str != "" {
          out := out + [NormalizedRow(qid, rows[i], Text(arr[k].str))];
        }
      }
      assert arr[..|arr|] == arr;
    }
    assert rows[..|rows|] == rows;
  }

  method MatrixScaleNormalize(kind: Kind, qid: string, rows: seq<string>, scored: seq<ScoredColumn>, answer: Json)
    returns (out: seq<NormalizedRow>)
    requires kind == MatrixScale(rows, scored)
    ensures out == GridRows(kind, qid, rows, ReadCells(answer))
  {
    var ans := ReadCells(answer);
    var scoreOf: map<string, Option<real>> := map[];
    for i := 0 to |scored|
      invariant scoreOf == ScoreMap(scored[..i])
    {
      assert scored[..i + 1][..i] == scored[..i];
      scoreOf := scoreOf[scored[i].value := scored[i].score];
    }
    assert scored[..|scored|] == scored;
    out := [];
    for i := 0 to |rows|
      invariant out == GridRows(kind, qid, rows[..i], ans)
    {
      assert rows[..i + 1][..i] == rows[..i];
      var cell := Lookup(ans, rows[i]);
      if !cell.Str? || cell.str == "" {
        continue;
      }
      if cell.str in scoreOf && scoreOf[cell.str].Some? {
        out := out + [NormalizedRow(qid, rows[i], Number(scoreOf[cell.str].value))];
      } else {
        out := out + [NormalizedRow(qid, rows[i], Text(cell.str))];
      }
    }
    assert rows[..|rows|] == rows;
  }

  method MatrixSliderNormalize(kind: Kind, qid: string, rows: seq<string>, answer: Json) returns (out: seq<NormalizedRow>)
    requires kind.MatrixSlider?
    ensures out == GridRows(kind, qid, rows, ReadCells(answer))
  {
    var ans := ReadCells(answer);
    out := [];
    for i := 0 to |rows|
      invariant out == GridRows(kind, qid, rows[..i], ans)
    {
      assert rows[..i + 1][..i] == rows[..i];
      var cell := Lookup(ans, rows[i]);
      if !cell.Num? {
        continue;
      }
      out := out + [NormalizedRow(qid, rows[i], Number(cell.num))];
    }
    assert rows[..|rows|] == rows;
  }

  method Normalize(q: Question, answer: Json) returns (rows: seq<NormalizedRow>)
    ensures rows == AnswerRows(q.kind, q.id, answer)
  {
    match q.kind {
      case SingleChoice(_) =>
        var read := ReadPick(answer);
        if read.None? || read.value.value == "" {
          return [];
        }
        rows := [NormalizedRow(q.id, "", Text(read.value.value))];
        if read.value.text != "" {
          rows := rows + [NormalizedRow(q.id, "fill", Text(read.value.text))];
        }
      case MultiChoice(_, _, _) => rows := MultiChoiceNormalize(q.id, answer);
      case Scale(_, _) => rows := if answer.Num? then [NormalizedRow(q.id, "", Number(answer.num))] else [];
      case Dropdown(_) => rows := ScalarRows(q.id, answer);
      case TextInput(_) => rows := ScalarRows(q.id, answer);
      case Textarea(_, _) => rows := ScalarRows(q.id, answer);
      case MatrixSingle(ids, _) => rows := TextGridNormalize(q.kind, q.id, ids, answer);
      case MatrixMulti(ids, _, _, _) => rows := MatrixMultiNormalize(q.kind, q.id, ids, answer);
      case MatrixScale(ids, scored) => rows := MatrixScaleNormalize(q.kind, q.id, ids, scored, answer);
      case MatrixFill(ids, _) => rows := TextGridNormalize(q.kind, q.id, ids, answer);
      case MatrixSlider(ids, _, _) => rows := MatrixSliderNormalize(q.kind, q.id, ids, answer);
      case MultiFill(blanks) => rows := TextGridNormalize(q.kind, q.id, BlankIds(blanks), answer);
      case Unregistered => rows := [];
    }
  }
}
