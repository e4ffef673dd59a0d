/** When exactly rows keep an answer, and what a passing multiple choice can look like. */
module Exactness {
  import opened Base
  import opened Schema
  import opened Handlers
  import opened Rows
  import opened Lossless

  // ---------- counting picks ----------

  /** A passing array: distinct option values, so no longer than the number of values, within the
      bounds, and (values being non-empty) one value row per pick plus one row per text. */
  lemma MultiChoiceCounts(options: seq<ChoiceOption>, min: Option<int>, max: Option<int>, required: bool, qid: string, a: Json)
    requires MultiAccepts(options, min, max, required, a)
    ensures |a.items| <= |OptionMap(options)|
    ensures AtLeast(|a.items|, min) && AtMost(|a.items|, max)
    ensures !Offers(options, "") ==> |MultiRows(qid, a.items)| == |a.items| + WithText(a.items)
  {
    PicksBounded(options, a.items);
    if !Offers(options, "") {
      forall i | 0 <= i < |a.items| ensures NamedPick(a.items[i]) {
        AcceptedPickNamed(options, a.items[i]);
      }
      RowCount(qid, a.items);
    }
  }

  function WithText(items: seq<Json>): nat {
    if items == [] then 0
    else
      var n := |items| - 1;
      WithText(items[..n]) + if ReadPick(items[n]).Some? && ReadPick(items[n]).value.text != "" then 1 else 0
  }

  lemma {:induction false} RowCount(qid: string, items: seq<Json>)
    requires forall i :: 0 <= i < |items| ==> NamedPick(items[i])
    ensures |MultiRows(qid, items)| == |items| + WithText(items)
  {
    if items != [] {
      var n := |items| - 1;
      assert NamedPick(items[n]);
      RowCount(qid, items[..n]);
    }
  }

  /** k different values out of a set, beginning with a chosen one. */
  lemma {:induction false} Enumerate(values: set<string>, first: string, k: nat) returns (vs: seq<string>)
    requires first in values && 1 <= k <= |values|
    ensures |vs| == k && vs[0] == first && Distinct(vs) && forall v :: v in vs ==> v in values
  {
    if k == 1 {
      vs := [first];
    } else {
      var init := Enumerate(values, first, k - 1);
      SetSizeDecidesDistinct(init);
      var rest := values - ToSet(init);
      assert ToSet(init) <= values;
      assert |rest| == |values| - |ToSet(init)|;
      var v :| v in rest;
      vs := init + [v];
    }
  }

  function PickOf(value: string, text: string): Json {
    Obj(map["value" := Str(value), "text" := Str(text)])
  }

  function PicksOf(vs: seq<string>, text: string): seq<Json> {
    seq(|vs|, i requires 0 <= i < |vs| => PickOf(vs[i], text))
  }

  lemma LettersNotBlank()
    ensures !Blanked("x") && !Blanked("y")
  {
    assert !IsSpace("x"[0]) && !IsSpace("y"[0]);
  }

  lemma PicksOfAccepted(options: seq<ChoiceOption>, min: Option<int>, max: Option<int>, required: bool, vs: seq<string>, text: string)
    requires Distinct(vs) && vs != [] && AtLeast(|vs|, min) && AtMost(|vs|, max)
    requires forall v :: v in vs ==> v in OptionMap(options)
    requires !Blanked(text)
    ensures MultiAccepts(options, min, max, required, Arr(PicksOf(vs, text)))
  {
    var items := PicksOf(vs, text);
    forall i | 0 <= i < |items| ensures ReadPick(items[i]) == Some(Pick(vs[i], text)) && PickProblem(options, items[i]) == Fine {
    }
    assert PickValues(items) == vs;
  }

  /** A question can be answered with at least one pick iff some length from 1 up to the number of
      option values lies within min..max; a larger minimum makes it unanswerable. */
  lemma MultiChoiceAnswerable(options: seq<ChoiceOption>, min: Option<int>, max: Option<int>)
    ensures (exists a :: MultiAccepts(options, min, max, true, a)) <==> CanPick(min, max, |OptionMap(options)|)
  {
    if a :| MultiAccepts(options, min, max, true, a) {
      PicksBounded(options, a.items);
      assert 1 <= |a.items|;
    }
    if k: nat :| 1 <= k <= |OptionMap(options)| && AtLeast(k, min) && AtMost(k, max) {
      assert |OptionMap(options).Keys| == |OptionMap(options)|;
      var first :| first in OptionMap(options).Keys;
      var vs := Enumerate(OptionMap(options).Keys, first, k);
      LettersNotBlank();
      PicksOfAccepted(options, min, max, true, vs, "x");
    }
  }

  // ---------- losslessness, exactly ----------

  /** Two accepted answers with the same rows mean the same. */
  ghost predicate RowsDetermineAnswer(kind: Kind) {
    forall required, a, b ::
      Accepts(kind, required, a) && Accepts(kind, required, b) && AnswerRows(kind, "q", a) == AnswerRows(kind, "q", b) ==>
        Canonical(kind, a) == Canonical(kind, b)
  }

  ghost predicate Collide(kind: Kind, a: Json, b: Json) {
    && Accepts(kind, false, a) && Accepts(kind, false, b)
    && AnswerRows(kind, "q", a) == AnswerRows(kind, "q", b)
    && Canonical(kind, a) != Canonical(kind, b)
  }

  /** The condition on the props is exact: with it every accepted answer can be rebuilt, without
      it two different accepted answers leave the same rows. */
  lemma LosslessExactly(kind: Kind)
    ensures RowsDetermineAnswer(kind) <==> Recoverable(kind)
  {
    if Recoverable(kind) {
      forall required, a, b
        | Accepts(kind, required, a) && Accepts(kind, required, b) && AnswerRows(kind, "q", a) == AnswerRows(kind, "q", b)
        ensures Canonical(kind, a) == Canonical(kind, b)
      {
        AnswerDecodes(kind, required, "q", a);
        AnswerDecodes(kind, required, "q", b);
      }
    } else {
      var a, b := Witness(kind);
      assert Collide(kind, a, b);
    }
  }

  lemma Witness(kind: Kind) returns (a: Json, b: Json)
    requires !Recoverable(kind)
    ensures Collide(kind, a, b)
  {
    if kind.SingleChoice? {
      a, b := SingleWitness(kind.options);
    } else if kind.MultiChoice? {
      a, b := MultiWitness(kind.options, kind.min, kind.max);
    } else if kind.MatrixMulti? {
      a, b := MatrixMultiWitness(kind);
    } else if kind.MatrixScale? {
      a, b := ScaleWitness(kind);
    } else {
      a, b := Null, Bool(true);
    }
  }

  /** A picked empty value leaves no row, so its text is lost. */
  lemma SingleWitness(options: seq<ChoiceOption>) returns (a: Json, b: Json)
    requires Offers(options, "")
    ensures Collide(SingleChoice(options), a, b)
  {
    LettersNotBlank();
    a, b := PickOf("", "x"), PickOf("", "y");
    var i := FirstOffer(options, "");
    assert ReadPick(a) == Some(Pick("", "x")) && ReadPick(b) == Some(Pick("", "y"));
    assert a.fields["text"] != b.fields["text"];
    assert FillOk(options[i], "x") && FillOk(options[i], "y");
  }

  lemma {:induction false} FirstOffer(options: seq<ChoiceOption>, value: string) returns (i: nat)
    requires Offers(options, value)
    ensures FirstOption(options, value, i)
  {
    i := 0;
    while options[i].value != value
      invariant i < |options| && forall j :: 0 <= j < i ==> options[j].value != value
      decreases |options| - i
    {
      var o :| o in options && o.value == value;
      var k :| 0 <= k < |options| && options[k] == o;
      assert k > i;
      i := i + 1;
    }
  }

  lemma MultiWitness(options: seq<ChoiceOption>, min: Option<int>, max: Option<int>) returns (a: Json, b: Json)
    requires Offers(options, "") && CanPick(min, max, |OptionMap(options)|)
    ensures Collide(MultiChoice(options, min, max), a, b)
  {
    var k: nat :| 1 <= k <= |OptionMap(options)| && AtLeast(k, min) && AtMost(k, max);
    OptionMapKeys(options, "");
    assert |OptionMap(options).Keys| == |OptionMap(options)|;
    var vs := Enumerate(OptionMap(options).Keys, "", k);
    a, b := TextLostWitness(options, min, max, vs);
  }

  lemma TextLostWitness(options: seq<ChoiceOption>, min: Option<int>, max: Option<int>, vs: seq<string>) returns (a: Json, b: Json)
    requires Distinct(vs) && vs != [] && vs[0] == "" && AtLeast(|vs|, min) && AtMost(|vs|, max)
    requires forall v :: v in vs ==> v in OptionMap(options)
    ensures Collide(MultiChoice(options, min, max), a, b)
  {
    var xs := PicksOf(vs, "x");
    var zs := xs[0 := PickOf("", "y")];
    LettersNotBlank();
    PicksOfAccepted(options, min, max, false, vs, "x");
    PicksOfAccepted(options, min, max, false, vs, "y");
    assert PickProblem(options, PicksOf(vs, "y")[0]) == Fine;
    MixedPicksAccepted(options, min, max, xs, PickOf("", "y"));
    EmptyPickUnseen("q", xs, PickOf("", "y"), |xs|);
    assert xs[..|xs|] == xs && zs[..|zs|] == zs;
    a, b := Arr(xs), Arr(zs);
    assert CanonicalPicks(xs)[0] == PickOf("", "x") && CanonicalPicks(zs)[0] == PickOf("", "y");
    assert PickOf("", "x").fields["text"] != PickOf("", "y").fields["text"];
  }

  /** Replacing a pick by another acceptable pick of the same value keeps the array accepted. */
  lemma MixedPicksAccepted(options: seq<ChoiceOption>, min: Option<int>, max: Option<int>, items: seq<Json>, el: Json)
    requires items != [] && MultiAccepts(options, min, max, false, Arr(items))
    requires PickProblem(options, el) == Fine && ReadPick(el).value.value == ReadPick(items[0]).value.value
    ensures MultiAccepts(options, min, max, false, Arr(items[0 := el]))
  {
    var zs := items[0 := el];
    assert forall i :: 0 <= i < |zs| ==> PickProblem(options, zs[i]) == Fine;
    assert PickValues(zs) == PickValues(items);
  }

  lemma {:induction false} EmptyPickUnseen(qid: string, items: seq<Json>, el: Json, n: nat)
    requires items != [] && n <= |items|
    requires PickRows(qid, items[0]) == [] && PickRows(qid, el) == []
    ensures MultiRows(qid, items[0 := el][..n]) == MultiRows(qid, items[..n])
  {
    if n > 0 {
      EmptyPickUnseen(qid, items, el, n - 1);
      assert items[..n][..n - 1] == items[..n - 1];
      assert items[0 := el][..n][..n - 1] == items[0 := el][..n - 1];
    }
  }

  function OneCell(id: string, v: Json): Json {
    Obj(map[id := v])
  }

  lemma OneCellKept(kind: Kind, id: string, v: Json)
    requires IsGrid(kind) && CellComplete(kind, v)
    ensures Canonical(kind, OneCell(id, v)) == OneCell(id, v)
  {
  }

  lemma {:induction false} SameCellRowsSameRows(kind: Kind, ids: seq<string>, id: string, v: Json, w: Json)
    requires CellRows(kind, "q", id, v) == CellRows(kind, "q", id, w)
    ensures GridRows(kind, "q", ids, map[id := v]) == GridRows(kind, "q", ids, map[id := w])
  {
    if ids != [] {
      SameCellRowsSameRows(kind, ids[..|ids| - 1], id, v, w);
    }
  }

  /** Columns sharing a score are indistinguishable once the score is stored. */
  lemma ScaleWitness(kind: Kind) returns (a: Json, b: Json)
    requires kind.MatrixScale? && kind.rows != [] && !ScoresDistinguish(kind.scored)
    ensures Collide(kind, a, b)
  {
    var scores := ScoreMap(kind.scored);
    var u, v :| u in scores && v in scores && u != "" && v != "" && u != v && scores[u].Some? && scores[u] == scores[v];
    ScoreMapKeys(kind.scored);
    var id := kind.rows[0];
    a, b := OneCell(id, Str(u)), OneCell(id, Str(v));
    SameCellRowsSameRows(kind, kind.rows, id, Str(u), Str(v));
    OneCellKept(kind, id, Str(u));
    OneCellKept(kind, id, Str(v));
    assert a.fields[id] != b.fields[id];
  }

  function StrItems(vs: seq<string>): seq<Json> {
    seq(|vs|, i requires 0 <= i < |vs| => Str(vs[i]))
  }

  lemma OneRowAccepted(kind: Kind, id: string, vs: seq<string>)
    requires kind.MatrixMulti? && id in kind.rows && vs != []
    requires Distinct(vs) && (forall v :: v in vs ==> v in kind.columns)
    requires AtLeast(|vs|, kind.min) && AtMost(|vs|, kind.max)
    ensures Accepts(kind, false, OneCell(id, Arr(StrItems(vs))))
  {
    assert Strings(StrItems(vs)) == vs;
    assert CellOk(kind, id, Arr(StrItems(vs)));
  }

  /** An empty column value leaves no row: alone it looks like no answer, among others its place is lost. */
  lemma MatrixMultiWitness(kind: Kind) returns (a: Json, b: Json)
    requires kind.MatrixMulti? && kind.rows != [] && "" in kind.columns
    requires CanPick(kind.min, kind.max, |ToSet(kind.columns)|)
    ensures Collide(kind, a, b)
  {
    var k: nat :| 1 <= k <= |ToSet(kind.columns)| && AtLeast(k, kind.min) && AtMost(k, kind.max);
    var vs := Enumerate(ToSet(kind.columns), "", k);
    if k == 1 {
      a, b := LonePickWitness(kind, vs);
    } else {
      a, b := SwapWitness(kind, vs);
    }
  }

  lemma LonePickWitness(kind: Kind, vs: seq<string>) returns (a: Json, b: Json)
    requires kind.MatrixMulti? && kind.rows != [] && vs == [""] && "" in kind.columns
    requires AtLeast(1, kind.min) && AtMost(1, kind.max)
    ensures Collide(kind, a, b)
  {
    var id, items := kind.rows[0], StrItems(vs);
    a, b := OneCell(id, Arr(items)), Obj(map[]);
    OneRowAccepted(kind, id, vs);
    OneCellKept(kind, id, Arr(items));
    assert items[..0] == [] && items[0] == Str("");
    assert StringRows("q", id, items) == StringRows("q", id, items[..0]) + [];
    SameCellRowsSameRows(kind, kind.rows, id, Arr(items), Null);
    NullCellUnseen(kind, kind.rows, id);
    assert Canonical(kind, b) == b;
    assert id in a.fields && id !in b.fields;
  }

  lemma SwapWitness(kind: Kind, vs: seq<string>) returns (a: Json, b: Json)
    requires kind.MatrixMulti? && kind.rows != [] && |vs| >= 2 && vs[0] == ""
    requires Distinct(vs) && (forall v :: v in vs ==> v in kind.columns)
    requires AtLeast(|vs|, kind.min) && AtMost(|vs|, kind.max)
    ensures Collide(kind, a, b)
  {
    var id := kind.rows[0];
    var ws := vs[0 := vs[1]][1 := vs[0]];
    assert forall w :: w in ws ==> w in vs;
    var items, swapped := StrItems(vs), StrItems(ws);
    a, b := OneCell(id, Arr(items)), OneCell(id, Arr(swapped));
    OneRowAccepted(kind, id, vs);
    OneRowAccepted(kind, id, ws);
    OneCellKept(kind, id, Arr(items));
    OneCellKept(kind, id, Arr(swapped));
    EmptyStringUnseen("q", id, items, swapped, |vs|);
    assert items[..|vs|] == items && swapped[..|vs|] == swapped;
    SameCellRowsSameRows(kind, kind.rows, id, Arr(items), Arr(swapped));
    assert items[0] == Str("") && swapped[0] == Str(vs[1]);
    assert a.fields[id] != b.fields[id];
  }

  lemma {:induction false} NullCellUnseen(kind: Kind, ids: seq<string>, id: string)
    requires kind.MatrixMulti?
    ensures GridRows(kind, "q", ids, map[id := Null]) == GridRows(kind, "q", ids, map[])
  {
    if ids != [] {
      NullCellUnseen(kind, ids[..|ids| - 1], id);
    }
  }

  lemma {:induction false} EmptyStringUnseen(qid: string, id: string, xs: seq<Json>, ys: seq<Json>, n: nat)
    requires 2 <= n <= |xs| == |ys|
    requires xs[0] == ys[1] == Str("") && xs[1] == ys[0] && forall i :: 2 <= i < |xs| ==> xs[i] == ys[i]
    ensures StringRows(qid, id, xs[..n]) == StringRows(qid, id, ys[..n])
  {
    assert xs[..n][..n - 1] == xs[..n - 1] && ys[..n][..n - 1] == ys[..n - 1];
    if n == 2 {
      assert xs[..1][..0] == [] && ys[..1][..0] == [];
    } else {
      EmptyStringUnseen(qid, id, xs, ys, n - 1);
    }
  }
}
