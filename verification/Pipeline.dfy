/** Evaluate, then validate, then normalise a whole answer sheet. */
module Pipeline {
  import opened Base
  import opened Schema
  import opened Logic
  import opened Handlers
  import opened Rows
  import opened Lossless

  datatype ValidationError = ValidationError(qid: string, problem: Problem)

  ghost predicate Fails(q: Question, hidden: set<string>, answers: Answers) {
    && q.id !in hidden
    && var a := Lookup(answers, q.id);
       if IsAnswered(a) then !Accepts(q.kind, q.required, a) else q.required
  }

  ghost predicate Reports(q: Question, answers: Answers, p: Problem) {
    var a := Lookup(answers, q.id);
    if IsAnswered(a) then p != Fine && Verdict(q.kind, q.required, a, p) else p == RequiredMissing
  }

  /** One error per failing question, in question order, each a complaint that question may raise. */
  ghost predicate ErrorsOf(qs: seq<Question>, hidden: set<string>, answers: Answers, errs: seq<ValidationError>) {
    if qs == [] then errs == []
    else
      var n, e := |qs| - 1, |errs| - 1;
      if !Fails(qs[n], hidden, answers) then ErrorsOf(qs[..n], hidden, answers, errs)
      else
        && errs != []
        && errs[e].qid == qs[n].id && Reports(qs[n], answers, errs[e].problem)
        && ErrorsOf(qs[..n], hidden, answers, errs[..e])
  }

  /** The sheet passes: no visible question fails. */
  ghost predicate Passes(schema: SurveySchema, answers: Answers) {
    forall q :: q in schema.questions ==> !Fails(q, HiddenIds(schema.rules, answers), answers)
  }

  lemma {:induction false} NoErrorsIffPasses(qs: seq<Question>, hidden: set<string>, answers: Answers, errs: seq<ValidationError>)
    requires ErrorsOf(qs, hidden, answers, errs)
    ensures errs == [] <==> forall q :: q in qs ==> !Fails(q, hidden, answers)
  {
    if qs != [] {
      var n := |qs| - 1;
      assert qs == qs[..n] + [qs[n]];
      if !Fails(qs[n], hidden, answers) {
        NoErrorsIffPasses(qs[..n], hidden, answers, errs);
      }
    }
  }

  // ---------- passing, in terms of the raw answers ----------

  /** The sheet has something for the question: neither missing, nor null, nor the empty string. */
  ghost predicate Given(answers: Answers, qid: string) {
    qid in answers && answers[qid] != Null && answers[qid] != Str("")
  }

  /** Every visible required question is answered, every visible answer is acceptable. */
  ghost predicate GoodSheet(schema: SurveySchema, answers: Answers) {
    forall q :: q in schema.questions && q.id !in HiddenIds(schema.rules, answers) ==>
      && (q.required ==> Given(answers, q.id))
      && (Given(answers, q.id) ==> Accepts(q.kind, q.required, answers[q.id]))
  }

  /** A sheet passes exactly when it is good. */
  lemma PassesExactly(schema: SurveySchema, answers: Answers)
    ensures Passes(schema, answers) <==> GoodSheet(schema, answers)
  {
    forall q | q in schema.questions
      ensures Fails(q, HiddenIds(schema.rules, answers), answers) <==>
              q.id !in HiddenIds(schema.rules, answers) &&
              !((q.required ==> Given(answers, q.id)) && (Given(answers, q.id) ==> Accepts(q.kind, q.required, answers[q.id])))
    {
    }
  }

  /** The ids of the visible questions that are required and missing, or answered wrongly. */
  ghost function FaultyIds(qs: seq<Question>, hidden: set<string>, answers: Answers): seq<string> {
    if qs == [] then []
    else
      var n := |qs| - 1;
      var q := qs[n];
      FaultyIds(qs[..n], hidden, answers) +
      if q.id !in hidden && (if Given(answers, q.id) then !Accepts(q.kind, q.required, answers[q.id]) else q.required)
      then [q.id] else []
  }

  /** The errors are for exactly those questions, in their order; one that is only missing is
      reported as missing. */
  lemma {:induction false} ErrorsNameFaulty(qs: seq<Question>, hidden: set<string>, answers: Answers, errs: seq<ValidationError>)
    requires ErrorsOf(qs, hidden, answers, errs)
    ensures |errs| == |FaultyIds(qs, hidden, answers)|
    ensures forall i :: 0 <= i < |errs| ==>
              errs[i].qid == FaultyIds(qs, hidden, answers)[i] && (!Given(answers, errs[i].qid) ==> errs[i].problem == RequiredMissing)
  {
    if qs != [] {
      var n := |qs| - 1;
      if Fails(qs[n], hidden, answers) {
        ErrorsNameFaulty(qs[..n], hidden, answers, errs[..|errs| - 1]);
      } else {
        ErrorsNameFaulty(qs[..n], hidden, answers, errs);
      }
    }
  }

  function QuestionRows(q: Question, hidden: set<string>, answers: Answers): seq<NormalizedRow> {
    if q.id in hidden || !IsAnswered(Lookup(answers, q.id)) then []
    else AnswerRows(q.kind, q.id, Lookup(answers, q.id))
  }

  function SheetRows(qs: seq<Question>, hidden: set<string>, answers: Answers): seq<NormalizedRow> {
    if qs == [] then []
    else
      var n := |qs| - 1;
      SheetRows(qs[..n], hidden, answers) + QuestionRows(qs[n], hidden, answers)
  }

  function SurveyRows(schema: SurveySchema, answers: Answers): seq<NormalizedRow> {
    SheetRows(schema.questions, HiddenIds(schema.rules, answers), answers)
  }

  lemma SheetSnoc(qs: seq<Question>, q: Question, hidden: set<string>, answers: Answers)
    ensures SheetRows(qs + [q], hidden, answers) == SheetRows(qs, hidden, answers) + QuestionRows(q, hidden, answers)
  {
    assert (qs + [q])[..|qs|] == qs;
  }

  /** A sheet's rows are those of its questions one after the other. */
  lemma {:induction false} SheetRowsConcat(xs: seq<Question>, ys: seq<Question>, hidden: set<string>, answers: Answers)
    ensures SheetRows(xs + ys, hidden, answers) == SheetRows(xs, hidden, answers) + SheetRows(ys, hidden, answers)
  {
    var f, own := (qs: seq<Question>) => SheetRows(qs, hidden, answers), (q: Question) => QuestionRows(q, hidden, answers);
    forall qs: seq<Question>, q: Question ensures f(qs + [q]) == f(qs) + own(q) {
      SheetSnoc(qs, q, hidden, answers);
    }
    BuiltInOrder(f, own, xs, ys);
    assert f(xs + ys) == SheetRows(xs + ys, hidden, answers);
  }

  /** A question has rows only if it is visible and answered: then those of its answer. */
  lemma OneQuestionRows(q: Question, hidden: set<string>, answers: Answers)
    ensures SheetRows([q], hidden, answers) ==
            if q.id !in hidden && Given(answers, q.id) then AnswerRows(q.kind, q.id, answers[q.id]) else []
  {
    assert [q][..0] == [];
  }

  lemma ErrorsSkip(qs: seq<Question>, i: nat, hidden: set<string>, answers: Answers, errs: seq<ValidationError>)
    requires i < |qs| && ErrorsOf(qs[..i], hidden, answers, errs)
    ensures !Fails(qs[i], hidden, answers) ==> ErrorsOf(qs[..i + 1], hidden, answers, errs)
  {
    assert qs[..i + 1][..i] == qs[..i];
  }

  lemma ErrorsAppend(qs: seq<Question>, i: nat, hidden: set<string>, answers: Answers, errs: seq<ValidationError>, p: Problem)
    requires i < |qs| && ErrorsOf(qs[..i], hidden, answers, errs)
    requires Fails(qs[i], hidden, answers) && Reports(qs[i], answers, p)
    ensures ErrorsOf(qs[..i + 1], hidden, answers, errs + [ValidationError(qs[i].id, p)])
  {
    assert qs[..i + 1][..i] == qs[..i];
    assert (errs + [ValidationError(qs[i].id, p)])[..|errs|] == errs;
  }

  method ValidateSurvey(schema: SurveySchema, answers: Answers) returns (errs: seq<ValidationError>)
    ensures ErrorsOf(schema.questions, HiddenIds(schema.rules, answers), answers, errs)
    ensures errs == [] <==> Passes(schema, answers)
  {
    var hidden := Evaluate(schema.rules, answers);
    var qs := schema.questions;
    errs := [];
    for i := 0 to |qs|
      invariant ErrorsOf(qs[..i], hidden, answers, errs)
    {
      var q := qs[i];
      ErrorsSkip(qs, i, hidden, answers, errs);
      if q.id in hidden {
        continue;
      }
      var answer := Lookup(answers, q.id);
      var answered := IsAnswered(answer);
      if q.required && !answered {
        ErrorsAppend(qs, i, hidden, answers, errs, RequiredMissing);
        errs := errs + [ValidationError(q.id, RequiredMissing)];
        continue;
      }
      if !answered {
        continue;
      }
      if q.kind.Unregistered? {
        continue;
      }
      var p := Validate(q, answer);
      PassesIffAccepts(q.kind, q.required, answer, p);
      if p != Fine {
        ErrorsAppend(qs, i, hidden, answers, errs, p);
        errs := errs + [ValidationError(q.id, p)];
      }
    }
    assert qs[..|qs|] == qs;
    NoErrorsIffPasses(qs, hidden, answers, errs);
  }

  lemma SheetRowsNext(qs: seq<Question>, i: nat, hidden: set<string>, answers: Answers)
    requires i < |qs|
    ensures SheetRows(qs[..i + 1], hidden, answers) == SheetRows(qs[..i], hidden, answers) + QuestionRows(qs[i], hidden, answers)
    ensures qs[i].id in hidden || !IsAnswered(Lookup(answers, qs[i].id)) || qs[i].kind.Unregistered? ==>
              SheetRows(qs[..i + 1], hidden, answers) == SheetRows(qs[..i], hidden, answers)
  {
    assert qs[..i + 1][..i] == qs[..i];
  }

  method NormalizeSurvey(schema: SurveySchema, answers: Answers) returns (rows: seq<NormalizedRow>)
    ensures rows == SurveyRows(schema, answers)
  {
    var hidden := Evaluate(schema.rules, answers);
    var qs := schema.questions;
    rows := [];
    for i := 0 to |qs|
      invariant rows == SheetRows(qs[..i], hidden, answers)
    {
      SheetRowsNext(qs, i, hidden, answers);
      var q := qs[i];
      if q.id in hidden {
        continue;
      }
      if q.id !in answers || !IsAnswered(answers[q.id]) {
        continue;
      }
      if q.kind.Unregistered? {
        continue;
      }
      var more := Normalize(q, answers[q.id]);
      rows := rows + more;
    }
    assert qs[..|qs|] == qs;
  }

  // ---------- non-interference ----------

  ghost predicate AgreeOnVisible(schema: SurveySchema, a: Answers, b: Answers) {
    forall q :: q in schema.questions && q.id !in HiddenIds(schema.rules, a) ==> Lookup(a, q.id) == Lookup(b, q.id)
  }

  /** Answers nobody's condition names and no visible question owns cannot change anything. */
  lemma NonInterference(schema: SurveySchema, a: Answers, b: Answers, errs: seq<ValidationError>)
    requires AgreeOnRules(schema.rules, a, b) && AgreeOnVisible(schema, a, b)
    ensures HiddenIds(schema.rules, a) == HiddenIds(schema.rules, b)
    ensures ErrorsOf(schema.questions, HiddenIds(schema.rules, a), a, errs) <==>
            ErrorsOf(schema.questions, HiddenIds(schema.rules, b), b, errs)
    ensures Passes(schema, a) == Passes(schema, b)
    ensures SurveyRows(schema, a) == SurveyRows(schema, b)
  {
    EvaluateReadsOnlyConditions(schema.rules, a, b);
    var hidden := HiddenIds(schema.rules, a);
    SameErrors(schema.questions, hidden, a, b, errs);
    SameRows(schema.questions, hidden, a, b);
    forall q | q in schema.questions ensures Fails(q, hidden, a) == Fails(q, hidden, b) {
    }
  }

  lemma {:induction false} SameErrors(qs: seq<Question>, hidden: set<string>, a: Answers, b: Answers, errs: seq<ValidationError>)
    requires forall q :: q in qs && q.id !in hidden ==> Lookup(a, q.id) == Lookup(b, q.id)
    ensures ErrorsOf(qs, hidden, a, errs) <==> ErrorsOf(qs, hidden, b, errs)
  {
    if qs != [] {
      var n := |qs| - 1;
      SameErrors(qs[..n], hidden, a, b, errs);
      if errs != [] {
        SameErrors(qs[..n], hidden, a, b, errs[..|errs| - 1]);
      }
    }
  }

  lemma {:induction false} SameRows(qs: seq<Question>, hidden: set<string>, a: Answers, b: Answers)
    requires forall q :: q in qs && q.id !in hidden ==> Lookup(a, q.id) == Lookup(b, q.id)
    ensures SheetRows(qs, hidden, a) == SheetRows(qs, hidden, b)
  {
    if qs != [] {
      SameRows(qs[..|qs| - 1], hidden, a, b);
    }
  }

  // ---------- losslessness of a whole sheet ----------

  function RowsFor(rows: seq<NormalizedRow>, qid: string): seq<NormalizedRow> {
    if rows == [] then []
    else
      var n := |rows| - 1;
      RowsFor(rows[..n], qid) + if rows[n].qid == qid then [rows[n]] else []
  }

  function QuestionIds(qs: seq<Question>): seq<string> {
    seq(|qs|, i requires 0 <= i < |qs| => qs[i].id)
  }

  lemma {:induction false} RowsForConcat(xs: seq<NormalizedRow>, ys: seq<NormalizedRow>, qid: string)
    ensures RowsFor(xs + ys, qid) == RowsFor(xs, qid) + RowsFor(ys, qid)
  {
    if ys == [] {
      assert xs + ys == xs;
    } else {
      var n := |ys| - 1;
      assert (xs + ys)[..|xs + ys| - 1] == xs + ys[..n];
      RowsForConcat(xs, ys[..n], qid);
    }
  }

  lemma {:induction false} RowsForUniform(rows: seq<NormalizedRow>, own: string, qid: string)
    requires forall r :: r in rows ==> r.qid == own
    ensures RowsFor(rows, qid) == if own == qid then rows else []
  {
    if rows != [] {
      RowsForUniform(rows[..|rows| - 1], own, qid);
      assert rows == rows[..|rows| - 1] + [rows[|rows| - 1]];
    }
  }

  lemma {:induction false} MultiRowsOwned(qid: string, items: seq<Json>)
    ensures forall r :: r in MultiRows(qid, items) ==> r.qid == qid
  {
    if items != [] {
      MultiRowsOwned(qid, items[..|items| - 1]);
    }
  }

  lemma {:induction false} GridRowsOwned(kind: Kind, qid: string, ids: seq<string>, cells: map<string, Json>)
    ensures forall r :: r in GridRows(kind, qid, ids, cells) ==> r.qid == qid
  {
    if ids != [] {
      GridRowsOwned(kind, qid, ids[..|ids| - 1], cells);
      CellRowsNamed(kind, qid, ids[|ids| - 1], Lookup(cells, ids[|ids| - 1]));
    }
  }

  lemma AnswerRowsOwned(kind: Kind, qid: string, a: Json)
    ensures forall r :: r in AnswerRows(kind, qid, a) ==> r.qid == qid
  {
    if kind.MultiChoice? && a.Arr? {
      MultiRowsOwned(qid, a.items);
    } else if IsGrid(kind) {
      GridRowsOwned(kind, qid, ItemIds(kind), ReadCells(a));
    }
  }

  lemma RowsForStep(qs: seq<Question>, last: Question, hidden: set<string>, answers: Answers, qid: string)
    ensures RowsFor(SheetRows(qs + [last], hidden, answers), qid) ==
            RowsFor(SheetRows(qs, hidden, answers), qid) + if last.id == qid then QuestionRows(last, hidden, answers) else []
  {
    var own := QuestionRows(last, hidden, answers);
    assert (qs + [last])[..|qs|] == qs;
    RowsForConcat(SheetRows(qs, hidden, answers), own, qid);
    AnswerRowsOwned(last.kind, last.id, Lookup(answers, last.id));
    RowsForUniform(own, last.id, qid);
  }

  lemma {:induction false} NoRowsForOthers(qs: seq<Question>, hidden: set<string>, answers: Answers, qid: string)
    requires qid !in QuestionIds(qs)
    ensures RowsFor(SheetRows(qs, hidden, answers), qid) == []
  {
    if qs != [] {
      var init, last := qs[..|qs| - 1], qs[|qs| - 1];
      assert qs == init + [last];
      assert QuestionIds(qs) == QuestionIds(init) + [last.id];
      NoRowsForOthers(init, hidden, answers, qid);
      RowsForStep(init, last, hidden, answers, qid);
    }
  }

  ghost predicate IdOnlyAt(qs: seq<Question>, i: nat)
    requires i < |qs|
  {
    forall j :: 0 <= j < |qs| && j != i ==> qs[j].id != qs[i].id
  }

  /** No other position of the sheet has this question's id. */
  ghost predicate OwnId(qs: seq<Question>, q: Question) {
    exists i :: 0 <= i < |qs| && qs[i] == q && IdOnlyAt(qs, i)
  }

  lemma {:induction false} RowsForQuestion(qs: seq<Question>, hidden: set<string>, answers: Answers, i: nat)
    requires i < |qs| && IdOnlyAt(qs, i)
    ensures RowsFor(SheetRows(qs, hidden, answers), qs[i].id) == QuestionRows(qs[i], hidden, answers)
  {
    var init, last := qs[..|qs| - 1], qs[|qs| - 1];
    assert qs == init + [last];
    RowsForStep(init, last, hidden, answers, qs[i].id);
    if i < |init| {
      RowsForQuestion(init, hidden, answers, i);
    } else {
      assert forall j :: 0 <= j < |init| ==> QuestionIds(init)[j] == qs[j].id;
      NoRowsForOthers(init, hidden, answers, qs[i].id);
    }
  }

  /** Distinct question ids give every question its own. */
  lemma DistinctIdsAreOwn(qs: seq<Question>, q: Question)
    requires Distinct(QuestionIds(qs)) && q in qs
    ensures OwnId(qs, q)
  {
    var i :| 0 <= i < |qs| && qs[i] == q;
    forall j | 0 <= j < |qs| && j != i ensures qs[j].id != q.id {
      assert QuestionIds(qs)[i] == q.id && QuestionIds(qs)[j] == qs[j].id;
    }
  }

  ghost predicate VisibleAnswered(schema: SurveySchema, answers: Answers, q: Question) {
    && q in schema.questions
    && q.id !in HiddenIds(schema.rules, answers)
    && IsAnswered(Lookup(answers, q.id))
  }

  /** Rebuilding a sheet from its rows gives back, in canonical form, every visible answer whose
      question has its id to itself and props that keep answers apart. */
  ghost predicate Rebuilds(schema: SurveySchema, answers: Answers, rows: seq<NormalizedRow>) {
    forall q ::
      VisibleAnswered(schema, answers, q) && OwnId(schema.questions, q) && Recoverable(q.kind) ==>
        Decode(q.kind, RowsFor(rows, q.id)) == Canonical(q.kind, Lookup(answers, q.id))
  }

  /** One question's answer, whatever the other questions are and whether or not they pass. */
  lemma QuestionLossless(schema: SurveySchema, answers: Answers, q: Question)
    requires VisibleAnswered(schema, answers, q) && OwnId(schema.questions, q) && Recoverable(q.kind)
    requires !Fails(q, HiddenIds(schema.rules, answers), answers)
    ensures Decode(q.kind, RowsFor(SurveyRows(schema, answers), q.id)) == Canonical(q.kind, Lookup(answers, q.id))
  {
    var i :| 0 <= i < |schema.questions| && schema.questions[i] == q && IdOnlyAt(schema.questions, i);
    RowsForQuestion(schema.questions, HiddenIds(schema.rules, answers), answers, i);
    AnswerDecodes(q.kind, q.required, q.id, Lookup(answers, q.id));
  }

  lemma SheetLossless(schema: SurveySchema, answers: Answers)
    requires Passes(schema, answers)
    ensures Rebuilds(schema, answers, SurveyRows(schema, answers))
  {
    forall q | VisibleAnswered(schema, answers, q) && OwnId(schema.questions, q) && Recoverable(q.kind)
      ensures Decode(q.kind, RowsFor(SurveyRows(schema, answers), q.id)) == Canonical(q.kind, Lookup(answers, q.id))
    {
      QuestionLossless(schema, answers, q);
    }
  }

  // ---------- a shared question id ----------

  lemma {:induction false} SheetTwice(q: Question, answers: Answers)
    ensures SheetRows([q, q], {}, answers) == QuestionRows(q, {}, answers) + QuestionRows(q, {}, answers)
  {
    assert [q, q][..1] == [q] && [q][..0] == [];
    assert SheetRows([q], {}, answers) == SheetRows([], {}, answers) + QuestionRows(q, {}, answers);
  }

  lemma {:induction false} PicksTwice(qid: string, el: Json)
    ensures MultiRows(qid, [el]) == PickRows(qid, el)
    ensures MultiRows(qid, [el, el]) == PickRows(qid, el) + PickRows(qid, el)
  {
    assert [el, el][..1] == [el] && [el][..0] == [];
    assert MultiRows(qid, [el]) == MultiRows(qid, []) + PickRows(qid, el);
  }

  lemma {:induction false} PicksDecodeTogether(kind: Kind, qid: string, items: seq<Json>)
    requires kind.MultiChoice? && forall i :: 0 <= i < |items| ==> NamedPick(items[i])
    ensures Decode(kind, RowsFor(MultiRows(qid, items), qid)) == Arr(CanonicalPicks(items))
    ensures |CanonicalPicks(items)| == |items|
  {
    MultiRowsOwned(qid, items);
    RowsForUniform(MultiRows(qid, items), qid, qid);
    PicksDecode(qid, items);
  }

  lemma {:induction false} SheetOfPickTwice(q: Question, el: Json)
    requires q.kind.MultiChoice?
    ensures SheetRows([q, q], {}, map[q.id := Arr([el])]) == MultiRows(q.id, [el, el])
  {
    var answers := map[q.id := Arr([el])];
    SheetTwice(q, answers);
    PicksTwice(q.id, el);
    assert Lookup(answers, q.id) == Arr([el]);
    assert QuestionRows(q, {}, answers) == AnswerRows(q.kind, q.id, Arr([el])) == MultiRows(q.id, [el]);
  }

  /** Two questions that share an id leave their rows under one name, and the decoder above takes
      them for one answer: a pick, asked for twice, comes back as two picks. */
  lemma {:induction false} SharedIdDecodesTwice(q: Question, el: Json)
    requires q.kind.MultiChoice? && NamedPick(el)
    ensures var rows := SheetRows([q, q], {}, map[q.id := Arr([el])]);
            && Decode(q.kind, RowsFor(rows, q.id)) == Arr(CanonicalPicks([el, el]))
            && Canonical(q.kind, Arr([el])) == Arr(CanonicalPicks([el]))
            && Decode(q.kind, RowsFor(rows, q.id)) != Canonical(q.kind, Arr([el]))
  {
    SheetOfPickTwice(q, el);
    PicksDecodeTogether(q.kind, q.id, [el, el]);
    assert |CanonicalPicks([el])| == 1;
  }
}
