/** What the comparisons, combinators and actions of a rule mean to the ids it hides, in terms of
    the raw answers. */
module Conditions {
  import opened Base
  import opened Schema
  import opened Logic

  /** What the rule "if these conditions, hide the target" does on its own. */
  ghost predicate HiddenIf(cs: seq<Condition>, comb: Combinator, target: string, answers: Answers) {
    target in HiddenIds([LogicRule(cs, comb, Hide(target))], answers)
  }

  /** A rule of one condition: either combinator reads it alike. */
  ghost predicate Hides(c: Condition, answers: Answers) {
    HiddenIf([c], And, "t", answers)
  }

  lemma OneCondition(c: Condition, comb: Combinator, target: string, answers: Answers)
    ensures HiddenIf([c], comb, target, answers) <==> Holds(c, answers)
  {
    var r := LogicRule([c], comb, Hide(target));
    assert c in r.conditions && r in [r];
    HiddenIdsMeaning([r], answers, target);
    if Fires(r, answers) {
      assert Targeted([r], answers, Hide(target));
    }
  }

  // ---------- comparisons ----------

  /** On numbers: greater, less and equal are what they say, and exactly one of them holds. */
  lemma NumbersCompare(qid: string, x: real, v: real, answers: Answers)
    requires Lookup(answers, qid) == Num(x)
    ensures Hides(Condition(qid, "", Gt, Num(v)), answers) <==> x > v
    ensures Hides(Condition(qid, "", Lt, Num(v)), answers) <==> x < v
    ensures Hides(Condition(qid, "", Eq, Num(v)), answers) <==> x == v
    ensures Hides(Condition(qid, "", Ne, Num(v)), answers) <==> x != v
  {
    OneCondition(Condition(qid, "", Gt, Num(v)), And, "t", answers);
    OneCondition(Condition(qid, "", Lt, Num(v)), And, "t", answers);
    OneCondition(Condition(qid, "", Eq, Num(v)), And, "t", answers);
    OneCondition(Condition(qid, "", Ne, Num(v)), And, "t", answers);
  }

  /** Anything that is not two numbers is neither greater nor less. */
  lemma OnlyNumbersOrder(qid: string, v: Json, answers: Answers)
    requires !Lookup(answers, qid).Obj? && (!Lookup(answers, qid).Num? || !v.Num?)
    ensures !Hides(Condition(qid, "", Gt, v), answers) && !Hides(Condition(qid, "", Lt, v), answers)
  {
    OneCondition(Condition(qid, "", Gt, v), And, "t", answers);
    OneCondition(Condition(qid, "", Lt, v), And, "t", answers);
  }

  /** Equality is that of scalars of one type: null, arrays and objects equal nothing, themselves
      included. Not-equal is its complement, so it holds of a missing answer. */
  lemma EqualityIsStrict(qid: string, v: Json, answers: Answers)
    requires !Lookup(answers, qid).Obj?
    ensures var a := Lookup(answers, qid);
            Hides(Condition(qid, "", Eq, v), answers) <==>
            match a
            case Str(s) => v == Str(s)
            case Num(n) => v == Num(n)
            case Bool(b) => v == Bool(b)
            case _ => false
    ensures Hides(Condition(qid, "", Ne, v), answers) <==> !Hides(Condition(qid, "", Eq, v), answers)
  {
    OneCondition(Condition(qid, "", Eq, v), And, "t", answers);
    OneCondition(Condition(qid, "", Ne, v), And, "t", answers);
  }

  /** Empty is a missing answer, null or the empty string; everything else is answered, the empty
      array, zero and false included. */
  lemma AnsweredOrEmpty(qid: string, v: Json, answers: Answers)
    requires !Lookup(answers, qid).Obj?
    ensures Hides(Condition(qid, "", Empty, v), answers) <==>
            qid !in answers || answers[qid] == Null || answers[qid] == Str("")
    ensures Hides(Condition(qid, "", Answered, v), answers) <==> !Hides(Condition(qid, "", Empty, v), answers)
  {
    OneCondition(Condition(qid, "", Empty, v), And, "t", answers);
    OneCondition(Condition(qid, "", Answered, v), And, "t", answers);
  }

  /** An array includes a scalar iff some element is that scalar, or an object whose `value` is. */
  lemma IncludesFinds(qid: string, v: Json, answers: Answers)
    requires !Lookup(answers, qid).Obj?
    ensures Hides(Condition(qid, "", Includes, v), answers) <==>
            && (v.Str? || v.Num? || v.Bool?)
            && Lookup(answers, qid).Arr?
            && exists i :: 0 <= i < |Lookup(answers, qid).items| &&
                 (Lookup(answers, qid).items[i] == v
                  || (Lookup(answers, qid).items[i].Obj? && Lookup(Lookup(answers, qid).items[i].fields, "value") == v))
  {
    OneCondition(Condition(qid, "", Includes, v), And, "t", answers);
    var a := Lookup(answers, qid);
    if a.Arr? && (v.Str? || v.Num? || v.Bool?) {
      forall i | 0 <= i < |a.items|
        ensures JsEqual(PickElemValue(a.items[i]), v) <==>
                a.items[i] == v || (a.items[i].Obj? && Lookup(a.items[i].fields, "value") == v)
      {
      }
    }
  }

  /** An operator the program does not know never holds. */
  lemma UnknownNeverHolds(qid: string, subId: string, v: Json, answers: Answers)
    ensures !Hides(Condition(qid, subId, UnknownOp, v), answers)
  {
    OneCondition(Condition(qid, subId, UnknownOp, v), And, "t", answers);
  }

  /** A choice answered as an object compares, under every operator, as its bare `value` would. */
  lemma ObjectComparesByValue(qid: string, op: Comparison, v: Json, m: map<string, Json>, answers: Answers)
    requires "value" in m && !m["value"].Obj?
    ensures Hides(Condition(qid, "", op, v), answers[qid := Obj(m)]) <==>
            Hides(Condition(qid, "", op, v), answers[qid := m["value"]])
  {
    OneCondition(Condition(qid, "", op, v), And, "t", answers[qid := Obj(m)]);
    OneCondition(Condition(qid, "", op, v), And, "t", answers[qid := m["value"]]);
  }

  /** An object without a `value`, one whose `value` is again an object, and a cell that is an
      object, count as answered and equal nothing: values are taken out of objects once. */
  lemma ObjectsAreOpaque(qid: string, subId: string, op: Comparison, v: Json, m: map<string, Json>, answers: Answers)
    requires Lookup(answers, qid) == Obj(m)
    requires if subId == "" then "value" in m ==> m["value"].Obj? else Lookup(m, subId).Obj?
    ensures Hides(Condition(qid, subId, op, v), answers) <==> op.Answered? || op.Ne?
  {
    OneCondition(Condition(qid, subId, op, v), And, "t", answers);
  }

  /** With a sub id the condition is on that cell of an object answer, as if the cell were the
      answer to a question of its own; any other answer has no cells. */
  lemma SubIdReadsCell(qid: string, subId: string, op: Comparison, v: Json, answers: Answers)
    requires subId != ""
    requires Lookup(answers, qid).Obj? ==> !Lookup(Lookup(answers, qid).fields, subId).Obj?
    ensures var cell := if Lookup(answers, qid).Obj? then Lookup(Lookup(answers, qid).fields, subId) else Null;
            Hides(Condition(qid, subId, op, v), answers) <==> Hides(Condition(qid, "", op, v), answers[qid := cell])
  {
    var cell := if Lookup(answers, qid).Obj? then Lookup(Lookup(answers, qid).fields, subId) else Null;
    OneCondition(Condition(qid, subId, op, v), And, "t", answers);
    OneCondition(Condition(qid, "", op, v), And, "t", answers[qid := cell]);
  }

  // ---------- combinators and actions ----------

  /** No conditions never hide; AND needs every one of them to hide on its own, OR any one. */
  lemma ConditionsCombine(cs: seq<Condition>, comb: Combinator, target: string, answers: Answers)
    ensures HiddenIf(cs, comb, target, answers) <==>
            match comb
            case And => cs != [] && forall c :: c in cs ==> Hides(c, answers)
            case Or => exists c :: c in cs && Hides(c, answers)
  {
    var r := LogicRule(cs, comb, Hide(target));
    HiddenIdsMeaning([r], answers, target);
    assert r in [r];
    assert Targeted([r], answers, Hide(target)) <==> Fires(r, answers);
    forall c | c in cs ensures Hides(c, answers) <==> Holds(c, answers) {
      OneCondition(c, And, "t", answers);
    }
  }

  /** Adding a hide rule hides its target and nothing else, unless some fired rule shows it. */
  lemma HideAdds(rules: seq<LogicRule>, cs: seq<Condition>, comb: Combinator, target: string, answers: Answers, id: string)
    ensures id in HiddenIds(rules + [LogicRule(cs, comb, Hide(target))], answers) <==>
            id in HiddenIds(rules, answers) ||
            (id == target && HiddenIf(cs, comb, target, answers) && !Targeted(rules, answers, Show(id)))
  {
    var r := LogicRule(cs, comb, Hide(target));
    HiddenIdsMeaning(rules + [r], answers, id);
    HiddenIdsMeaning(rules, answers, id);
    HiddenIdsMeaning([r], answers, target);
    TargetedAppend(rules, r, answers, Hide(id));
    TargetedAppend(rules, r, answers, Show(id));
    assert r in [r];
    assert Targeted([r], answers, Hide(target)) <==> Fires(r, answers);
  }

  /** Adding a show rule that fires reveals its target whatever hides it, and nothing else; one
      that does not fire, and any reserved action, changes nothing. */
  lemma ShowReveals(rules: seq<LogicRule>, cs: seq<Condition>, comb: Combinator, target: string, answers: Answers, id: string)
    ensures id in HiddenIds(rules + [LogicRule(cs, comb, Show(target))], answers) <==>
            id in HiddenIds(rules, answers) && !(id == target && HiddenIf(cs, comb, target, answers))
    ensures id in HiddenIds(rules + [LogicRule(cs, comb, Reserved(target))], answers) <==> id in HiddenIds(rules, answers)
  {
    var h, r := LogicRule(cs, comb, Hide(target)), LogicRule(cs, comb, Show(target));
    var reserved := LogicRule(cs, comb, Reserved(target));
    HiddenIdsMeaning(rules + [r], answers, id);
    HiddenIdsMeaning(rules + [reserved], answers, id);
    HiddenIdsMeaning(rules, answers, id);
    HiddenIdsMeaning([h], answers, target);
    TargetedAppend(rules, r, answers, Hide(id));
    TargetedAppend(rules, r, answers, Show(id));
    TargetedAppend(rules, reserved, answers, Hide(id));
    TargetedAppend(rules, reserved, answers, Show(id));
    assert h in [h];
    assert Targeted([h], answers, Hide(target)) <==> Fires(h, answers);
  }
}
