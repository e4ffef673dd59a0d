/** Visibility rules: the short-circuiting evaluator and its declarative meaning. */
module Logic {
  import opened Base
  import opened Schema

  predicate IsAnswered(a: Json) {
    a != Null && a != Str("")
  }

  function PickComparable(raw: Json, subId: string): Json {
    if subId != "" then
      if raw.Obj? then Lookup(raw.fields, subId) else Null
    else PickElemValue(raw)
  }

  /** An object with its own `value` field compares by that field; everything else by itself. */
  function PickElemValue(el: Json): Json {
    if el.Obj? && "value" in el.fields then el.fields["value"] else el
  }

  /** Strict equality of JSON scalars; null, arrays and objects never compare equal. */
  predicate JsEqual(a: Json, b: Json) {
    a == b && (a.Str? || a.Num? || a.Bool?)
  }

  /** The meaning of one condition. */
  predicate Holds(c: Condition, answers: Answers) {
    var a := PickComparable(Lookup(answers, c.qid), c.subId);
    match c.op
    case Answered => IsAnswered(a)
    case Empty => !IsAnswered(a)
    case Eq => JsEqual(a, c.value)
    case Ne => !JsEqual(a, c.value)
    case Includes => a.Arr? && exists i :: 0 <= i < |a.items| && JsEqual(PickElemValue(a.items[i]), c.value)
    case Gt => a.Num? && c.value.Num? && a.num > c.value.num
    case Lt => a.Num? && c.value.Num? && a.num < c.value.num
    case UnknownOp => false
  }

  /** A rule fires on a non-empty "for all" (AND) or on an "exists" (anything else). */
  predicate Fires(r: LogicRule, answers: Answers) {
    if r.combinator.And? then
      r.conditions != [] && forall c :: c in r.conditions ==> Holds(c, answers)
    else
      exists c :: c in r.conditions && Holds(c, answers)
  }

  predicate Targeted(rules: seq<LogicRule>, answers: Answers, action: Action) {
    exists r :: r in rules && r.action == action && Fires(r, answers)
  }

  /** An id is hidden iff a fired hide rule targets it and no fired show rule does. */
  predicate Hidden(rules: seq<LogicRule>, answers: Answers, id: string) {
    Targeted(rules, answers, Hide(id)) && !Targeted(rules, answers, Show(id))
  }

  function HiddenIds(rules: seq<LogicRule>, answers: Answers): set<string> {
    set r | r in rules && Hidden(rules, answers, r.action.target) :: r.action.target
  }

  lemma HiddenIdsMeaning(rules: seq<LogicRule>, answers: Answers, id: string)
    ensures id in HiddenIds(rules, answers) <==> Hidden(rules, answers, id)
  {
  }

  method EvalCondition(c: Condition, answers: Answers) returns (b: bool)
    ensures b == Holds(c, answers)
  {
    var raw := Lookup(answers, c.qid);
    var a := PickComparable(raw, c.subId);
    var answered := IsAnswered(a);
    match c.op {
      case Answered => return answered;
      case Empty => return !answered;
      case Eq => return JsEqual(a, c.value);
      case Ne => return !JsEqual(a, c.value);
      case Includes =>
        if !a.Arr? {
          return false;
        }
        for i := 0 to |a.items|
          invariant forall j :: 0 <= j < i ==> !JsEqual(PickElemValue(a.items[j]), c.value)
        {
          if JsEqual(PickElemValue(a.items[i]), c.value) {
            return true;
          }
        }
        return false;
      case Gt => return a.Num? && c.value.Num? && a.num > c.value.num;
      case Lt => return a.Num? && c.value.Num? && a.num < c.value.num;
      case UnknownOp => return false;
    }
  }

  method EvalConditions(r: LogicRule, answers: Answers) returns (fired: bool)
    ensures fired == Fires(r, answers)
  {
    var cs := r.conditions;
    if |cs| == 0 {
      return false;
    }
    if r.combinator.And? {
      for i := 0 to |cs|
        invariant forall c :: c in cs[..i] ==> Holds(c, answers)
      {
        var b := EvalCondition(cs[i], answers);
        if !b {
          return false;
        }
        assert cs[..i + 1] == cs[..i] + [cs[i]];
      }
      assert cs[..|cs|] == cs;
      return true;
    }
    for i := 0 to |cs|
      invariant forall c :: c in cs[..i] ==> !Holds(c, answers)
    {
      var b := EvalCondition(cs[i], answers);
      if b {
        return true;
      }
      assert cs[..i + 1] == cs[..i] + [cs[i]];
    }
    assert cs[..|cs|] == cs;
    return false;
  }

  /** One pass over the rules, then the forced-show ids are deleted from the hidden ones
      in whatever order the map yields them. */
  method Evaluate(rules: seq<LogicRule>, answers: Answers) returns (hidden: set<string>)
    ensures hidden == HiddenIds(rules, answers)
  {
    hidden := {};
    var forcedShow: set<string> := {};
    for i := 0 to |rules|
      invariant forall id :: id in hidden <==> Targeted(rules[..i], answers, Hide(id))
      invariant forall id :: id in forcedShow <==> Targeted(rules[..i], answers, Show(id))
    {
      ghost var before := rules[..i];
      assert rules[..i + 1] == before + [rules[i]];
      forall a: Action ensures Targeted(rules[..i + 1], answers, a) <==>
                               Targeted(before, answers, a) || (rules[i].action == a && Fires(rules[i], answers))
      {
        TargetedAppend(before, rules[i], answers, a);
      }
      var fired := EvalConditions(rules[i], answers);
      if fired {
        match rules[i].action {
          case Hide(target) => hidden := hidden + {target};
          case Show(target) => forcedShow := forcedShow + {target};
          case Reserved(_) =>
        }
      }
    }
    assert rules[..|rules|] == rules;
    ghost var all, shown := hidden, forcedShow;
    var todo := forcedShow;
    while todo != {}
      invariant todo <= shown
      invariant hidden == all - (shown - todo)
    {
      var id :| id in todo;
      hidden := hidden - {id};
      todo := todo - {id};
    }
    forall id ensures id in hidden <==> id in HiddenIds(rules, answers) {
      HiddenIdsMeaning(rules, answers, id);
    }
  }

  lemma TargetedAppend(rules: seq<LogicRule>, r: LogicRule, answers: Answers, a: Action)
    ensures Targeted(rules + [r], answers, a) <==>
            Targeted(rules, answers, a) || (r.action == a && Fires(r, answers))
  {
  }

  /** Only the set of rules matters: permuting or duplicating rules changes nothing. */
  lemma RuleOrderIrrelevant(rules: seq<LogicRule>, other: seq<LogicRule>, answers: Answers)
    requires forall r :: r in rules <==> r in other
    ensures HiddenIds(rules, answers) == HiddenIds(other, answers)
  {
  }

  /** The two sheets agree on every answer an evaluation can read. */
  predicate AgreeOnRules(rules: seq<LogicRule>, a: Answers, b: Answers) {
    forall r, c :: r in rules && c in r.conditions ==> Lookup(a, c.qid) == Lookup(b, c.qid)
  }

  /** Evaluation depends on nothing but the answers its conditions name. */
  lemma EvaluateReadsOnlyConditions(rules: seq<LogicRule>, a: Answers, b: Answers)
    requires AgreeOnRules(rules, a, b)
    ensures HiddenIds(rules, a) == HiddenIds(rules, b)
  {
    forall r | r in rules ensures Fires(r, a) == Fires(r, b) {
      forall c | c in r.conditions ensures Holds(c, a) == Holds(c, b) {
        assert Lookup(a, c.qid) == Lookup(b, c.qid);
      }
    }
    forall x: Action ensures Targeted(rules, a, x) == Targeted(rules, b, x) {
    }
    forall id ensures id in HiddenIds(rules, a) <==> id in HiddenIds(rules, b) {
      HiddenIdsMeaning(rules, a, id);
      HiddenIdsMeaning(rules, b, id);
    }
  }
}
