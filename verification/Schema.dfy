/** The decoded survey schema. Question types carry their decoded props. */
module Schema {
  import opened Base

  /** Property validation of a text box. Formats other than the identity card are library
      behaviour, so they are an arbitrary predicate on the value. */
  datatype Format = Plain | IdentityCard | Checked(accepts: string -> bool)

  datatype TextRules = TextRules(format: Format, minLength: Option<int>, maxLength: Option<int>)

  datatype Fill = NoFill | Fill(enabled: bool, required: bool)

  datatype ChoiceOption = ChoiceOption(value: string, fill: Fill)

  datatype ScoredColumn = ScoredColumn(value: string, score: Option<real>)

  datatype Blank = Blank(id: string, rules: TextRules)

  datatype Kind =
    | SingleChoice(options: seq<ChoiceOption>)
    | MultiChoice(options: seq<ChoiceOption>, min: Option<int>, max: Option<int>)
    | Dropdown(values: seq<string>)
    | Scale(lo: Option<real>, hi: Option<real>)
    | TextInput(rules: TextRules)
    | Textarea(minLength: Option<int>, maxLength: Option<int>)
    | MatrixSingle(rows: seq<string>, columns: seq<string>)
    | MatrixMulti(rows: seq<string>, columns: seq<string>, min: Option<int>, max: Option<int>)
    | MatrixScale(rows: seq<string>, scored: seq<ScoredColumn>)
    | MatrixFill(rows: seq<string>, maxLength: Option<int>)
    | MatrixSlider(rows: seq<string>, lo: Option<real>, hi: Option<real>)
    | MultiFill(blanks: seq<Blank>)
    | Unregistered

  datatype Question = Question(id: string, kind: Kind, required: bool)

  datatype Comparison = Eq | Ne | Includes | Gt | Lt | Answered | Empty | UnknownOp

  datatype Condition = Condition(qid: string, subId: string, op: Comparison, value: Json)

  /** Anything that is not AND is evaluated as OR. */
  datatype Combinator = And | Or

  datatype Action = Show(target: string) | Hide(target: string) | Reserved(target: string)

  datatype LogicRule = LogicRule(conditions: seq<Condition>, combinator: Combinator, action: Action)

  datatype SurveySchema = SurveySchema(
    typ: string,
    title: string,
    version: int,
    questions: seq<Question>,
    rules: seq<LogicRule>)

  datatype Value = Text(text: string) | Number(number: real)

  datatype NormalizedRow = NormalizedRow(qid: string, subId: string, value: Value)
}
