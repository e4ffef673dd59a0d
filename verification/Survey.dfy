/** The handlers' computations on a schema document: decode it, rerun the pipeline on it. */
module Survey {
  import opened Base
  import opened Schema
  import opened Documents
  import opened Pipeline
  import opened Machine

  /** Decoding a schema document; None is a decoding error. */
  type Parser = Doc -> Option<SurveySchema>

  /** All that is assumed of the decoder: `version` is read from the field of that name. */
  ghost predicate DecodesVersion(parse: Parser) {
    forall d: Doc, v: int {:trigger Stamp(d, v)} :: parse(Stamp(d, v)).Some? ==> parse(Stamp(d, v)).value.version == v
  }

  ghost function Judge(parse: Parser, doc: Doc, answers: Answers): Verdict {
    match parse(doc)
    case None => Unreadable
    case Some(schema) =>
      if Passes(schema, answers) then Accepted(schema.version, SurveyRows(schema, answers)) else Refused
  }

  function HeadingOf(parse: Parser, doc: Doc): Option<Heading> {
    match parse(doc)
    case None => None
    case Some(schema) => Some(Heading(schema.typ, schema.title))
  }

  ghost function SurveyApp(parse: Parser): App {
    App(doc => HeadingOf(parse, doc), (doc, answers) => Judge(parse, doc, answers))
  }

  lemma SurveyReadsVersion(parse: Parser)
    requires DecodesVersion(parse)
    ensures ReadsVersion(SurveyApp(parse))
  {
    forall d: Doc, v: int, a: Answers | SurveyApp(parse).judge(Stamp(d, v), a).Accepted?
      ensures SurveyApp(parse).judge(Stamp(d, v), a).version == v
    {
      assert SurveyApp(parse).judge(Stamp(d, v), a) == Judge(parse, Stamp(d, v), a);
    }
  }
}
