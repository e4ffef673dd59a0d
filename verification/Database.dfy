/** The four tables and what each statement or transaction of the data-access layer does to them. */
module Database {
  import opened Base
  import opened Schema
  import opened Documents

  datatype Status = Draft | Live | Closed
  datatype Access = Anonymous | LoginRequired
  datatype Display = Paged | Single

  datatype SurveyRow = SurveyRow(
    owner: string,
    typ: string,
    title: string,
    status: Status,
    draft: Doc,
    published: Option<int>,
    access: Access,
    display: Display)

  datatype Response = Response(surveyId: string, version: int, raw: Answers)

  datatype AnswerRow = AnswerRow(
    responseId: string,
    surveyId: string,
    version: int,
    qid: string,
    subId: Option<string>,
    valueText: Option<string>,
    valueNum: Option<real>)

  datatype Db = Db(
    surveys: map<string, SurveyRow>,
    versions: map<string, map<int, Doc>>,
    responses: map<string, Response>,
    answerRows: seq<AnswerRow>)

  const EMPTY := Db(map[], map[], map[], [])

  // ---------- queries ----------

  function VersionsOf(versions: map<string, map<int, Doc>>, sid: string): map<int, Doc> {
    if sid in versions then versions[sid] else map[]
  }

  lemma {:induction false} MaximumExists(keys: set<int>) returns (m: int)
    requires keys != {}
    ensures m in keys && forall k :: k in keys ==> k <= m
  {
    var k := AnElement(keys);
    m := k;
    var rest := keys - {k};
    assert forall x :: x in keys ==> x == k || x in rest;
    if rest != {} {
      var n := MaximumExists(rest);
      if n > m {
        m := n;
      }
    }
  }

  /** COALESCE(MAX(version), 0). */
  ghost function MaxVersion(vs: map<int, Doc>): int {
    if vs == map[] then 0
    else
      assert exists m :: m in vs.Keys && forall k :: k in vs.Keys ==> k <= m by {
        assert vs.Keys != {};
        var m := MaximumExists(vs.Keys);
      }
      var m :| m in vs.Keys && forall k :: k in vs.Keys ==> k <= m;
      m
  }

  function GetVersionSchema(db: Db, sid: string, v: int): Option<Doc> {
    if v in VersionsOf(db.versions, sid) then Some(VersionsOf(db.versions, sid)[v]) else None
  }

  /** Joins the published version of a live survey; no row otherwise. */
  function GetPublishedSchema(db: Db, sid: string): Option<Doc> {
    if sid !in db.surveys || !db.surveys[sid].status.Live? || db.surveys[sid].published.None? then None
    else GetVersionSchema(db, sid, db.surveys[sid].published.value)
  }

  // ---------- statements ----------

  function SurveyInserted(db: Db, sid: string, row: SurveyRow): Db {
    db.(surveys := db.surveys[sid := row])
  }

  /** An UPDATE touches the row of that id if there is one. */
  function DraftUpdated(db: Db, sid: string, title: string, typ: string, draft: Doc): Db {
    if sid !in db.surveys then db
    else db.(surveys := db.surveys[sid := db.surveys[sid].(draft := draft, title := title, typ := typ)])
  }

  function StatusSet(db: Db, sid: string, status: Status): Db {
    if sid !in db.surveys then db else db.(surveys := db.surveys[sid := db.surveys[sid].(status := status)])
  }

  function AccessSet(db: Db, sid: string, access: Access): Db {
    if sid !in db.surveys then db else db.(surveys := db.surveys[sid := db.surveys[sid].(access := access)])
  }

  function DisplaySet(db: Db, sid: string, display: Display): Db {
    if sid !in db.surveys then db else db.(surveys := db.surveys[sid := db.surveys[sid].(display := display)])
  }

  /** The publish transaction's writes: a new snapshot, and the survey pointing at it and live. */
  function VersionPublished(db: Db, sid: string, v: int, snapshot: Doc): Db
    requires sid in db.surveys
  {
    db.(versions := db.versions[sid := VersionsOf(db.versions, sid)[v := snapshot]],
        surveys := db.surveys[sid := db.surveys[sid].(published := Some(v), status := Live)])
  }

  // ---------- answer rows ----------

  /** A number goes to value_num, a string to value_text; an empty sub id is NULL. */
  function EncodeRow(rid: string, sid: string, version: int, r: NormalizedRow): AnswerRow {
    AnswerRow(rid, sid, version, r.qid,
              if r.subId == "" then None else Some(r.subId),
              if r.value.Text? then Some(r.value.text) else None,
              if r.value.Number? then Some(r.value.number) else None)
  }

  function DecodeRow(a: AnswerRow): NormalizedRow {
    NormalizedRow(a.qid,
                  if a.subId.Some? then a.subId.value else "",
                  if a.valueNum.Some? then Number(a.valueNum.value)
                  else Text(if a.valueText.Some? then a.valueText.value else ""))
  }

  predicate OneValue(a: AnswerRow) {
    a.valueText.Some? != a.valueNum.Some?
  }

  /** The typed columns hold exactly one value and give the row back. */
  lemma RowRoundTrip(rid: string, sid: string, version: int, r: NormalizedRow)
    ensures OneValue(EncodeRow(rid, sid, version, r))
    ensures DecodeRow(EncodeRow(rid, sid, version, r)) == r
  {
  }

  function EncodeRows(rid: string, sid: string, version: int, rows: seq<NormalizedRow>): (out: seq<AnswerRow>)
    ensures |out| == |rows|
  {
    seq(|rows|, i requires 0 <= i < |rows| => EncodeRow(rid, sid, version, rows[i]))
  }

  function RowsOf(table: seq<AnswerRow>, rid: string): seq<AnswerRow> {
    if table == [] then []
    else
      var n := |table| - 1;
      RowsOf(table[..n], rid) + if table[n].responseId == rid then [table[n]] else []
  }

  function DecodeRows(rows: seq<AnswerRow>): seq<NormalizedRow> {
    seq(|rows|, i requires 0 <= i < |rows| => DecodeRow(rows[i]))
  }

  /** The whole submission transaction. */
  function SubmissionSaved(db: Db, rid: string, sid: string, version: int, raw: Answers, rows: seq<NormalizedRow>): Db {
    db.(responses := db.responses[rid := Response(sid, version, raw)],
        answerRows := db.answerRows + EncodeRows(rid, sid, version, rows))
  }

  lemma {:induction false} RowsOfConcat(xs: seq<AnswerRow>, ys: seq<AnswerRow>, rid: string)
    ensures RowsOf(xs + ys, rid) == RowsOf(xs, rid) + RowsOf(ys, rid)
  {
    if ys == [] {
      assert xs + ys == xs;
    } else {
      var n := |ys| - 1;
      assert (xs + ys)[..|xs + ys| - 1] == xs + ys[..n];
      RowsOfConcat(xs, ys[..n], rid);
    }
  }

  lemma {:induction false} RowsOfOwn(rows: seq<AnswerRow>, own: string, rid: string)
    requires forall i :: 0 <= i < |rows| ==> rows[i].responseId == own
    ensures RowsOf(rows, rid) == if own == rid then rows else []
  {
    if rows != [] {
      RowsOfOwn(rows[..|rows| - 1], own, rid);
      assert rows == rows[..|rows| - 1] + [rows[|rows| - 1]];
    }
  }

  lemma {:induction false} RowsOfAbsent(rows: seq<AnswerRow>, rid: string)
    requires forall i :: 0 <= i < |rows| ==> rows[i].responseId != rid
    ensures RowsOf(rows, rid) == []
  {
    if rows != [] {
      RowsOfAbsent(rows[..|rows| - 1], rid);
    }
  }

  /** Saving under a fresh id adds exactly that response's rows, which decode to the rows saved,
      and leaves every other response's rows as they were. */
  lemma SavedRowsDecode(table: seq<AnswerRow>, rid: string, sid: string, version: int, rows: seq<NormalizedRow>, other: string)
    requires forall i :: 0 <= i < |table| ==> table[i].responseId != rid
    ensures RowsOf(table + EncodeRows(rid, sid, version, rows), rid) == EncodeRows(rid, sid, version, rows)
    ensures DecodeRows(EncodeRows(rid, sid, version, rows)) == rows
    ensures other != rid ==> RowsOf(table + EncodeRows(rid, sid, version, rows), other) == RowsOf(table, other)
  {
    var more := EncodeRows(rid, sid, version, rows);
    assert RowsOf(table + more, rid) == more by {
      RowsOfConcat(table, more, rid);
      RowsOfOwn(more, rid, rid);
      RowsOfAbsent(table, rid);
    }
    if other != rid {
      RowsOfConcat(table, more, other);
      RowsOfOwn(more, rid, other);
    }
    RowsDecode(rid, sid, version, rows);
  }

  lemma RowsDecode(rid: string, sid: string, version: int, rows: seq<NormalizedRow>)
    ensures DecodeRows(EncodeRows(rid, sid, version, rows)) == rows
  {
  }
}
