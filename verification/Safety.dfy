/** What every interleaving keeps: an invariant over the tables and over every in-flight
    operation's stale reads, and what it says about versions, lifecycle and responses. */
module Safety {
  import opened Base
  import opened Schema
  import opened Documents
  import opened Database
  import opened Machine

  // ---------- the invariant ----------

  /** Number of versions the survey row claims. */
  function Count(row: SurveyRow): int {
    if row.published.Some? then row.published.value else 0
  }

  ghost predicate RowOk(row: SurveyRow, vs: map<int, Doc>) {
    && (row.status.Draft? <==> row.published.None?)
    && (row.published.Some? ==> row.published.value >= 1)
    && (forall k :: k in vs <==> 1 <= k <= Count(row))
    && (forall k :: k in vs ==> vs[k] == Stamp(vs[k], k))
  }

  ghost predicate VersionsFit(surveys: map<string, SurveyRow>, versions: map<string, map<int, Doc>>) {
    && versions.Keys <= surveys.Keys
    && forall sid :: sid in surveys ==> RowOk(surveys[sid], VersionsOf(versions, sid))
  }

  ghost predicate ResponsesFit(sids: set<string>, responses: map<string, Response>, table: seq<AnswerRow>) {
    && (forall rid :: rid in responses ==> responses[rid].surveyId in sids)
    && (forall i :: 0 <= i < |table| ==> table[i].responseId in responses && OneValue(table[i]))
  }

  ghost predicate TablesOk(db: Db) {
    VersionsFit(db.surveys, db.versions) && ResponsesFit(db.surveys.Keys, db.responses, db.answerRows)
  }

  /** A snapshot explains a response and its answer rows: it accepts the raw answers, and the rows
      are exactly what it normalises them to, in order and under the response's own columns. */
  ghost predicate Explains(app: App, doc: Doc, rid: string, r: Response, rows: seq<AnswerRow>) {
    && app.judge(doc, r.raw).Accepted?
    && app.judge(doc, r.raw).version == r.version
    && rows == EncodeRows(rid, r.surveyId, r.version, app.judge(doc, r.raw).rows)
  }

  /** Every response names a version whose snapshot exists and explains it. */
  ghost predicate AllExplained(
    app: App, versions: map<string, map<int, Doc>>, responses: map<string, Response>, table: seq<AnswerRow>)
  {
    forall rid :: rid in responses ==>
      && responses[rid].version in VersionsOf(versions, responses[rid].surveyId)
      && Explains(app, VersionsOf(versions, responses[rid].surveyId)[responses[rid].version], rid, responses[rid], RowsOf(table, rid))
  }

  ghost predicate DbOk(app: App, db: Db) {
    TablesOk(db) && AllExplained(app, db.versions, db.responses, db.answerRows)
  }

  ghost predicate Snapshot(db: Db, sid: string, doc: Doc) {
    exists k :: k in VersionsOf(db.versions, sid) && VersionsOf(db.versions, sid)[k] == doc
  }

  /** What an in-flight operation may rely on, however stale its reads. */
  ghost predicate OpOk(db: Db, op: Op) {
    && op.sid in db.surveys
    && var row := db.surveys[op.sid];
       match op
       case CloseReady(_) => row.published.Some?
       case ReopenReady(_) => row.published.Some?
       case PublishMax(_, _, maxV) => 0 <= maxV <= Count(row)
       case PublishCommit(sid, draft, maxV) =>
         && 0 <= maxV <= Count(row)
         && (maxV > 0 ==> GetVersionSchema(db, sid, maxV).Some? && !SameContent(draft, GetVersionSchema(db, sid, maxV).value))
       case SubmitAdmitted(_, authenticated, _, _, meta) => meta.status.Live? && (meta.access.LoginRequired? <==> authenticated)
       case SubmitLoaded(sid, authenticated, _, meta, doc) =>
         meta.status.Live? && (meta.access.LoginRequired? <==> authenticated) && Snapshot(db, sid, doc)
       case _ => true
  }

  ghost predicate Inv(app: App, s: Sys) {
    && DbOk(app, s.db)
    && forall id :: id in s.ops ==> OpOk(s.db, s.ops[id])
  }

  // ---------- what never goes back ----------

  ghost predicate SnapshotsStay(versions: map<string, map<int, Doc>>, later: map<string, map<int, Doc>>) {
    forall sid, k :: k in VersionsOf(versions, sid) ==>
      k in VersionsOf(later, sid) && VersionsOf(later, sid)[k] == VersionsOf(versions, sid)[k]
  }

  ghost predicate SurveysGrow(surveys: map<string, SurveyRow>, later: map<string, SurveyRow>) {
    forall sid :: sid in surveys ==>
      && sid in later
      && later[sid].owner == surveys[sid].owner
      && Count(surveys[sid]) <= Count(later[sid])
      && (!surveys[sid].status.Draft? ==> !later[sid].status.Draft?)
  }

  ghost predicate ResponsesStay(
    responses: map<string, Response>, table: seq<AnswerRow>, later: map<string, Response>, laterTable: seq<AnswerRow>)
  {
    forall rid :: rid in responses ==>
      rid in later && later[rid] == responses[rid] && RowsOf(laterTable, rid) == RowsOf(table, rid)
  }

  ghost predicate Grows(db: Db, later: Db) {
    && SurveysGrow(db.surveys, later.surveys)
    && SnapshotsStay(db.versions, later.versions)
    && ResponsesStay(db.responses, db.answerRows, later.responses, later.answerRows)
  }

  lemma GrowsTransitive(a: Db, b: Db, c: Db)
    requires Grows(a, b) && Grows(b, c)
    ensures Grows(a, c)
  {
  }

  lemma MaxIsCount(row: SurveyRow, vs: map<int, Doc>)
    requires RowOk(row, vs)
    ensures MaxVersion(vs) == Count(row)
  {
    if Count(row) >= 1 {
      assert Count(row) in vs;
    } else {
      assert vs == map[] by {
        assert forall k :: k !in vs;
      }
    }
  }

  // ---------- effects on the tables ----------

  /** A write that keeps the tables in order and takes nothing back. */
  ghost predicate Good(app: App, db: Db, later: Db) {
    DbOk(app, later) && Grows(db, later)
  }

  /** Any update of a row that keeps owner, published version and draftness. */
  lemma RowUpdateGood(app: App, db: Db, sid: string, row: SurveyRow)
    requires DbOk(app, db) && sid in db.surveys
    requires row.owner == db.surveys[sid].owner && row.published == db.surveys[sid].published
    requires row.status.Draft? <==> db.surveys[sid].status.Draft?
    ensures Good(app, db, db.(surveys := db.surveys[sid := row]))
  {
    var surveys := db.surveys[sid := row];
    assert surveys.Keys == db.surveys.Keys;
    RowUpdateFits(db.surveys, db.versions, sid, row);
  }

  lemma RowUpdateFits(surveys: map<string, SurveyRow>, versions: map<string, map<int, Doc>>, sid: string, row: SurveyRow)
    requires VersionsFit(surveys, versions) && sid in surveys
    requires row.owner == surveys[sid].owner && row.published == surveys[sid].published
    requires row.status.Draft? <==> surveys[sid].status.Draft?
    ensures VersionsFit(surveys[sid := row], versions) && SurveysGrow(surveys, surveys[sid := row])
  {
    assert RowOk(surveys[sid], VersionsOf(versions, sid));
    assert RowOk(row, VersionsOf(versions, sid));
  }

  lemma InsertGood(app: App, db: Db, sid: string, row: SurveyRow)
    requires DbOk(app, db) && sid !in db.surveys
    requires row.status.Draft? && row.published.None?
    ensures Good(app, db, SurveyInserted(db, sid, row))
  {
    var surveys := db.surveys[sid := row];
    assert surveys.Keys == db.surveys.Keys + {sid};
    assert VersionsFit(surveys, db.versions) by {
      assert RowOk(row, VersionsOf(db.versions, sid));
    }
    assert ResponsesFit(surveys.Keys, db.responses, db.answerRows);
    assert SurveysGrow(db.surveys, surveys);
  }

  lemma ExplainedStay(
    app: App, versions: map<string, map<int, Doc>>, later: map<string, map<int, Doc>>, responses: map<string, Response>,
    table: seq<AnswerRow>)
    requires AllExplained(app, versions, responses, table) && SnapshotsStay(versions, later)
    ensures AllExplained(app, later, responses, table)
  {
  }

  lemma NextVersionOk(row: SurveyRow, vs: map<int, Doc>, draft: Doc)
    requires RowOk(row, vs)
    ensures var v := Count(row) + 1;
            v !in vs && RowOk(row.(published := Some(v), status := Live), vs[v := Stamp(draft, v)])
  {
  }

  /** A publish adds one version to one survey and touches no other. */
  lemma PublishedVersions(db: Db, sid: string, v: int, doc: Doc, x: string)
    requires sid in db.surveys
    ensures VersionsOf(VersionPublished(db, sid, v, doc).versions, x) ==
            if x == sid then VersionsOf(db.versions, sid)[v := doc] else VersionsOf(db.versions, x)
  {
  }

  lemma PublishFits(db: Db, sid: string, draft: Doc, later: Db)
    requires VersionsFit(db.surveys, db.versions) && sid in db.surveys
    requires var v := Count(db.surveys[sid]) + 1; later == VersionPublished(db, sid, v, Stamp(draft, v))
    ensures VersionsFit(later.surveys, later.versions)
  {
    var v := Count(db.surveys[sid]) + 1;
    forall x | x in later.surveys ensures RowOk(later.surveys[x], VersionsOf(later.versions, x)) {
      assert RowOk(db.surveys[x], VersionsOf(db.versions, x));
      PublishedVersions(db, sid, v, Stamp(draft, v), x);
      if x == sid {
        NextVersionOk(db.surveys[sid], VersionsOf(db.versions, sid), draft);
      }
    }
  }

  lemma PublishKeeps(db: Db, sid: string, draft: Doc, later: Db)
    requires VersionsFit(db.surveys, db.versions) && sid in db.surveys
    requires var v := Count(db.surveys[sid]) + 1; later == VersionPublished(db, sid, v, Stamp(draft, v))
    ensures SnapshotsStay(db.versions, later.versions)
  {
    var v := Count(db.surveys[sid]) + 1;
    assert RowOk(db.surveys[sid], VersionsOf(db.versions, sid));
    forall x, k | k in VersionsOf(db.versions, x)
      ensures k in VersionsOf(later.versions, x) && VersionsOf(later.versions, x)[k] == VersionsOf(db.versions, x)[k]
    {
      PublishedVersions(db, sid, v, Stamp(draft, v), x);
    }
  }

  lemma PublishGrows(db: Db, sid: string, draft: Doc, later: Db)
    requires sid in db.surveys
    requires var v := Count(db.surveys[sid]) + 1; later == VersionPublished(db, sid, v, Stamp(draft, v))
    ensures later.surveys.Keys == db.surveys.Keys && later.responses == db.responses && later.answerRows == db.answerRows
    ensures SurveysGrow(db.surveys, later.surveys)
  {
  }

  lemma PublishGood(app: App, db: Db, sid: string, draft: Doc, later: Db)
    requires DbOk(app, db) && sid in db.surveys
    requires var v := Count(db.surveys[sid]) + 1; later == VersionPublished(db, sid, v, Stamp(draft, v))
    ensures Good(app, db, later)
  {
    PublishFits(db, sid, draft, later);
    PublishKeeps(db, sid, draft, later);
    PublishGrows(db, sid, draft, later);
    ExplainedStay(app, db.versions, later.versions, db.responses, db.answerRows);
  }

  lemma SavedGood(app: App, db: Db, rid: string, sid: string, k: int, raw: Answers, rows: seq<NormalizedRow>, later: Db)
    requires DbOk(app, db) && rid !in db.responses && k in VersionsOf(db.versions, sid) && sid in db.surveys
    requires app.judge(VersionsOf(db.versions, sid)[k], raw) == Accepted(k, rows)
    requires later == SubmissionSaved(db, rid, sid, k, raw, rows)
    ensures Good(app, db, later)
  {
    SavedFits(db.surveys.Keys, db.responses, db.answerRows, rid, sid, k, raw, rows);
    SavedStays(db, rid, sid, k, raw, rows, later);
    SavedExplained(app, db, rid, sid, k, raw, rows, later);
  }

  lemma SavedStays(db: Db, rid: string, sid: string, k: int, raw: Answers, rows: seq<NormalizedRow>, later: Db)
    requires TablesOk(db) && rid !in db.responses && later == SubmissionSaved(db, rid, sid, k, raw, rows)
    ensures ResponsesStay(db.responses, db.answerRows, later.responses, later.answerRows)
  {
    forall other | other in db.responses
      ensures other != rid && RowsOf(later.answerRows, other) == RowsOf(db.answerRows, other)
    {
      SavedRowsDecode(db.answerRows, rid, sid, k, rows, other);
    }
  }

  lemma SavedExplained(app: App, db: Db, rid: string, sid: string, k: int, raw: Answers, rows: seq<NormalizedRow>, later: Db)
    requires DbOk(app, db) && rid !in db.responses && k in VersionsOf(db.versions, sid)
    requires app.judge(VersionsOf(db.versions, sid)[k], raw) == Accepted(k, rows)
    requires later == SubmissionSaved(db, rid, sid, k, raw, rows)
    ensures AllExplained(app, later.versions, later.responses, later.answerRows)
  {
    SavedStays(db, rid, sid, k, raw, rows, later);
    SavedRowsDecode(db.answerRows, rid, sid, k, rows, rid);
    assert Explains(app, VersionsOf(db.versions, sid)[k], rid, later.responses[rid], RowsOf(later.answerRows, rid));
  }

  lemma SavedFits(
    sids: set<string>, responses: map<string, Response>, table: seq<AnswerRow>, rid: string, sid: string, k: int, raw: Answers,
    rows: seq<NormalizedRow>)
    requires ResponsesFit(sids, responses, table) && sid in sids
    ensures ResponsesFit(sids, responses[rid := Response(sid, k, raw)], table + EncodeRows(rid, sid, k, rows))
  {
  }

  // ---------- one store call ----------

  ghost predicate CallGood(app: App, db: Db, r: (Db, Next)) {
    Good(app, db, r.0) && (r.1.Go? ==> r.0 == db && OpOk(db, r.1.op))
  }

  lemma AdvanceGood(app: App, db: Db, op: Op, rid: string)
    requires ReadsVersion(app) && DbOk(app, db) && OpOk(db, op)
    ensures CallGood(app, db, Advance(app, db, op, rid))
  {
    if op.SubmitLoaded? {
      SaveGood(app, db, op, rid);
    } else if op.SubmitAdmitted? {
      LoadGood(app, db, op, rid);
    } else if op.PublishDraft? || op.PublishMax? || op.PublishCommit? {
      PublishCallGood(app, db, op, rid);
    } else {
      WriteGood(app, db, op, rid);
    }
  }

  lemma PublishCallGood(app: App, db: Db, op: Op, rid: string)
    requires DbOk(app, db) && OpOk(db, op) && (op.PublishDraft? || op.PublishMax? || op.PublishCommit?)
    ensures CallGood(app, db, Advance(app, db, op, rid))
  {
    if op.PublishCommit? {
      CommitGood(app, db, op, rid);
    } else {
      PublishReadsGood(app, db, op, rid);
    }
  }

  lemma SaveGood(app: App, db: Db, op: Op, rid: string)
    requires ReadsVersion(app) && DbOk(app, db) && op.SubmitLoaded? && OpOk(db, op)
    ensures CallGood(app, db, Advance(app, db, op, rid))
  {
    var r := Advance(app, db, op, rid);
    if r.1.outcome.Saved? {
      var k :| k in VersionsOf(db.versions, op.sid) && VersionsOf(db.versions, op.sid)[k] == op.snapshot;
      assert RowOk(db.surveys[op.sid], VersionsOf(db.versions, op.sid));
      assert op.snapshot == Stamp(op.snapshot, k);
      assert app.judge(Stamp(op.snapshot, k), op.answers).version == k;
      SavedGood(app, db, rid, op.sid, k, op.answers, app.judge(op.snapshot, op.answers).rows, r.0);
    } else {
      ReadGood(app, db, r.1);
    }
  }

  lemma LoadGood(app: App, db: Db, op: Op, rid: string)
    requires DbOk(app, db) && OpOk(db, op) && op.SubmitAdmitted?
    ensures CallGood(app, db, Advance(app, db, op, rid))
  {
    LoadedIsSnapshot(db, op.sid, op.version);
    ReadGood(app, db, Advance(app, db, op, rid).1);
  }

  lemma WriteGood(app: App, db: Db, op: Op, rid: string)
    requires DbOk(app, db) && OpOk(db, op)
    requires op.UpdateReady? || op.CloseReady? || op.ReopenReady? || op.AccessReady? || op.DisplayReady?
    ensures CallGood(app, db, Advance(app, db, op, rid))
  {
    var row := db.surveys[op.sid];
    assert RowOk(row, VersionsOf(db.versions, op.sid));
    match op {
      case UpdateReady(sid, title, typ, body) => RowUpdateGood(app, db, sid, row.(draft := body, title := title, typ := typ));
      case CloseReady(sid) => RowUpdateGood(app, db, sid, row.(status := Closed));
      case ReopenReady(sid) => RowUpdateGood(app, db, sid, row.(status := Live));
      case AccessReady(sid, access) => RowUpdateGood(app, db, sid, row.(access := access));
      case DisplayReady(sid, display) => RowUpdateGood(app, db, sid, row.(display := display));
    }
  }

  /** A call that only reads. */
  lemma ReadGood(app: App, db: Db, next: Next)
    requires DbOk(app, db)
    requires next.Go? ==> OpOk(db, next.op)
    ensures CallGood(app, db, (db, next))
  {
  }

  lemma PublishReadsGood(app: App, db: Db, op: Op, rid: string)
    requires DbOk(app, db) && OpOk(db, op) && (op.PublishDraft? || op.PublishMax?)
    ensures CallGood(app, db, Advance(app, db, op, rid))
  {
    assert RowOk(db.surveys[op.sid], VersionsOf(db.versions, op.sid));
    MaxIsCount(db.surveys[op.sid], VersionsOf(db.versions, op.sid));
    ReadGood(app, db, Advance(app, db, op, rid).1);
  }

  lemma CommitGood(app: App, db: Db, op: Op, rid: string)
    requires DbOk(app, db) && OpOk(db, op) && op.PublishCommit?
    ensures CallGood(app, db, Advance(app, db, op, rid))
  {
    CommitIffCurrent(db, op);
    if op.maxV == Count(db.surveys[op.sid]) {
      PublishGood(app, db, op.sid, op.draft, Advance(app, db, op, rid).0);
    } else {
      ReadGood(app, db, Finish(Failed));
    }
  }

  /** An in-flight publisher commits iff the maximum it read is still the current one; the unique
      key stops it otherwise and nothing changes. */
  lemma CommitIffCurrent(db: Db, op: Op)
    requires TablesOk(db) && OpOk(db, op) && op.PublishCommit?
    ensures var maxV := MaxVersion(VersionsOf(db.versions, op.sid));
            var r := CommitPublish(db, op.sid, op.draft, op.maxV);
            if op.maxV == maxV
            then r == (VersionPublished(db, op.sid, maxV + 1, Stamp(op.draft, maxV + 1)), Finish(PublishedAs(maxV + 1, false)))
                 && r.0 != db
            else r == (db, Finish(Failed))
    ensures MaxVersion(VersionsOf(db.versions, op.sid)) == Count(db.surveys[op.sid])
  {
    var row, vs := db.surveys[op.sid], VersionsOf(db.versions, op.sid);
    assert RowOk(row, vs);
    MaxIsCount(row, vs);
    assert op.maxV + 1 in vs <==> op.maxV < Count(row);
    if op.maxV == Count(row) {
      var later := VersionPublished(db, op.sid, op.maxV + 1, Stamp(op.draft, op.maxV + 1));
      assert later.surveys[op.sid].published == Some(op.maxV + 1);
    }
  }

  lemma LoadedIsSnapshot(db: Db, sid: string, version: int)
    ensures LoadSchema(db, sid, version).Some? ==> Snapshot(db, sid, LoadSchema(db, sid, version).value)
  {
  }

  lemma BeginGood(app: App, db: Db, req: Request)
    requires TablesOk(db)
    ensures Begin(app, db, req).Go? ==> OpOk(db, Begin(app, db, req).op)
  {
    if req.sid in db.surveys {
      assert RowOk(db.surveys[req.sid], VersionsOf(db.versions, req.sid));
    }
  }

  lemma OpStays(db: Db, later: Db, op: Op)
    requires TablesOk(db) && TablesOk(later) && Grows(db, later) && OpOk(db, op)
    ensures OpOk(later, op)
  {
    var sid := op.sid;
    assert SnapshotsStay(db.versions, later.versions);
    assert RowOk(db.surveys[sid], VersionsOf(db.versions, sid));
    assert Count(db.surveys[sid]) <= Count(later.surveys[sid]);
    if op.SubmitLoaded? {
      var k :| k in VersionsOf(db.versions, sid) && VersionsOf(db.versions, sid)[k] == op.snapshot;
      assert k in VersionsOf(later.versions, sid);
    } else if op.PublishCommit? && op.maxV > 0 {
      assert op.maxV in VersionsOf(db.versions, sid);
      assert VersionsOf(later.versions, sid)[op.maxV] == VersionsOf(db.versions, sid)[op.maxV];
    }
  }

  lemma OpsStay(db: Db, later: Db, ops: map<nat, Op>)
    requires TablesOk(db) && TablesOk(later) && Grows(db, later)
    requires forall id :: id in ops ==> OpOk(db, ops[id])
    ensures forall id :: id in ops ==> OpOk(later, ops[id])
  {
    forall id | id in ops ensures OpOk(later, ops[id]) {
      OpStays(db, later, ops[id]);
    }
  }

  lemma InsertStepGood(app: App, s: Sys, e: Event)
    requires Inv(app, s) && e.Insert?
    ensures Inv(app, Step(app, s, e)) && Grows(s.db, Step(app, s, e).db)
  {
    if e.sid !in s.db.surveys {
      var row := SurveyRow(e.owner, e.typ, e.title, Draft, e.draft, None, e.access, e.display);
      InsertGood(app, s.db, e.sid, row);
      OpsStay(s.db, SurveyInserted(s.db, e.sid, row), s.ops);
    }
  }

  lemma ContinueStepGood(app: App, s: Sys, e: Event)
    requires ReadsVersion(app) && Inv(app, s) && e.Continue?
    ensures Inv(app, Step(app, s, e)) && Grows(s.db, Step(app, s, e).db)
  {
    if e.id in s.ops {
      AdvanceGood(app, s.db, s.ops[e.id], e.rid);
      OpsStay(s.db, Advance(app, s.db, s.ops[e.id], e.rid).0, s.ops);
    }
  }

  /** Every event keeps the invariant and takes nothing back. */
  lemma StepGood(app: App, s: Sys, e: Event)
    requires ReadsVersion(app) && Inv(app, s)
    ensures Inv(app, Step(app, s, e)) && Grows(s.db, Step(app, s, e).db)
  {
    match e {
      case Insert(_, _, _, _, _, _, _) => InsertStepGood(app, s, e);
      case Start(_, req) => BeginGood(app, s.db, req);
      case Continue(_, _) => ContinueStepGood(app, s, e);
      case Abort(_) =>
    }
  }

  lemma {:induction false} RunGood(app: App, s: Sys, es: seq<Event>)
    requires ReadsVersion(app) && Inv(app, s)
    ensures Inv(app, Run(app, s, es)) && Grows(s.db, Run(app, s, es).db)
  {
    if es != [] {
      var n := |es| - 1;
      var mid := Run(app, s, es[..n]);
      RunGood(app, s, es[..n]);
      StepGood(app, mid, es[n]);
      GrowsTransitive(s.db, mid.db, Step(app, mid, es[n]).db);
    }
  }

  lemma InitiallyGood(app: App)
    ensures Inv(app, INITIAL)
  {
  }

  ghost predicate Reachable(app: App, s: Sys) {
    exists es :: s == Run(app, INITIAL, es)
  }

  lemma ReachableGood(app: App, s: Sys)
    requires ReadsVersion(app) && Reachable(app, s)
    ensures Inv(app, s)
  {
    var es :| s == Run(app, INITIAL, es);
    InitiallyGood(app);
    RunGood(app, INITIAL, es);
  }
}
