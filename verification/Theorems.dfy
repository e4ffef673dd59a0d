/** What every interleaved run of the survey service guarantees. */
module Theorems {
  import opened Base
  import opened Documents
  import opened Database
  import opened Pipeline
  import opened Machine
  import opened Safety
  import opened Serial
  import opened Survey

  lemma SurveyRunGood(parse: Parser, es: seq<Event>, more: seq<Event>)
    requires DecodesVersion(parse)
    ensures var app := SurveyApp(parse);
            var s := Run(app, INITIAL, es);
            Inv(app, s) && Inv(app, Run(app, s, more)) && Grows(s.db, Run(app, s, more).db)
  {
    var app := SurveyApp(parse);
    SurveyReadsVersion(parse);
    InitiallyGood(app);
    RunGood(app, INITIAL, es);
    RunGood(app, Run(app, INITIAL, es), more);
  }

  /** A response and its rows as one snapshot of one survey explains them. */
  ghost predicate ExplainedBy(parse: Parser, db: Db, rid: string, snapshot: Doc) {
    && rid in db.responses
    && var r := db.responses[rid];
       && GetVersionSchema(db, r.surveyId, r.version) == Some(snapshot)
       && parse(snapshot).Some?
       && var schema := parse(snapshot).value;
          && schema.version == r.version
          && Passes(schema, r.raw)
          && DecodeRows(RowsOf(db.answerRows, rid)) == SurveyRows(schema, r.raw)
          && forall a :: a in RowsOf(db.answerRows, rid) ==> a.surveyId == r.surveyId && a.version == r.version && OneValue(a)
  }

  /** Version isolation: whatever happens after a response is stored, it stays in place, the
      snapshot it names stays what it was, accepts the raw answers, and yields exactly the rows. */
  lemma VersionIsolation(parse: Parser, es: seq<Event>, more: seq<Event>, rid: string)
    requires DecodesVersion(parse)
    requires rid in Run(SurveyApp(parse), INITIAL, es).db.responses
    ensures var s := Run(SurveyApp(parse), INITIAL, es);
            var t := Run(SurveyApp(parse), s, more);
            var r := s.db.responses[rid];
            && rid in t.db.responses && t.db.responses[rid] == r
            && r.version in VersionsOf(s.db.versions, r.surveyId)
            && ExplainedBy(parse, t.db, rid, VersionsOf(s.db.versions, r.surveyId)[r.version])
  {
    var app := SurveyApp(parse);
    var s := Run(app, INITIAL, es);
    var t := Run(app, s, more);
    SurveyRunGood(parse, es, more);
    var r := s.db.responses[rid];
    assert AllExplained(app, s.db.versions, s.db.responses, s.db.answerRows);
    var doc := VersionsOf(s.db.versions, r.surveyId)[r.version];
    assert Explains(app, doc, rid, r, RowsOf(s.db.answerRows, rid));
    assert SnapshotsStay(s.db.versions, t.db.versions);
    assert ResponsesStay(s.db.responses, s.db.answerRows, t.db.responses, t.db.answerRows);
    ExplainsMeans(parse, t.db, rid, r, doc);
  }

  lemma ExplainsMeans(parse: Parser, db: Db, rid: string, r: Response, doc: Doc)
    requires rid in db.responses && db.responses[rid] == r
    requires GetVersionSchema(db, r.surveyId, r.version) == Some(doc)
    requires Explains(SurveyApp(parse), doc, rid, r, RowsOf(db.answerRows, rid))
    ensures ExplainedBy(parse, db, rid, doc)
  {
    assert SurveyApp(parse).judge(doc, r.raw) == Judge(parse, doc, r.raw);
    var rows := SurveyRows(parse(doc).value, r.raw);
    RowsDecode(rid, r.surveyId, r.version, rows);
    forall a | a in EncodeRows(rid, r.surveyId, r.version, rows)
      ensures a.surveyId == r.surveyId && a.version == r.version && OneValue(a)
    {
      var i :| 0 <= i < |rows| && EncodeRows(rid, r.surveyId, r.version, rows)[i] == a;
      RowRoundTrip(rid, r.surveyId, r.version, rows[i]);
    }
  }

  /** The answer table alone, read with the snapshot, gives back every visible answer of every
      stored response whose question has its own id and props that keep answers apart. */
  lemma StoredSheetRebuilds(parse: Parser, db: Db, rid: string, snapshot: Doc)
    requires ExplainedBy(parse, db, rid, snapshot)
    ensures Rebuilds(parse(snapshot).value, db.responses[rid].raw, DecodeRows(RowsOf(db.answerRows, rid)))
  {
    SheetLossless(parse(snapshot).value, db.responses[rid].raw);
  }

  /** In every reachable state the versions of a survey are exactly 1..n, the published version is
      the last of them, draft means never published, each snapshot carries its own number, and the
      published schema can be fetched iff the survey is live. */
  lemma VersionsAndLifecycle(app: App, s: Sys, sid: string)
    requires ReadsVersion(app) && Reachable(app, s) && sid in s.db.surveys
    ensures var row, vs := s.db.surveys[sid], VersionsOf(s.db.versions, sid);
            && (forall k :: k in vs <==> 1 <= k <= MaxVersion(vs))
            && row.published == (if MaxVersion(vs) == 0 then None else Some(MaxVersion(vs)))
            && (row.status.Draft? <==> row.published.None?)
            && (forall k :: k in vs ==> VERSION in vs[k] && vs[k][VERSION] == Num(k as real))
            && (GetPublishedSchema(s.db, sid).Some? <==> row.status.Live?)
  {
    ReachableGood(app, s);
    var row, vs := s.db.surveys[sid], VersionsOf(s.db.versions, sid);
    assert RowOk(row, vs);
    MaxIsCount(row, vs);
    forall k | k in vs ensures VERSION in vs[k] && vs[k][VERSION] == Num(k as real) {
      assert VERSION in Stamp(vs[k], k);
    }
  }

  /** Over any run, surveys and snapshots stay, the published version only grows, no survey becomes
      a draft again, and responses with their rows are never touched. */
  lemma NothingGoesBack(app: App, s: Sys, es: seq<Event>)
    requires ReadsVersion(app) && Reachable(app, s)
    ensures Grows(s.db, Run(app, s, es).db)
  {
    ReachableGood(app, s);
    RunGood(app, s, es);
  }

  /** In any reachable state, publishing a draft with nothing in between reports it unchanged iff
      the latest snapshot is that draft stamped with the latest version; otherwise it makes the
      next version, and the transaction never fails. */
  lemma UnchangedExactly(app: App, s: Sys, sid: string, draft: Doc, rid: string)
    requires ReadsVersion(app) && Reachable(app, s) && sid in s.db.surveys
    ensures var vs := VersionsOf(s.db.versions, sid);
            var maxV := MaxVersion(vs);
            Complete(app, s.db, Go(PublishDraft(sid, draft)), rid) ==
            if maxV in vs && vs[maxV] == Stamp(draft, maxV) then (s.db, PublishedAs(maxV, true))
            else (VersionPublished(s.db, sid, maxV + 1, Stamp(draft, maxV + 1)), PublishedAs(maxV + 1, false))
  {
    var vs := VersionsOf(s.db.versions, sid);
    var maxV := MaxVersion(vs);
    VersionsAndLifecycle(app, s, sid);
    ServePublish(app, s.db, sid, draft, rid);
    if maxV in vs {
      assert vs[maxV] == Stamp(vs[maxV], maxV);
      UnchangedIffStamped(draft, vs[maxV], maxV);
    }
  }

  lemma InFlightOk(app: App, s: Sys, id: nat)
    requires ReadsVersion(app) && Reachable(app, s) && id in s.ops
    ensures TablesOk(s.db) && OpOk(s.db, s.ops[id])
  {
    ReachableGood(app, s);
  }

  lemma PublisherStep(app: App, s: Sys, id: nat, rid: string)
    requires id in s.ops && s.ops[id].PublishCommit?
    ensures var op := s.ops[id];
            var r := CommitPublish(s.db, op.sid, op.draft, op.maxV);
            Step(app, s, Continue(id, rid)) == Sys(r.0, s.ops - {id})
  {
  }

  /** In any reachable state, the next step of a publisher about to insert either commits version
      max+1 or leaves the store untouched, and it commits iff the maximum it read is current. */
  lemma PublisherCommitsIffCurrent(app: App, s: Sys, id: nat, rid: string)
    requires ReadsVersion(app) && Reachable(app, s) && id in s.ops && s.ops[id].PublishCommit?
    ensures var op := s.ops[id];
            var maxV := MaxVersion(VersionsOf(s.db.versions, op.sid));
            var t := Step(app, s, Continue(id, rid));
            && op.sid in s.db.surveys
            && t.ops == s.ops - {id}
            && (t.db != s.db <==> op.maxV == maxV)
            && (op.maxV == maxV ==> t.db == VersionPublished(s.db, op.sid, maxV + 1, Stamp(op.draft, maxV + 1)))
  {
    InFlightOk(app, s, id);
    CommitIffCurrent(s.db, s.ops[id]);
    PublisherStep(app, s, id, rid);
  }

  lemma ReachableNext(app: App, s: Sys, e: Event)
    requires Reachable(app, s)
    ensures Reachable(app, Step(app, s, e))
  {
    var es :| s == Run(app, INITIAL, es);
    assert (es + [e])[..|es|] == es;
    assert Step(app, s, e) == Run(app, INITIAL, es + [e]);
  }

  lemma MaxAfterPublish(app: App, s: Sys, sid: string, draft: Doc)
    requires ReadsVersion(app) && Reachable(app, s) && sid in s.db.surveys
    ensures var vs := VersionsOf(s.db.versions, sid);
            MaxVersion(vs[MaxVersion(vs) + 1 := draft]) == MaxVersion(vs) + 1
  {
    var vs := VersionsOf(s.db.versions, sid);
    VersionsAndLifecycle(app, s, sid);
    var more := vs[MaxVersion(vs) + 1 := draft];
    assert MaxVersion(vs) + 1 in more.Keys;
    assert forall k :: k in more.Keys ==> k <= MaxVersion(vs) + 1;
  }

  /** Of two publishers that read the same maximum, the one that comes second changes nothing. */
  lemma SecondPublisherLoses(app: App, s: Sys, first: nat, second: nat, rid: string)
    requires ReadsVersion(app) && Reachable(app, s) && first in s.ops && second in s.ops && first != second
    requires s.ops[first].PublishCommit? && s.ops[second].PublishCommit?
    requires s.ops[first].sid == s.ops[second].sid && s.ops[first].maxV == s.ops[second].maxV
    ensures var t := Step(app, s, Continue(first, rid));
            Step(app, t, Continue(second, rid)).db == t.db
  {
    var t := Step(app, s, Continue(first, rid));
    var op := s.ops[first];
    var maxV := MaxVersion(VersionsOf(s.db.versions, op.sid));
    PublisherCommitsIffCurrent(app, s, first, rid);
    ReachableNext(app, s, Continue(first, rid));
    PublisherCommitsIffCurrent(app, t, second, rid);
    if op.maxV == maxV {
      var doc := Stamp(op.draft, maxV + 1);
      MaxAfterPublish(app, s, op.sid, doc);
      PublishedVersions(s.db, op.sid, maxV + 1, doc, op.sid);
    }
  }

  // ---------- where a response comes from ----------

  /** The caller may answer the survey now: it is live, and logged-in callers answer exactly the
      surveys that require a login. */
  ghost predicate Admits(db: Db, sid: string, authenticated: bool) {
    sid in db.surveys && db.surveys[sid].status == Live && (authenticated == (db.surveys[sid].access == LoginRequired))
  }

  ghost function OpAt(app: App, es: seq<Event>, n: nat, id: nat): Option<Op>
    requires n <= |es|
  {
    var ops := Run(app, INITIAL, es[..n]).ops;
    if id in ops then Some(ops[id]) else None
  }

  lemma JustAdmitted(app: App, s: Sys, e: Event, id: nat)
    requires var t := Step(app, s, e); id in t.ops && t.ops[id].SubmitAdmitted?
    ensures var op := Step(app, s, e).ops[id];
            if id in s.ops then s.ops[id] == op
            else e == Start(id, SubmitReq(op.sid, op.authenticated, op.version, op.answers))
                 && Admits(s.db, op.sid, op.authenticated) && s.db.surveys[op.sid] == op.meta
  {
  }

  lemma JustLoaded(app: App, s: Sys, e: Event, id: nat)
    requires var t := Step(app, s, e); id in t.ops && t.ops[id].SubmitLoaded?
    ensures var op := Step(app, s, e).ops[id];
            && id in s.ops
            && (s.ops[id] == op ||
                (s.ops[id].SubmitAdmitted?
                 && s.ops[id] == SubmitAdmitted(op.sid, op.authenticated, s.ops[id].version, op.answers, op.meta)
                 && e.Continue? && e.id == id && LoadSchema(s.db, op.sid, s.ops[id].version) == Some(op.snapshot)))
  {
  }

  lemma JustSaved(app: App, s: Sys, e: Event, rid: string)
    requires rid !in s.db.responses && rid in Step(app, s, e).db.responses
    ensures e.Continue? && e.rid == rid && e.id in s.ops && s.ops[e.id].SubmitLoaded?
    ensures var op, r := s.ops[e.id], Step(app, s, e).db.responses[rid];
            && r.surveyId == op.sid && r.raw == op.answers
            && app.judge(op.snapshot, op.answers).Accepted? && app.judge(op.snapshot, op.answers).version == r.version
  {
  }

  /** An in-flight submission that has not loaded its snapshot yet was started by its own request,
      has been the same ever since, and read the survey row as it was at that start. */
  lemma {:induction false} InFlightAdmitted(app: App, es: seq<Event>, id: nat, op: Op) returns (start: nat)
    requires OpAt(app, es, |es|, id) == Some(op) && op.SubmitAdmitted?
    ensures start < |es| && es[start] == Start(id, SubmitReq(op.sid, op.authenticated, op.version, op.answers))
    ensures OpAt(app, es, start, id) == None && forall n :: start < n <= |es| ==> OpAt(app, es, n, id) == Some(op)
    ensures var db := Run(app, INITIAL, es[..start]).db;
            Admits(db, op.sid, op.authenticated) && db.surveys[op.sid] == op.meta
  {
    assert es[..|es|] == es && es != [];
    var last := |es| - 1;
    var init := es[..last];
    JustAdmitted(app, Run(app, INITIAL, init), es[last], id);
    SameBefore(app, es, last, id);
    if OpAt(app, es, last, id) == None {
      start := last;
    } else {
      assert OpAt(app, es, last, id) == Some(op);
      start := InFlightAdmitted(app, init, id, op);
      assert init[..start] == es[..start];
    }
  }

  /** Earlier points of a run do not depend on what comes later. */
  lemma SameBefore(app: App, es: seq<Event>, last: nat, id: nat)
    requires last <= |es|
    ensures forall n :: 0 <= n <= last ==> OpAt(app, es[..last], n, id) == OpAt(app, es, n, id)
  {
    assert forall n :: 0 <= n <= last ==> es[..last][..n] == es[..n];
  }

  /** The state before the last event, for a submission that holds its snapshot after it. */
  lemma LoadedBefore(app: App, es: seq<Event>, id: nat, op: Op)
    requires OpAt(app, es, |es|, id) == Some(op) && op.SubmitLoaded?
    ensures es != []
    ensures var last, e := |es| - 1, es[|es| - 1];
            OpAt(app, es, last, id) == Some(op) || LoadedBy(app, es, last, id, op)
  {
    assert es[..|es|] == es && es != [];
    JustLoaded(app, Run(app, INITIAL, es[..|es| - 1]), es[|es| - 1], id);
  }

  /** Event n took the submission from admitted to holding its snapshot. */
  ghost predicate LoadedBy(app: App, es: seq<Event>, n: nat, id: nat, op: Op)
    requires op.SubmitLoaded?
  {
    && n < |es| && es[n].Continue? && es[n].id == id
    && OpAt(app, es, n, id).Some?
    && var admitted := OpAt(app, es, n, id).value;
       && admitted.SubmitAdmitted?
       && admitted == SubmitAdmitted(op.sid, op.authenticated, admitted.version, op.answers, op.meta)
       && LoadSchema(Run(app, INITIAL, es[..n]).db, op.sid, admitted.version) == Some(op.snapshot)
  }

  /** An in-flight submission that has loaded its snapshot did so in one call, out of the store as
      it was then, and has been the same ever since. */
  lemma {:induction false} InFlightLoaded(app: App, es: seq<Event>, id: nat, op: Op) returns (load: nat)
    requires OpAt(app, es, |es|, id) == Some(op) && op.SubmitLoaded?
    ensures LoadedBy(app, es, load, id, op)
    ensures forall n :: load < n <= |es| ==> OpAt(app, es, n, id) == Some(op)
  {
    LoadedBefore(app, es, id, op);
    var last := |es| - 1;
    if OpAt(app, es, last, id) != Some(op) {
      return last;
    }
    SameBefore(app, es, last, id);
    load := InFlightLoaded(app, es[..last], id, op);
    StillLoaded(app, es, last, load, id, op);
  }

  lemma StillLoaded(app: App, es: seq<Event>, last: nat, load: nat, id: nat, op: Op)
    requires op.SubmitLoaded? && last <= |es| && LoadedBy(app, es[..last], load, id, op)
    ensures LoadedBy(app, es, load, id, op)
  {
    SameBefore(app, es, last, id);
    assert es[..last][..load] == es[..load];
  }

  /** The events of one submission: its start, the load of its snapshot, its save. */
  datatype Path = Path(id: nat, start: nat, load: nat, save: nat, authenticated: bool, version: int)

  /** The response is the outcome of one submission operation of exactly these answers: started at
      `start` by a request for `version`, admitted on the survey as it then was, holding the
      snapshot from `load` on, and inserted at `save`. */
  ghost predicate SubmittedAlong(app: App, es: seq<Event>, rid: string, r: Response, p: Path) {
    && p.start < p.load < p.save < |es|
    && es[p.start] == Start(p.id, SubmitReq(r.surveyId, p.authenticated, p.version, r.raw))
    && es[p.load].Continue? && es[p.load].id == p.id
    && es[p.save] == Continue(p.id, rid)
    && OneOperation(app, es, p)
    && Admits(Run(app, INITIAL, es[..p.start]).db, r.surveyId, p.authenticated)
    && rid !in Run(app, INITIAL, es[..p.save]).db.responses
    && var doc := LoadSchema(Run(app, INITIAL, es[..p.load]).db, r.surveyId, p.version);
       doc.Some? && app.judge(doc.value, r.raw).Accepted? && app.judge(doc.value, r.raw).version == r.version
  }

  /** The operation id was free at the start and has named this one submission until the save. */
  ghost predicate OneOperation(app: App, es: seq<Event>, p: Path)
    requires p.start < p.load < p.save <= |es|
  {
    && OpAt(app, es, p.start, p.id) == None
    && (forall n :: p.start < n <= p.load ==> OpAt(app, es, n, p.id).Some? && OpAt(app, es, n, p.id).value.SubmitAdmitted?)
    && (forall n :: p.load < n <= p.save ==> OpAt(app, es, n, p.id).Some? && OpAt(app, es, n, p.id).value.SubmitLoaded?)
  }

  /** Every stored response was written by one submission of those answers, which was admitted at
      its own first read, when the survey was live and its access mode matched the caller; the
      survey may have closed since. */
  lemma {:induction false} ResponseAdmitted(app: App, es: seq<Event>, rid: string) returns (p: Path)
    requires rid in Run(app, INITIAL, es).db.responses
    ensures SubmittedAlong(app, es, rid, Run(app, INITIAL, es).db.responses[rid], p)
  {
    var last := |es| - 1;
    var init, before := es[..last], Run(app, INITIAL, es[..last]);
    if rid in before.db.responses {
      p := ResponseAdmitted(app, init, rid);
      ResponseKept(app, before, es[last], rid);
      StillSubmitted(app, es, last, rid, before.db.responses[rid], p);
    } else {
      p := SavedBySubmission(app, es, rid);
    }
  }

  lemma StillSubmitted(app: App, es: seq<Event>, n: nat, rid: string, r: Response, p: Path)
    requires n <= |es| && SubmittedAlong(app, es[..n], rid, r, p)
    ensures SubmittedAlong(app, es, rid, r, p)
  {
    StillOneOperation(app, es, n, p);
    assert es[..n][..p.start] == es[..p.start] && es[..n][..p.load] == es[..p.load] && es[..n][..p.save] == es[..p.save];
  }

  lemma StillOneOperation(app: App, es: seq<Event>, n: nat, p: Path)
    requires n <= |es| && p.start < p.load < p.save <= n && OneOperation(app, es[..n], p)
    ensures OneOperation(app, es, p)
  {
    SameBefore(app, es, n, p.id);
  }

  /** Where a submission about to save comes from. */
  lemma LoadedPath(app: App, es: seq<Event>, id: nat, op: Op) returns (p: Path)
    requires OpAt(app, es, |es|, id) == Some(op) && op.SubmitLoaded?
    ensures p.id == id && p.authenticated == op.authenticated && p.start < p.load < p.save == |es|
    ensures es[p.start] == Start(id, SubmitReq(op.sid, p.authenticated, p.version, op.answers))
    ensures es[p.load].Continue? && es[p.load].id == id
    ensures OneOperation(app, es, p)
    ensures Admits(Run(app, INITIAL, es[..p.start]).db, op.sid, p.authenticated)
    ensures LoadSchema(Run(app, INITIAL, es[..p.load]).db, op.sid, p.version) == Some(op.snapshot)
  {
    var load := InFlightLoaded(app, es, id, op);
    var admitted := OpAt(app, es, load, id).value;
    SameBefore(app, es, load, id);
    var start := InFlightAdmitted(app, es[..load], id, admitted);
    assert es[..load][..start] == es[..start];
    p := Path(id, start, load, |es|, op.authenticated, admitted.version);
  }

  /** The event that stored the response was the save of a loaded submission. */
  lemma SavedBySubmission(app: App, es: seq<Event>, rid: string) returns (p: Path)
    requires es != [] && rid in Run(app, INITIAL, es).db.responses
    requires rid !in Run(app, INITIAL, es[..|es| - 1]).db.responses
    ensures SubmittedAlong(app, es, rid, Run(app, INITIAL, es).db.responses[rid], p)
  {
    var save := |es| - 1;
    var before, id := Run(app, INITIAL, es[..save]), es[save].id;
    JustSaved(app, before, es[save], rid);
    assert es[..save][..save] == es[..save];
    p := LoadedPath(app, es[..save], id, before.ops[id]);
    StillOneOperation(app, es, save, p);
    assert es[..save][..p.start] == es[..p.start] && es[..save][..p.load] == es[..p.load];
  }

  lemma ResponseKept(app: App, s: Sys, e: Event, rid: string)
    requires rid in s.db.responses
    ensures rid in Step(app, s, e).db.responses && Step(app, s, e).db.responses[rid] == s.db.responses[rid]
  {
  }

  /** Version anchoring: a sheet submitted for a version is stored under it, any other under the
      version that was published, on a live survey, when its snapshot was loaded. */
  lemma ResponseAnchored(app: App, es: seq<Event>, rid: string) returns (p: Path)
    requires ReadsVersion(app) && rid in Run(app, INITIAL, es).db.responses
    ensures SubmittedAlong(app, es, rid, Run(app, INITIAL, es).db.responses[rid], p)
    ensures var r, at := Run(app, INITIAL, es).db.responses[rid], Run(app, INITIAL, es[..p.load]).db;
            if p.version > 0 then r.version == p.version
            else r.surveyId in at.surveys && at.surveys[r.surveyId].status.Live?
                 && at.surveys[r.surveyId].published == Some(r.version)
  {
    p := ResponseAdmitted(app, es, rid);
    var r, at := Run(app, INITIAL, es).db.responses[rid], Run(app, INITIAL, es[..p.load]);
    assert Reachable(app, at);
    ReachableGood(app, at);
    LoadedUnderItsNumber(app, at.db, r.surveyId, p.version, r.raw);
  }

  lemma LoadedUnderItsNumber(app: App, db: Db, sid: string, version: int, answers: Answers)
    requires ReadsVersion(app) && TablesOk(db) && LoadSchema(db, sid, version).Some?
    requires app.judge(LoadSchema(db, sid, version).value, answers).Accepted?
    ensures app.judge(LoadSchema(db, sid, version).value, answers).version ==
            if version > 0 then version else db.surveys[sid].published.value
  {
    var v := if version > 0 then version else db.surveys[sid].published.value;
    var doc := LoadSchema(db, sid, version).value;
    assert RowOk(db.surveys[sid], VersionsOf(db.versions, sid));
    assert doc == Stamp(doc, v);
    assert app.judge(Stamp(doc, v), answers).version == v;
  }
}
