/** What each request does when it is served on its own, and who may have one served: the store
    column by column, in terms of the request and the row it finds. */
module Requests {
  import opened Base
  import opened Schema
  import opened Documents
  import opened Database
  import opened Pipeline
  import opened Machine
  import opened Safety
  import opened Serial
  import opened Survey
  import opened Theorems
  import Interleaving

  // ---------- owners ----------

  ghost predicate MayEdit(db: Db, actor: Actor, sid: string) {
    sid in db.surveys && (actor.admin || db.surveys[sid].owner == actor.user)
  }

  /** Every request but a submission is refused, with nothing changed, unless it comes from the
      owner or an administrator; those are never told it is forbidden. */
  lemma OnlyOwnersServed(app: App, db: Db, req: Request, rid: string)
    requires !req.SubmitReq?
    ensures var r := Serve(app, db, req, rid);
            && (req.sid !in db.surveys ==> r == (db, NotFound))
            && (req.sid in db.surveys && !MayEdit(db, req.actor, req.sid) ==> r == (db, Forbidden))
            && (MayEdit(db, req.actor, req.sid) ==> r.1 != NotFound && r.1 != Forbidden)
  {
    if MayEdit(db, req.actor, req.sid) {
      if req.PublishReq? {
        ServePublish(app, db, req.sid, db.surveys[req.sid].draft, rid);
      } else if Begin(app, db, req).Go? {
        OneCall(app, db, Begin(app, db, req).op, rid);
      }
    }
  }

  /** A survey is created as a draft that was never published, with the given columns; an id that
      is taken changes nothing. */
  lemma InsertedRow(app: App, s: Sys, sid: string, owner: string, typ: string, title: string, draft: Doc, access: Access, display: Display)
    ensures Step(app, s, Insert(sid, owner, typ, title, draft, access, display)) ==
            if sid in s.db.surveys then s
            else Sys(Db(s.db.surveys[sid := SurveyRow(owner, typ, title, Draft, draft, None, access, display)],
                        s.db.versions, s.db.responses, s.db.answerRows), s.ops)
  {
  }

  // ---------- one row rewritten ----------

  function Rewritten(db: Db, sid: string, row: SurveyRow): Db {
    Db(db.surveys[sid := row], db.versions, db.responses, db.answerRows)
  }

  /** An edit replaces the draft of a draft, with its title and type taken from the document. */
  lemma UpdateServed(parse: Parser, db: Db, actor: Actor, sid: string, body: Doc, rid: string)
    requires MayEdit(db, actor, sid)
    ensures var row := db.surveys[sid];
            Serve(SurveyApp(parse), db, UpdateReq(actor, sid, body), rid) ==
            if row.status != Draft then (db, Conflict)
            else if parse(body).None? then (db, BadRequest)
            else
              (Rewritten(db, sid, SurveyRow(row.owner, parse(body).value.typ, parse(body).value.title,
                                            Draft, body, row.published, row.access, row.display)), Done)
  {
    var next := Begin(SurveyApp(parse), db, UpdateReq(actor, sid, body));
    if next.Go? {
      OneCall(SurveyApp(parse), db, next.op, rid);
    }
  }

  /** Closing takes a live survey, reopening a closed one that has been published; either changes
      the status alone. */
  lemma StatusServed(app: App, db: Db, actor: Actor, sid: string, rid: string)
    requires MayEdit(db, actor, sid)
    ensures var row := db.surveys[sid];
            && Serve(app, db, CloseReq(actor, sid), rid) ==
               (if row.status != Live then (db, Conflict)
                else (Rewritten(db, sid, SurveyRow(row.owner, row.typ, row.title, Closed, row.draft, row.published,
                                                   row.access, row.display)), Done))
            && Serve(app, db, ReopenReq(actor, sid), rid) ==
               (if row.status != Closed || row.published == None then (db, Conflict)
                else (Rewritten(db, sid, SurveyRow(row.owner, row.typ, row.title, Live, row.draft, row.published,
                                                   row.access, row.display)), Done))
  {
    OneCall(app, db, CloseReady(sid), rid);
    OneCall(app, db, ReopenReady(sid), rid);
  }

  /** The access and display modes can be set in any status; each changes its column alone. */
  lemma ModesServed(app: App, db: Db, actor: Actor, sid: string, access: Access, display: Display, rid: string)
    requires MayEdit(db, actor, sid)
    ensures var row := db.surveys[sid];
            && Serve(app, db, AccessReq(actor, sid, access), rid) ==
               (Rewritten(db, sid, SurveyRow(row.owner, row.typ, row.title, row.status, row.draft, row.published,
                                             access, row.display)), Done)
            && Serve(app, db, DisplayReq(actor, sid, display), rid) ==
               (Rewritten(db, sid, SurveyRow(row.owner, row.typ, row.title, row.status, row.draft, row.published,
                                             row.access, display)), Done)
  {
    OneCall(app, db, AccessReady(sid, access), rid);
    OneCall(app, db, DisplayReady(sid, display), rid);
  }

  /** In any reachable store a publish reports the current version if its snapshot is the draft
      under that number, and otherwise adds the next snapshot and puts the survey live on it,
      whatever its status was. */
  lemma PublishServedExactly(app: App, s: Sys, actor: Actor, sid: string, rid: string)
    requires ReadsVersion(app) && Reachable(app, s) && MayEdit(s.db, actor, sid)
    ensures var db, row := s.db, s.db.surveys[sid];
            var n := if row.published.Some? then row.published.value else 0;
            var vs := if sid in db.versions then db.versions[sid] else map[];
            Serve(app, db, PublishReq(actor, sid), rid) ==
            if n in vs && vs[n] == row.draft["version" := Num(n as real)] then (db, PublishedAs(n, true))
            else
              (Db(db.surveys[sid := SurveyRow(row.owner, row.typ, row.title, Live, row.draft, Some(n + 1), row.access, row.display)],
                  db.versions[sid := vs[n + 1 := row.draft["version" := Num((n + 1) as real)]]], db.responses, db.answerRows),
               PublishedAs(n + 1, false))
  {
    VersionsAndLifecycle(app, s, sid);
    UnchangedExactly(app, s, sid, s.db.surveys[sid].draft, rid);
  }

  // ---------- submissions ----------

  /** The snapshot a sheet is judged by: the version it names, or the published one. */
  ghost function Anchor(db: Db, sid: string, version: int): Option<Doc> {
    var vs := if sid in db.versions then db.versions[sid] else map[];
    if version > 0 then if version in vs then Some(vs[version]) else None
    else if sid in db.surveys && db.surveys[sid].status == Live && db.surveys[sid].published.Some?
            && db.surveys[sid].published.value in vs
    then Some(vs[db.surveys[sid].published.value])
    else None
  }

  ghost predicate Storable(parse: Parser, db: Db, sid: string, authenticated: bool, version: int, answers: Answers, rid: string) {
    && Admits(db, sid, authenticated)
    && rid !in db.responses
    && Anchor(db, sid, version).Some?
    && var doc := Anchor(db, sid, version).value;
       parse(doc).Some? && GoodSheet(parse(doc).value, answers)
  }

  /** The rest of a submission once it is admitted. */
  lemma AdmittedServed(parse: Parser, db: Db, sid: string, authenticated: bool, version: int, answers: Answers, rid: string)
    requires Admits(db, sid, authenticated)
    ensures var r := Serve(SurveyApp(parse), db, SubmitReq(sid, authenticated, version, answers), rid);
            match Anchor(db, sid, version)
            case None => r == (db, if version > 0 then BadRequest else NotFound)
            case Some(doc) =>
              if parse(doc).None? then r == (db, Failed)
              else if !GoodSheet(parse(doc).value, answers) then r == (db, Rejected)
              else if rid in db.responses then r == (db, Failed)
              else
                var rows := SurveyRows(parse(doc).value, answers);
                && r.1 == Saved(|rows|)
                && r.0 == Db(db.surveys, db.versions, db.responses[rid := Response(sid, parse(doc).value.version, answers)],
                             db.answerRows + EncodeRows(rid, sid, parse(doc).value.version, rows))
  {
    var app, meta := SurveyApp(parse), db.surveys[sid];
    var op := SubmitAdmitted(sid, authenticated, version, answers, meta);
    assert Begin(app, db, SubmitReq(sid, authenticated, version, answers)) == Go(op);
    ServeAdmitted(app, db, op, rid);
    assert LoadSchema(db, sid, version) == Anchor(db, sid, version);
    if Anchor(db, sid, version).Some? {
      var doc := Anchor(db, sid, version).value;
      assert app.judge(doc, answers) == Judge(parse, doc, answers);
      if parse(doc).Some? {
        PassesExactly(parse(doc).value, answers);
      }
    }
  }

  /** A sheet is stored exactly when the survey is live and open to that caller, the snapshot it
      names exists and decodes, the sheet is good by it, and the response id is free. */
  lemma SubmissionStoredExactly(parse: Parser, db: Db, sid: string, authenticated: bool, version: int, answers: Answers, rid: string)
    ensures var r := Serve(SurveyApp(parse), db, SubmitReq(sid, authenticated, version, answers), rid);
            && (r.1.Saved? <==> Storable(parse, db, sid, authenticated, version, answers, rid))
            && (!r.1.Saved? ==> r.0 == db)
  {
    if Admits(db, sid, authenticated) {
      AdmittedServed(parse, db, sid, authenticated, version, answers, rid);
    }
  }

  /** Who is turned away, and how: a survey that is not live is not found, a login that is missing
      is asked for, and a login that is not wanted is a bad request. */
  lemma TurnedAway(app: App, db: Db, sid: string, authenticated: bool, version: int, answers: Answers, rid: string)
    requires !Admits(db, sid, authenticated)
    ensures Serve(app, db, SubmitReq(sid, authenticated, version, answers), rid) ==
            (db, if sid !in db.surveys || db.surveys[sid].status != Live then NotFound
                 else if authenticated then BadRequest else Unauthorized)
  {
  }

  /** What is stored: each answer row carries its response, survey and version, its question, a
      sub id unless that is empty, and its value in the column of its type. */
  lemma StoredColumns(rid: string, sid: string, version: int, rows: seq<NormalizedRow>, i: nat)
    requires i < |rows|
    ensures var a, r := EncodeRows(rid, sid, version, rows)[i], rows[i];
            && a.responseId == rid && a.surveyId == sid && a.version == version && a.qid == r.qid
            && a.subId == (if r.subId == "" then None else Some(r.subId))
            && a.valueText == (match r.value case Text(t) => Some(t) case Number(_) => None)
            && a.valueNum == (match r.value case Number(n) => Some(n) case Text(_) => None)
  {
  }

  /** Every stored response answers, by the snapshot it names, every visible required question,
      and nothing unacceptable. */
  lemma StoredSheetIsGood(parse: Parser, db: Db, rid: string, snapshot: Doc)
    requires ExplainedBy(parse, db, rid, snapshot)
    ensures GoodSheet(parse(snapshot).value, db.responses[rid].raw)
  {
    PassesExactly(parse(snapshot).value, db.responses[rid].raw);
  }

  // ---------- owners, over runs ----------

  ghost predicate IsEdit(op: Op) {
    !op.SubmitAdmitted? && !op.SubmitLoaded?
  }

  /** The operation does what the request asked for. */
  ghost predicate Carries(req: Request, op: Op) {
    && !req.SubmitReq? && req.sid == op.sid
    && match op
       case UpdateReady(_, _, _, body) => req.UpdateReq? && req.body == body
       case CloseReady(_) => req.CloseReq?
       case ReopenReady(_) => req.ReopenReq?
       case AccessReady(_, access) => req.AccessReq? && req.access == access
       case DisplayReady(_, display) => req.DisplayReq? && req.display == display
       case _ => req.PublishReq?
  }

  lemma JustStarted(app: App, s: Sys, e: Event, id: nat)
    requires var t := Step(app, s, e); id in t.ops && IsEdit(t.ops[id])
    ensures var op := Step(app, s, e).ops[id];
            if id in s.ops then
              IsEdit(s.ops[id]) && s.ops[id].sid == op.sid && forall req :: Carries(req, s.ops[id]) ==> Carries(req, op)
            else e.Start? && e.id == id && Carries(e.req, op) && MayEdit(s.db, e.req.actor, op.sid)
  {
  }

  /** Every in-flight edit, publish, close, reopen or mode change was started by a request for
      just that, from the owner or an administrator, under an id it has held since. */
  lemma {:induction false} InFlightAuthorized(app: App, es: seq<Event>, id: nat, op: Op) returns (start: nat)
    requires OpAt(app, es, |es|, id) == Some(op) && IsEdit(op)
    ensures start < |es| && es[start].Start? && es[start].id == id && Carries(es[start].req, op)
    ensures OpAt(app, es, start, id) == None && forall n :: start < n <= |es| ==> OpAt(app, es, n, id).Some?
    ensures MayEdit(Run(app, INITIAL, es[..start]).db, es[start].req.actor, op.sid)
  {
    assert es[..|es|] == es && es != [];
    var last := |es| - 1;
    var init := es[..last];
    var before := Run(app, INITIAL, init);
    JustStarted(app, before, es[last], id);
    SameBefore(app, es, last, id);
    if OpAt(app, es, last, id) == None {
      return last;
    }
    start := InFlightAuthorized(app, init, id, before.ops[id]);
    assert init[..start] == es[..start];
  }

  /** Whatever changes a survey's row, however late it lands, goes back to a request by the
      survey's owner or an administrator. */
  lemma ChangedByOwner(app: App, es: seq<Event>, e: Event, sid: string) returns (start: nat)
    requires ReadsVersion(app) && sid in Run(app, INITIAL, es).db.surveys
    requires var s := Run(app, INITIAL, es);
             sid !in Step(app, s, e).db.surveys || Step(app, s, e).db.surveys[sid] != s.db.surveys[sid]
    ensures e.Continue? && start < |es| && es[start].Start? && es[start].id == e.id
    ensures !es[start].req.SubmitReq? && es[start].req.sid == sid
    ensures MayEdit(Run(app, INITIAL, es).db, es[start].req.actor, sid)
  {
    var s := Run(app, INITIAL, es);
    assert es[..|es|] == es;
    ChangesAreEdits(app, s, e, sid);
    start := InFlightAuthorized(app, es, e.id, s.ops[e.id]);
    OwnerStays(app, es, start, sid);
  }

  lemma ChangesAreEdits(app: App, s: Sys, e: Event, sid: string)
    requires sid in s.db.surveys
    requires sid !in Step(app, s, e).db.surveys || Step(app, s, e).db.surveys[sid] != s.db.surveys[sid]
    ensures e.Continue? && e.id in s.ops && IsEdit(s.ops[e.id]) && s.ops[e.id].sid == sid
  {
  }

  lemma OwnerStays(app: App, es: seq<Event>, n: nat, sid: string)
    requires ReadsVersion(app) && n <= |es| && sid in Run(app, INITIAL, es[..n]).db.surveys
    ensures var db, later := Run(app, INITIAL, es[..n]).db, Run(app, INITIAL, es).db;
            sid in later.surveys && later.surveys[sid].owner == db.surveys[sid].owner
  {
    InitiallyGood(app);
    RunGood(app, INITIAL, es[..n]);
    RunGood(app, Run(app, INITIAL, es[..n]), es[n..]);
    RunSplit(app, es, n);
  }

  lemma RunSplit(app: App, es: seq<Event>, n: nat)
    requires n <= |es|
    ensures Run(app, INITIAL, es) == Run(app, Run(app, INITIAL, es[..n]), es[n..])
  {
    Interleaving.RunConcat(app, INITIAL, es[..n], es[n..]);
    assert es[..n] + es[n..] == es;
  }
}
