/** The two service managers over one store. Each method is the whole handler, run on its own. */
module Services {
  import opened Base
  import opened Logic
  import opened Documents
  import opened Database
  import opened Pipeline
  import opened Machine
  import opened Dao
  import opened Survey
  import opened Serial

  class SurveyManager {
    const store: Store
    const parse: Parser

    constructor (store: Store, parse: Parser)
      ensures this.store == store && this.parse == parse
    {
      this.store, this.parse := store, parse;
    }

    method Owned(actor: Actor, sid: string) returns (o: Outcome, row: Option<SurveyRow>)
      ensures o == Machine.Owned(store.View(), actor, sid)
      ensures o == NotFound <==> sid !in store.surveys
      ensures o == Done <==> sid in store.surveys && (actor.admin || store.surveys[sid].owner == actor.user)
      ensures o == Forbidden <==> sid in store.surveys && !actor.admin && store.surveys[sid].owner != actor.user
      ensures o == Done ==> row == Some(store.surveys[sid])
    {
      row := store.GetSurvey(sid);
      if row.None? {
        return NotFound, None;
      }
      if actor.admin {
        return Done, row;
      }
      if row.value.owner != actor.user {
        return Forbidden, None;
      }
      return Done, row;
    }

    method Update(actor: Actor, sid: string, body: Doc) returns (o: Outcome)
      modifies store
      ensures (store.View(), o) == Serve(SurveyApp(parse), old(store.View()), UpdateReq(actor, sid, body), "")
    {
      var owned, row := Owned(actor, sid);
      if owned != Done {
        return owned;
      }
      if row.value.status != Draft {
        return Conflict;
      }
      var schema := parse(body);
      if schema.None? {
        return BadRequest;
      }
      OneCall(SurveyApp(parse), store.View(), UpdateReady(sid, schema.value.title, schema.value.typ, body), "");
      store.UpdateDraft(sid, schema.value.title, schema.value.typ, body);
      return Done;
    }

    method Publish(actor: Actor, sid: string) returns (o: Outcome)
      modifies store
      ensures (store.View(), o) == Serve(SurveyApp(parse), old(store.View()), PublishReq(actor, sid), "")
    {
      var owned, row := Owned(actor, sid);
      if owned != Done {
        return owned;
      }
      ghost var before := store.View();
      ServePublish(SurveyApp(parse), before, sid, row.value.draft, "");
      var version, same, ok := store.Publish(sid, row.value.draft, 3);
      if !ok {
        return Failed;
      }
      return PublishedAs(version, same);
    }

    method SetAnswerAccess(actor: Actor, sid: string, access: Access) returns (o: Outcome)
      modifies store
      ensures (store.View(), o) == Serve(SurveyApp(parse), old(store.View()), AccessReq(actor, sid, access), "")
    {
      var owned, row := Owned(actor, sid);
      if owned != Done {
        return owned;
      }
      OneCall(SurveyApp(parse), store.View(), AccessReady(sid, access), "");
      store.SetAnswerAccess(sid, access);
      return Done;
    }

    method SetDisplayMode(actor: Actor, sid: string, display: Display) returns (o: Outcome)
      modifies store
      ensures (store.View(), o) == Serve(SurveyApp(parse), old(store.View()), DisplayReq(actor, sid, display), "")
    {
      var owned, row := Owned(actor, sid);
      if owned != Done {
        return owned;
      }
      OneCall(SurveyApp(parse), store.View(), DisplayReady(sid, display), "");
      store.SetDisplayMode(sid, display);
      return Done;
    }

    method Close(actor: Actor, sid: string) returns (o: Outcome)
      modifies store
      ensures (store.View(), o) == Serve(SurveyApp(parse), old(store.View()), CloseReq(actor, sid), "")
    {
      var owned, row := Owned(actor, sid);
      if owned != Done {
        return owned;
      }
      if row.value.status != Live {
        return Conflict;
      }
      OneCall(SurveyApp(parse), store.View(), CloseReady(sid), "");
      store.SetStatus(sid, Closed);
      return Done;
    }

    method Reopen(actor: Actor, sid: string) returns (o: Outcome)
      modifies store
      ensures (store.View(), o) == Serve(SurveyApp(parse), old(store.View()), ReopenReq(actor, sid), "")
    {
      var owned, row := Owned(actor, sid);
      if owned != Done {
        return owned;
      }
      if row.value.status != Closed || row.value.published == None {
        return Conflict;
      }
      OneCall(SurveyApp(parse), store.View(), ReopenReady(sid), "");
      store.SetStatus(sid, Live);
      return Done;
    }
  }

  /** The errors are those of the sheet against that snapshot, one per failing question in order. */
  ghost predicate Complaints(parse: Parser, snapshot: Doc, answers: Answers, errs: seq<ValidationError>) {
    && parse(snapshot).Some?
    && var schema := parse(snapshot).value;
       ErrorsOf(schema.questions, HiddenIds(schema.rules, answers), answers, errs)
  }

  class SubmissionManager {
    const store: Store
    const parse: Parser

    constructor (store: Store, parse: Parser)
      ensures this.store == store && this.parse == parse
    {
      this.store, this.parse := store, parse;
    }

    method LoadSchema(sid: string, version: int) returns (doc: Option<Doc>)
      ensures doc == Machine.LoadSchema(store.View(), sid, version)
    {
      if version > 0 {
        doc := store.GetVersion(sid, version);
      } else {
        doc := store.GetPublished(sid);
      }
    }

    /** Rerun the pipeline on the loaded snapshot and save; a rejected sheet comes with its errors. */
    method RerunAndSave(ghost loaded: Op, sid: string, snapshot: Doc, answers: Answers, rid: string)
      returns (o: Outcome, errs: seq<ValidationError>)
      requires loaded.SubmitLoaded? && loaded.sid == sid && loaded.snapshot == snapshot && loaded.answers == answers
      modifies store
      ensures (store.View(), Finish(o)) == CommitSubmission(SurveyApp(parse), old(store.View()), loaded, rid)
      ensures o == Rejected <==> errs != []
      ensures o == Rejected ==> Complaints(parse, snapshot, answers, errs)
    {
      var schema := parse(snapshot);
      if schema.None? {
        return Failed, [];
      }
      errs := ValidateSurvey(schema.value, answers);
      if errs != [] {
        return Rejected, errs;
      }
      var rows := NormalizeSurvey(schema.value, answers);
      var ok := store.SaveSubmission(rid, sid, schema.value.version, answers, rows, |rows| + 2);
      if !ok {
        return Failed, [];
      }
      return Saved(|rows|), [];
    }

    /** Admit, load the anchored snapshot, rerun the pipeline on it, save. `rid` is the fresh
        response id. */
    method Submit(sid: string, authenticated: bool, version: int, answers: Answers, rid: string)
      returns (o: Outcome, errs: seq<ValidationError>)
      modifies store
      ensures (store.View(), o) == Serve(SurveyApp(parse), old(store.View()), SubmitReq(sid, authenticated, version, answers), rid)
      ensures o == Rejected <==> errs != []
      ensures var doc := Machine.LoadSchema(old(store.View()), sid, version);
              o == Rejected ==> doc.Some? && Complaints(parse, doc.value, answers, errs)
    {
      errs := [];
      var row := store.GetSurvey(sid);
      if row.None? || row.value.status != Live {
        return NotFound, [];
      }
      var loginRequired := row.value.access == LoginRequired;
      if loginRequired && !authenticated {
        return Unauthorized, [];
      }
      if !loginRequired && authenticated {
        return BadRequest, [];
      }
      ghost var admitted := SubmitAdmitted(sid, authenticated, version, answers, row.value);
      ServeAdmitted(SurveyApp(parse), store.View(), admitted, rid);
      var doc := LoadSchema(sid, version);
      if doc.None? {
        return if version > 0 then BadRequest else NotFound, [];
      }
      ghost var loaded := SubmitLoaded(sid, authenticated, answers, row.value, doc.value);
      o, errs := RerunAndSave(loaded, sid, doc.value, answers, rid);
    }
  }
}
