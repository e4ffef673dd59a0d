/** The request handlers as interleaved steps. Each handler reads, checks and writes in separate
    store calls; an in-flight operation keeps what it has read. A transaction is an optimistic
    read followed by one atomic commit guarded by the unique keys. Any operation may also be
    abandoned between two calls (a database error, a lost connection). */
module Machine {
  import opened Base
  import opened Schema
  import opened Documents
  import opened Database

  datatype Heading = Heading(typ: string, title: string)

  /** What a snapshot makes of a sheet of answers. */
  datatype Verdict = Unreadable | Refused | Accepted(version: int, rows: seq<NormalizedRow>)

  /** The two computations the handlers run on a schema document; None is a decoding error. The
      protocol is proved for any such pair and used with the survey pipeline. */
  datatype App = App(heading: Doc -> Option<Heading>, judge: (Doc, Answers) -> Verdict)

  /** All the protocol needs of them: the version comes from the document's `version` field. */
  ghost predicate ReadsVersion(app: App) {
    forall d: Doc, v: int, a: Answers {:trigger app.judge(Stamp(d, v), a)} ::
      app.judge(Stamp(d, v), a).Accepted? ==> app.judge(Stamp(d, v), a).version == v
  }

  datatype Actor = Actor(user: string, admin: bool)

  datatype Request =
    | UpdateReq(actor: Actor, sid: string, body: Doc)
    | PublishReq(actor: Actor, sid: string)
    | CloseReq(actor: Actor, sid: string)
    | ReopenReq(actor: Actor, sid: string)
    | AccessReq(actor: Actor, sid: string, access: Access)
    | DisplayReq(actor: Actor, sid: string, display: Display)
    | SubmitReq(sid: string, authenticated: bool, version: int, answers: Answers)

  datatype Outcome =
    | Done
    | PublishedAs(version: int, same: bool)
    | Saved(rows: nat)
    | NotFound | Forbidden | Conflict | BadRequest | Unauthorized | Rejected | Failed

  /** Where an operation stands between two store calls, with everything it has read. */
  datatype Op =
    | UpdateReady(sid: string, title: string, typ: string, body: Doc)
    | PublishDraft(sid: string, draft: Doc)
    | PublishMax(sid: string, draft: Doc, maxV: int)
    | PublishCommit(sid: string, draft: Doc, maxV: int)
    | CloseReady(sid: string)
    | ReopenReady(sid: string)
    | AccessReady(sid: string, access: Access)
    | DisplayReady(sid: string, display: Display)
    | SubmitAdmitted(sid: string, authenticated: bool, version: int, answers: Answers, meta: SurveyRow)
    | SubmitLoaded(sid: string, authenticated: bool, answers: Answers, meta: SurveyRow, snapshot: Doc)

  datatype Next = Go(op: Op) | Finish(outcome: Outcome)

  // ---------- first store call: read the survey row and check the guard ----------

  /** Existence first, then ownership unless the actor is an administrator. */
  function Owned(db: Db, actor: Actor, sid: string): Outcome {
    if sid !in db.surveys then NotFound
    else if !actor.admin && db.surveys[sid].owner != actor.user then Forbidden
    else Done
  }

  ghost function Begin(app: App, db: Db, req: Request): Next {
    if req.SubmitReq? then
      if req.sid !in db.surveys || !db.surveys[req.sid].status.Live? then Finish(NotFound)
      else
        var meta := db.surveys[req.sid];
        if meta.access.LoginRequired? && !req.authenticated then Finish(Unauthorized)
        else if !meta.access.LoginRequired? && req.authenticated then Finish(BadRequest)
        else Go(SubmitAdmitted(req.sid, req.authenticated, req.version, req.answers, meta))
    else
      var owned := Owned(db, req.actor, req.sid);
      if owned != Done then Finish(owned)
      else
        var meta := db.surveys[req.sid];
        match req
        case UpdateReq(_, sid, body) =>
          if !meta.status.Draft? then Finish(Conflict)
          else if app.heading(body).None? then Finish(BadRequest)
          else Go(UpdateReady(sid, app.heading(body).value.title, app.heading(body).value.typ, body))
        case PublishReq(_, sid) => Go(PublishDraft(sid, meta.draft))
        case CloseReq(_, sid) => if meta.status.Live? then Go(CloseReady(sid)) else Finish(Conflict)
        case ReopenReq(_, sid) =>
          if !meta.status.Closed? || meta.published.None? then Finish(Conflict) else Go(ReopenReady(sid))
        case AccessReq(_, sid, access) => Go(AccessReady(sid, access))
        case DisplayReq(_, sid, display) => Go(DisplayReady(sid, display))
  }

  // ---------- later store calls ----------

  ghost function LoadSchema(db: Db, sid: string, version: int): Option<Doc> {
    if version > 0 then GetVersionSchema(db, sid, version) else GetPublishedSchema(db, sid)
  }

  /** Insert the snapshot unless that version exists, and point the survey at it. */
  ghost function CommitPublish(db: Db, sid: string, draft: Doc, maxV: int): (Db, Next) {
    if sid !in db.surveys || maxV + 1 in VersionsOf(db.versions, sid) then (db, Finish(Failed))
    else (VersionPublished(db, sid, maxV + 1, Stamp(draft, maxV + 1)), Finish(PublishedAs(maxV + 1, false)))
  }

  ghost function CommitSubmission(app: App, db: Db, op: Op, rid: string): (Db, Next)
    requires op.SubmitLoaded?
  {
    match app.judge(op.snapshot, op.answers)
    case Unreadable => (db, Finish(Failed))
    case Refused => (db, Finish(Rejected))
    case Accepted(version, rows) =>
      if rid in db.responses || op.sid !in db.surveys then (db, Finish(Failed))
      else (SubmissionSaved(db, rid, op.sid, version, op.answers, rows), Finish(Saved(|rows|)))
  }

  ghost function Advance(app: App, db: Db, op: Op, rid: string): (Db, Next) {
    match op
    case UpdateReady(sid, title, typ, body) => (DraftUpdated(db, sid, title, typ, body), Finish(Done))
    case PublishDraft(sid, draft) => (db, Go(PublishMax(sid, draft, MaxVersion(VersionsOf(db.versions, sid)))))
    case PublishMax(sid, draft, maxV) =>
      if maxV <= 0 then (db, Go(PublishCommit(sid, draft, maxV)))
      else if GetVersionSchema(db, sid, maxV).None? then (db, Finish(Failed))
      else if SameContent(draft, GetVersionSchema(db, sid, maxV).value) then (db, Finish(PublishedAs(maxV, true)))
      else (db, Go(PublishCommit(sid, draft, maxV)))
    case PublishCommit(sid, draft, maxV) => CommitPublish(db, sid, draft, maxV)
    case CloseReady(sid) => (StatusSet(db, sid, Closed), Finish(Done))
    case ReopenReady(sid) => (StatusSet(db, sid, Live), Finish(Done))
    case AccessReady(sid, access) => (AccessSet(db, sid, access), Finish(Done))
    case DisplayReady(sid, display) => (DisplaySet(db, sid, display), Finish(Done))
    case SubmitAdmitted(sid, authenticated, version, answers, meta) =>
      var doc := LoadSchema(db, sid, version);
      if doc.None? then (db, Finish(if version > 0 then BadRequest else NotFound))
      else (db, Go(SubmitLoaded(sid, authenticated, answers, meta, doc.value)))
    case SubmitLoaded(_, _, _, _, _) => CommitSubmission(app, db, op, rid)
  }

  // ---------- interleaved runs ----------

  datatype Sys = Sys(db: Db, ops: map<nat, Op>)

  /** Insert is the single statement behind creating and copying a survey; the id is either fresh
      or refused by the unique key. */
  datatype Event =
    | Insert(sid: string, owner: string, typ: string, title: string, draft: Doc, access: Access, display: Display)
    | Start(id: nat, req: Request)
    | Continue(id: nat, rid: string)
    | Abort(id: nat)

  ghost function Put(ops: map<nat, Op>, id: nat, next: Next): map<nat, Op> {
    match next
    case Go(op) => ops[id := op]
    case Finish(_) => ops - {id}
  }

  ghost function Step(app: App, s: Sys, e: Event): Sys {
    match e
    case Insert(sid, owner, typ, title, draft, access, display) =>
      if sid in s.db.surveys then s
      else s.(db := SurveyInserted(s.db, sid, SurveyRow(owner, typ, title, Draft, draft, None, access, display)))
    case Start(id, req) =>
      if id in s.ops then s else s.(ops := Put(s.ops, id, Begin(app, s.db, req)))
    case Continue(id, rid) =>
      if id !in s.ops then s
      else
        var r := Advance(app, s.db, s.ops[id], rid);
        Sys(r.0, Put(s.ops, id, r.1))
    case Abort(id) => s.(ops := s.ops - {id})
  }

  const INITIAL := Sys(EMPTY, map[])

  ghost function Run(app: App, s: Sys, es: seq<Event>): Sys {
    if es == [] then s
    else
      var n := |es| - 1;
      Step(app, Run(app, s, es[..n]), es[n])
  }

  // ---------- uninterrupted handlers ----------

  ghost function Remaining(op: Op): nat {
    match op
    case PublishDraft(_, _) => 2
    case PublishMax(_, _, _) => 1
    case SubmitAdmitted(_, _, _, _, _) => 1
    case _ => 0
  }

  ghost function Complete(app: App, db: Db, next: Next, rid: string): (Db, Outcome)
    decreases if next.Go? then 1 + Remaining(next.op) else 0
  {
    match next
    case Finish(outcome) => (db, outcome)
    case Go(op) =>
      var r := Advance(app, db, op, rid);
      Complete(app, r.0, r.1, rid)
  }

  lemma OneCall(app: App, db: Db, op: Op, rid: string)
    ensures var r := Advance(app, db, op, rid);
            && Complete(app, db, Go(op), rid) == Complete(app, r.0, r.1, rid)
            && (r.1.Finish? ==> Complete(app, db, Go(op), rid) == (r.0, r.1.outcome))
  {
  }

  /** A request served with nothing else running in between. */
  ghost function Serve(app: App, db: Db, req: Request, rid: string): (Db, Outcome) {
    Complete(app, db, Begin(app, db, req), rid)
  }
}
