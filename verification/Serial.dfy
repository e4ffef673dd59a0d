/** Handlers run one at a time: the stronger life a survey has without interleaving. */
module Serial {
  import opened Base
  import opened Documents
  import opened Database
  import opened Machine

  /** The publish transaction in one go, without its intermediate stops. */
  lemma ServePublish(app: App, db: Db, sid: string, draft: Doc, rid: string)
    ensures var vs := VersionsOf(db.versions, sid);
            var maxV := MaxVersion(vs);
            Complete(app, db, Go(PublishDraft(sid, draft)), rid) ==
            if maxV > 0 && SameContent(draft, vs[maxV]) then (db, PublishedAs(maxV, true))
            else if sid !in db.surveys || maxV + 1 in vs then (db, Failed)
            else (VersionPublished(db, sid, maxV + 1, Stamp(draft, maxV + 1)), PublishedAs(maxV + 1, false))
  {
    var maxV := MaxVersion(VersionsOf(db.versions, sid));
    OneCall(app, db, PublishDraft(sid, draft), rid);
    OneCall(app, db, PublishMax(sid, draft, maxV), rid);
    OneCall(app, db, PublishCommit(sid, draft, maxV), rid);
  }

  /** An admitted submission in one go: load the snapshot, then judge and save. */
  lemma ServeAdmitted(app: App, db: Db, op: Op, rid: string)
    requires op.SubmitAdmitted?
    ensures var doc := LoadSchema(db, op.sid, op.version);
            Complete(app, db, Go(op), rid) ==
            if doc.None? then (db, if op.version > 0 then BadRequest else NotFound)
            else
              var r := CommitSubmission(app, db, SubmitLoaded(op.sid, op.authenticated, op.answers, op.meta, doc.value), rid);
              (r.0, r.1.outcome)
  {
    var doc := LoadSchema(db, op.sid, op.version);
    OneCall(app, db, op, rid);
    if doc.Some? {
      OneCall(app, db, SubmitLoaded(op.sid, op.authenticated, op.answers, op.meta, doc.value), rid);
    }
  }

  datatype Action =
    | Create(sid: string, row: SurveyRow)
    | Handle(req: Request, rid: string)

  /** A created row is a draft that was never published; a taken id is refused. */
  ghost function Act(app: App, db: Db, a: Action): Db {
    match a
    case Create(sid, row) =>
      if sid in db.surveys then db else SurveyInserted(db, sid, row.(status := Draft, published := None))
    case Handle(req, rid) => Serve(app, db, req, rid).0
  }

  ghost function ActAll(app: App, db: Db, actions: seq<Action>): Db {
    if actions == [] then db
    else
      var n := |actions| - 1;
      Act(app, ActAll(app, db, actions[..n]), actions[n])
  }

  /** A draft has no version; anything else has exactly version 1, which is its draft stamped 1. */
  ghost predicate RowSerial(row: SurveyRow, vs: map<int, Doc>) {
    if row.status.Draft? then row.published.None? && vs == map[]
    else row.published == Some(1) && vs == map[1 := Stamp(row.draft, 1)]
  }

  ghost predicate SerialOk(db: Db) {
    && db.versions.Keys <= db.surveys.Keys
    && forall sid :: sid in db.surveys ==> RowSerial(db.surveys[sid], VersionsOf(db.versions, sid))
  }

  lemma MaxOfSerial(row: SurveyRow, vs: map<int, Doc>)
    requires RowSerial(row, vs)
    ensures MaxVersion(vs) == if row.status.Draft? then 0 else 1
  {
    if !row.status.Draft? {
      assert 1 in vs.Keys;
    }
  }

  /** What serving a publish request amounts to when handlers never interleave: the first publish
      freezes the draft as version 1 and goes live; every later one reports version 1 unchanged and
      changes nothing, not even the status of a closed survey. */
  lemma PublishServed(app: App, db: Db, actor: Actor, sid: string, rid: string)
    requires SerialOk(db)
    ensures var r := Serve(app, db, PublishReq(actor, sid), rid);
            if Owned(db, actor, sid) != Done then r == (db, Owned(db, actor, sid))
            else if db.surveys[sid].status.Draft? then
              r == (VersionPublished(db, sid, 1, Stamp(db.surveys[sid].draft, 1)), PublishedAs(1, false))
            else r == (db, PublishedAs(1, true))
  {
    if Owned(db, actor, sid) == Done {
      var row := db.surveys[sid];
      assert RowSerial(row, VersionsOf(db.versions, sid));
      MaxOfSerial(row, VersionsOf(db.versions, sid));
      ServePublish(app, db, sid, row.draft, rid);
      StampOverwrites(row.draft, 1, 1);
      SameContentEquivalence(Stamp(row.draft, 1), row.draft, row.draft);
    }
  }

  /** A later state in which published drafts are frozen and nothing has become a draft again. */
  ghost predicate Frozen(db: Db, later: Db) {
    forall sid :: sid in db.surveys && !db.surveys[sid].status.Draft? ==>
      && sid in later.surveys
      && !later.surveys[sid].status.Draft?
      && later.surveys[sid].draft == db.surveys[sid].draft
      && VersionsOf(later.versions, sid) == VersionsOf(db.versions, sid)
  }

  lemma RowChanged(db: Db, sid: string, row: SurveyRow)
    requires SerialOk(db) && sid in db.surveys
    requires row.published == db.surveys[sid].published && (row.status.Draft? <==> db.surveys[sid].status.Draft?)
    requires db.surveys[sid].status.Draft? || row.draft == db.surveys[sid].draft
    ensures SerialOk(db.(surveys := db.surveys[sid := row])) && Frozen(db, db.(surveys := db.surveys[sid := row]))
  {
  }

  lemma FirstPublish(db: Db, sid: string)
    requires SerialOk(db) && sid in db.surveys && db.surveys[sid].status.Draft?
    ensures var later := VersionPublished(db, sid, 1, Stamp(db.surveys[sid].draft, 1));
            SerialOk(later) && Frozen(db, later)
  {
    var later := VersionPublished(db, sid, 1, Stamp(db.surveys[sid].draft, 1));
    assert RowSerial(db.surveys[sid], VersionsOf(db.versions, sid));
    forall x ensures VersionsOf(later.versions, x) == if x == sid then later.versions[sid] else VersionsOf(db.versions, x) {
    }
    forall x | x in later.surveys ensures RowSerial(later.surveys[x], VersionsOf(later.versions, x)) {
      assert RowSerial(db.surveys[x], VersionsOf(db.versions, x));
    }
  }

  lemma SubmitServed(app: App, db: Db, req: Request, rid: string)
    requires req.SubmitReq?
    ensures var later := Serve(app, db, req, rid).0;
            later.surveys == db.surveys && later.versions == db.versions
  {
    var next := Begin(app, db, req);
    if next.Go? {
      OneCall(app, db, next.op, rid);
      var r := Advance(app, db, next.op, rid);
      if r.1.Go? {
        OneCall(app, r.0, r.1.op, rid);
      }
    }
  }

  /** A request that writes one row served alone. */
  lemma WriteServed(app: App, db: Db, req: Request, rid: string)
    requires SerialOk(db) && !req.SubmitReq? && !req.PublishReq?
    ensures var later := Serve(app, db, req, rid).0;
            SerialOk(later) && Frozen(db, later)
  {
    var next := Begin(app, db, req);
    if next.Go? {
      OneCall(app, db, next.op, rid);
      var sid, row := req.sid, db.surveys[req.sid];
      assert RowSerial(row, VersionsOf(db.versions, sid));
      match req {
        case UpdateReq(_, _, body) => RowChanged(db, sid, row.(draft := body, title := next.op.title, typ := next.op.typ));
        case CloseReq(_, _) => RowChanged(db, sid, row.(status := Closed));
        case ReopenReq(_, _) => RowChanged(db, sid, row.(status := Live));
        case AccessReq(_, _, access) => RowChanged(db, sid, row.(access := access));
        case DisplayReq(_, _, display) => RowChanged(db, sid, row.(display := display));
      }
    }
  }

  lemma ActOk(app: App, db: Db, a: Action)
    requires SerialOk(db)
    ensures SerialOk(Act(app, db, a)) && Frozen(db, Act(app, db, a))
  {
    match a {
      case Create(sid, row) =>
        if sid !in db.surveys {
          assert VersionsOf(db.versions, sid) == map[];
        }
      case Handle(req, rid) =>
        if req.SubmitReq? {
          SubmitServed(app, db, req, rid);
        } else if req.PublishReq? {
          PublishServed(app, db, req.actor, req.sid, rid);
          if Owned(db, req.actor, req.sid) == Done && db.surveys[req.sid].status.Draft? {
            FirstPublish(db, req.sid);
          }
        } else {
          WriteServed(app, db, req, rid);
        }
    }
  }

  /** However handlers follow one another, a survey has at most one version ever, that version is
      its draft, and what is published stays frozen. */
  lemma {:induction false} AtMostOneVersion(app: App, actions: seq<Action>, n: nat)
    requires n <= |actions|
    ensures SerialOk(ActAll(app, EMPTY, actions))
    ensures Frozen(ActAll(app, EMPTY, actions[..n]), ActAll(app, EMPTY, actions))
  {
    if actions == [] {
    } else {
      var last := |actions| - 1;
      var mid := ActAll(app, EMPTY, actions[..last]);
      AtMostOneVersion(app, actions[..last], if n <= last then n else last);
      ActOk(app, mid, actions[last]);
      if n <= last {
        assert actions[..last][..n] == actions[..n];
      } else {
        assert actions[..n] == actions;
      }
    }
  }
}
