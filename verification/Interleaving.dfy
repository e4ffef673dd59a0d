/** How interleaved runs and one-at-a-time handlers compare. */
module Interleaving {
  import opened Base
  import opened Documents
  import opened Database
  import opened Machine
  import opened Safety
  import opened Serial

  lemma RunOne(app: App, s: Sys, e: Event)
    ensures Run(app, s, [e]) == Step(app, s, e)
  {
  }

  lemma {:induction false} RunConcat(app: App, s: Sys, xs: seq<Event>, ys: seq<Event>)
    ensures Run(app, s, xs + ys) == Run(app, Run(app, s, xs), ys)
  {
    if ys == [] {
      assert xs + ys == xs;
    } else {
      var n := |ys| - 1;
      assert (xs + ys)[..|xs + ys| - 1] == xs + ys[..n];
      RunConcat(app, s, xs, ys[..n]);
    }
  }

  lemma Snoc(app: App, s: Sys, xs: seq<Event>, e: Event)
    ensures Run(app, s, xs + [e]) == Step(app, Run(app, s, xs), e)
  {
  }

  /** Going on with ys from where xs led. */
  lemma Then(app: App, s: Sys, xs: seq<Event>, t: Sys, ys: seq<Event>, u: Sys)
    requires Run(app, s, xs) == t && Run(app, t, ys) == u
    ensures Run(app, s, xs + ys) == u
  {
    RunConcat(app, s, xs, ys);
  }

  lemma ThenOne(app: App, s: Sys, xs: seq<Event>, t: Sys, e: Event, u: Sys)
    requires Run(app, s, xs) == t && Step(app, t, e) == u
    ensures Run(app, s, xs + [e]) == u
  {
  }

  // ---------- a handler left alone ----------

  function Alone(id: nat, req: Request, rid: string): seq<Event> {
    [Start(id, req), Continue(id, rid), Continue(id, rid), Continue(id, rid)]
  }

  /** Continuing an operation while it has calls left, and nothing once it has finished. */
  lemma ContinueOnce(app: App, s: Sys, ops: map<nat, Op>, id: nat, db: Db, next: Next, rid: string)
    requires id !in ops && s == Sys(db, Put(ops, id, next))
    ensures var t := Step(app, s, Continue(id, rid));
            var r := if next.Go? then Advance(app, db, next.op, rid) else (db, next);
            t == Sys(r.0, Put(ops, id, r.1)) && Complete(app, r.0, r.1, rid) == Complete(app, db, next, rid)
  {
    if next.Go? {
      OneCall(app, db, next.op, rid);
      assert Put(s.ops, id, Advance(app, db, next.op, rid).1) == Put(ops, id, Advance(app, db, next.op, rid).1);
    } else {
      assert s.ops == ops;
    }
  }

  /** The serial handlers are the interleaved ones with no other event in between. */
  lemma UninterruptedIsServe(app: App, s: Sys, id: nat, req: Request, rid: string)
    requires id !in s.ops
    ensures Run(app, s, Alone(id, req, rid)) == Sys(Serve(app, s.db, req, rid).0, s.ops)
  {
    var next := Begin(app, s.db, req);
    var c := Continue(id, rid);
    var es := Alone(id, req, rid);
    var s0 := Step(app, s, es[0]);
    var s1 := Step(app, s0, c);
    var s2 := Step(app, s1, c);
    var s3 := Step(app, s2, c);
    assert Run(app, s, es) == s3 by {
      RunOne(app, s, es[0]);
      Snoc(app, s, [es[0]], c);
      Snoc(app, s, [es[0], c], c);
      Snoc(app, s, [es[0], c, c], c);
      assert es == [es[0], c, c] + [c] && [es[0], c, c] == [es[0], c] + [c] && [es[0], c] == [es[0]] + [c];
    }
    ContinueOnce(app, s0, s.ops, id, s.db, next, rid);
    var r1 := if next.Go? then Advance(app, s.db, next.op, rid) else (s.db, next);
    ContinueOnce(app, s1, s.ops, id, r1.0, r1.1, rid);
    var r2 := if r1.1.Go? then Advance(app, r1.0, r1.1.op, rid) else r1;
    ContinueOnce(app, s2, s.ops, id, r2.0, r2.1, rid);
    var r3 := if r2.1.Go? then Advance(app, r2.0, r2.1.op, rid) else r2;
    FinishedInThree(app, s.db, next, rid);
    assert s.ops - {id} == s.ops;
  }

  lemma FinishedInThree(app: App, db: Db, next: Next, rid: string)
    ensures var r1 := if next.Go? then Advance(app, db, next.op, rid) else (db, next);
            var r2 := if r1.1.Go? then Advance(app, r1.0, r1.1.op, rid) else r1;
            var r3 := if r2.1.Go? then Advance(app, r2.0, r2.1.op, rid) else r2;
            r3.1.Finish?
  {
  }

  // ---------- when interleaving is harmless ----------

  /** A draft write lands while the survey is still a draft, or repeats its content; a commit
      publishes, for the first time, the content the draft has at that moment. */
  ghost predicate Timely(s: Sys, e: Event) {
    e.Continue? && e.id in s.ops && s.ops[e.id].sid in s.db.surveys ==>
      var row := s.db.surveys[s.ops[e.id].sid];
      match s.ops[e.id]
      case UpdateReady(_, _, _, body) => row.status.Draft? || SameContent(body, row.draft)
      case PublishCommit(sid, draft, maxV) =>
        maxV == MaxVersion(VersionsOf(s.db.versions, sid)) ==> row.status.Draft? && SameContent(draft, row.draft)
      case _ => true
  }

  /** From a state like those of serial runs, the next one is again like them iff the event is timely. */
  lemma StepSerialExactly(app: App, s: Sys, e: Event)
    requires ReadsVersion(app) && Inv(app, s) && SerialOk(s.db)
    ensures SerialOk(Step(app, s, e).db) <==> Timely(s, e)
  {
    match e {
      case Insert(sid, _, _, _, _, _, _) => assert sid !in s.db.surveys ==> VersionsOf(s.db.versions, sid) == map[];
      case Start(_, _) =>
      case Abort(_) =>
      case Continue(id, rid) =>
        if id in s.ops {
          AdvanceSerialExactly(app, s, id, rid);
        }
    }
  }

  lemma AdvanceSerialExactly(app: App, s: Sys, id: nat, rid: string)
    requires Inv(app, s) && SerialOk(s.db) && id in s.ops
    ensures SerialOk(Advance(app, s.db, s.ops[id], rid).0) <==> Timely(s, Continue(id, rid))
  {
    var op := s.ops[id];
    assert OpOk(s.db, op);
    var row, vs := s.db.surveys[op.sid], VersionsOf(s.db.versions, op.sid);
    assert RowSerial(row, vs);
    match op {
      case UpdateReady(sid, title, typ, body) => DraftWriteSerialExactly(s.db, sid, row.(draft := body, title := title, typ := typ));
      case CloseReady(sid) => RowChanged(s.db, sid, row.(status := Closed));
      case ReopenReady(sid) => RowChanged(s.db, sid, row.(status := Live));
      case AccessReady(sid, access) => RowChanged(s.db, sid, row.(access := access));
      case DisplayReady(sid, display) => RowChanged(s.db, sid, row.(display := display));
      case PublishDraft(_, _) =>
      case PublishMax(_, _, _) =>
      case PublishCommit(_, _, _) => CommitSerialExactly(s.db, op, Advance(app, s.db, op, rid).0);
      case SubmitAdmitted(_, _, _, _, _) =>
      case SubmitLoaded(_, _, _, _, _) =>
        assert Advance(app, s.db, op, rid).0.versions == s.db.versions;
    }
  }

  lemma DraftWriteSerialExactly(db: Db, sid: string, row: SurveyRow)
    requires SerialOk(db) && sid in db.surveys
    requires row.published == db.surveys[sid].published && row.status == db.surveys[sid].status
    ensures SerialOk(db.(surveys := db.surveys[sid := row])) <==> row.status.Draft? || SameContent(row.draft, db.surveys[sid].draft)
  {
    var later := db.(surveys := db.surveys[sid := row]);
    var vs := VersionsOf(db.versions, sid);
    var was := db.surveys[sid];
    assert RowSerial(was, vs);
    SameContentIffStampsEqual(row.draft, was.draft, 1);
    assert !row.status.Draft? ==> vs[1] == Stamp(was.draft, 1);
    assert RowSerial(row, vs) <==> row.status.Draft? || SameContent(row.draft, was.draft);
    assert SerialOk(later) ==> RowSerial(later.surveys[sid], vs);
  }

  lemma CommitSerialExactly(db: Db, op: Op, later: Db)
    requires TablesOk(db) && SerialOk(db) && OpOk(db, op) && op.PublishCommit?
    requires later == CommitPublish(db, op.sid, op.draft, op.maxV).0
    ensures SerialOk(later) <==>
            (op.maxV == MaxVersion(VersionsOf(db.versions, op.sid)) ==>
               db.surveys[op.sid].status.Draft? && SameContent(op.draft, db.surveys[op.sid].draft))
  {
    CommitOutcome(db, op, later);
    if op.maxV == MaxVersion(VersionsOf(db.versions, op.sid)) {
      CurrentCommitSerialExactly(db, op.sid, op.draft, op.maxV, later);
    }
  }

  lemma CommitOutcome(db: Db, op: Op, later: Db)
    requires TablesOk(db) && OpOk(db, op) && op.PublishCommit?
    requires later == CommitPublish(db, op.sid, op.draft, op.maxV).0
    ensures op.sid in db.surveys
    ensures later == if op.maxV == MaxVersion(VersionsOf(db.versions, op.sid))
                     then VersionPublished(db, op.sid, op.maxV + 1, Stamp(op.draft, op.maxV + 1)) else db
  {
    CommitIffCurrent(db, op);
  }

  lemma CurrentCommitSerialExactly(db: Db, sid: string, draft: Doc, maxV: int, later: Db)
    requires SerialOk(db) && sid in db.surveys && maxV == MaxVersion(VersionsOf(db.versions, sid))
    requires later == VersionPublished(db, sid, maxV + 1, Stamp(draft, maxV + 1))
    ensures SerialOk(later) <==> db.surveys[sid].status.Draft? && SameContent(draft, db.surveys[sid].draft)
  {
    var row, vs := db.surveys[sid], VersionsOf(db.versions, sid);
    assert RowSerial(row, vs);
    MaxOfSerial(row, vs);
    PublishedSerialExactly(db, sid, maxV + 1, Stamp(draft, maxV + 1));
    PublishedRowSerialExactly(row, vs, draft, maxV);
  }

  /** A publish leaves the state serial iff it leaves the published survey's row so. */
  lemma PublishedSerialExactly(db: Db, sid: string, v: int, doc: Doc)
    requires SerialOk(db) && sid in db.surveys
    ensures SerialOk(VersionPublished(db, sid, v, doc)) <==>
            RowSerial(db.surveys[sid].(published := Some(v), status := Live), VersionsOf(db.versions, sid)[v := doc])
  {
    var later := VersionPublished(db, sid, v, doc);
    forall x ensures VersionsOf(later.versions, x) ==
                     if x == sid then VersionsOf(db.versions, sid)[v := doc] else VersionsOf(db.versions, x)
    {
      PublishedVersions(db, sid, v, doc, x);
    }
    assert SerialOk(later) ==> RowSerial(later.surveys[sid], VersionsOf(later.versions, sid));
  }

  lemma PublishedRowSerialExactly(row: SurveyRow, vs: map<int, Doc>, draft: Doc, maxV: int)
    requires RowSerial(row, vs) && maxV == (if row.status.Draft? then 0 else 1)
    ensures RowSerial(row.(published := Some(maxV + 1), status := Live), vs[maxV + 1 := Stamp(draft, maxV + 1)]) <==>
            row.status.Draft? && SameContent(draft, row.draft)
  {
    SameContentIffStampsEqual(draft, row.draft, 1);
    var more := vs[maxV + 1 := Stamp(draft, maxV + 1)];
    assert maxV + 1 in more;
    if row.status.Draft? {
      assert more == map[1 := Stamp(draft, 1)];
      assert more[1] == Stamp(draft, 1);
    }
  }

  // ---------- whole runs ----------

  ghost predicate Throughout(app: App, es: seq<Event>, p: Sys -> bool) {
    forall n :: 0 <= n <= |es| ==> p(Run(app, INITIAL, es[..n]))
  }

  ghost predicate EachEvent(app: App, es: seq<Event>, q: (Sys, Event) -> bool) {
    forall n :: 0 <= n < |es| ==> q(Run(app, INITIAL, es[..n]), es[n])
  }

  lemma ThroughoutSnoc(app: App, es: seq<Event>, e: Event, p: Sys -> bool)
    ensures Throughout(app, es + [e], p) <==> Throughout(app, es, p) && p(Run(app, INITIAL, es + [e]))
  {
    var all := es + [e];
    assert all[..|all|] == all;
    assert forall n :: 0 <= n <= |es| ==> all[..n] == es[..n];
  }

  lemma ThroughoutLast(app: App, es: seq<Event>, p: Sys -> bool)
    ensures Throughout(app, es, p) ==> p(Run(app, INITIAL, es))
  {
    assert es[..|es|] == es;
  }

  lemma EachEventSnoc(app: App, es: seq<Event>, e: Event, q: (Sys, Event) -> bool)
    ensures EachEvent(app, es + [e], q) <==> EachEvent(app, es, q) && q(Run(app, INITIAL, es), e)
  {
    var all := es + [e];
    assert all[..|es|] == es && all[|es|] == e;
    assert forall n :: 0 <= n < |es| ==> all[..n] == es[..n] && all[n] == es[n];
  }

  /** A property of states that one event keeps exactly when a condition on that event holds is
      kept by a whole run exactly when the condition holds of each of its events. */
  lemma {:induction false} StepwiseExactly(app: App, es: seq<Event>, p: Sys -> bool, q: (Sys, Event) -> bool)
    requires p(INITIAL)
    requires forall s, e :: Reachable(app, s) && p(s) ==> (p(Step(app, s, e)) <==> q(s, e))
    ensures Throughout(app, es, p) <==> EachEvent(app, es, q)
  {
    if es == [] {
      assert es[..0] == [];
    } else {
      var init, e := es[..|es| - 1], es[|es| - 1];
      assert es == init + [e];
      var mid := Run(app, INITIAL, init);
      StepwiseExactly(app, init, p, q);
      ThroughoutSnoc(app, init, e, p);
      EachEventSnoc(app, init, e, q);
      Snoc(app, INITIAL, init, e);
      ThroughoutLast(app, init, p);
      assert Reachable(app, mid);
      assert p(mid) ==> (p(Step(app, mid, e)) <==> q(mid, e));
    }
  }

  ghost predicate LooksSerial(s: Sys) {
    SerialOk(s.db)
  }

  /** An interleaved run looks serial throughout (one version at most, equal to the draft) iff
      every one of its events is timely. */
  lemma RunSerialExactly(app: App, es: seq<Event>)
    requires ReadsVersion(app)
    ensures Throughout(app, es, LooksSerial) <==> EachEvent(app, es, Timely)
  {
    forall s, e | Reachable(app, s) && LooksSerial(s)
      ensures LooksSerial(Step(app, s, e)) <==> Timely(s, e)
    {
      ReachableGood(app, s);
      StepSerialExactly(app, s, e);
    }
    StepwiseExactly(app, es, LooksSerial, Timely);
  }
}
