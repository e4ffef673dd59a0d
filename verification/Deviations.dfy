/** Two things handlers never do one at a time: publish a second version, and store a response for
    a survey that has closed. When exactly interleaved runs do them, and runs that do. */
module Deviations {
  import opened Base
  import opened Documents
  import opened Database
  import opened Machine
  import opened Safety
  import opened Serial
  import opened Theorems
  import opened Interleaving

  // ---------- more than one version ----------

  ghost predicate OneAtMost(vs: map<int, Doc>) {
    forall j, k :: j in vs && k in vs ==> j == k
  }

  /** No survey has two versions. */
  ghost predicate OneVersion(s: Sys) {
    forall sid :: OneAtMost(VersionsOf(s.db.versions, sid))
  }

  /** A publisher that read an existing version, and whose draft differs from it, goes on to insert. */
  ghost predicate PublishesAgain(s: Sys, e: Event) {
    e.Continue? && e.id in s.ops && s.ops[e.id].PublishCommit? && s.ops[e.id].maxV > 0
  }

  ghost predicate PublishesOnce(s: Sys, e: Event) {
    !PublishesAgain(s, e)
  }

  lemma StepOneExactly(app: App, s: Sys, e: Event)
    requires ReadsVersion(app) && Inv(app, s) && OneVersion(s)
    ensures OneVersion(Step(app, s, e)) <==> PublishesOnce(s, e)
  {
    if e.Continue? && e.id in s.ops {
      var op := s.ops[e.id];
      if op.PublishCommit? {
        PublisherStep(app, s, e.id, e.rid);
        CommitOneExactly(s, op, Step(app, s, e));
      } else {
        OtherCallsKeepVersions(app, s.db, op, e.rid);
      }
    }
  }

  lemma OtherCallsKeepVersions(app: App, db: Db, op: Op, rid: string)
    requires !op.PublishCommit?
    ensures Advance(app, db, op, rid).0.versions == db.versions
  {
  }

  lemma CommitOneExactly(s: Sys, op: Op, t: Sys)
    requires TablesOk(s.db) && OpOk(s.db, op) && op.PublishCommit? && OneVersion(s)
    requires t.db == CommitPublish(s.db, op.sid, op.draft, op.maxV).0
    ensures OneVersion(t) <==> op.maxV == 0
  {
    var row, vs := s.db.surveys[op.sid], VersionsOf(s.db.versions, op.sid);
    assert RowOk(row, vs) && OneAtMost(vs);
    CommitIffCurrent(s.db, op);
    NextOneExactly(row, vs, Stamp(op.draft, op.maxV + 1));
    if op.maxV == Count(row) {
      PublishedOneExactly(s, op.sid, op.maxV + 1, Stamp(op.draft, op.maxV + 1), t);
    } else {
      assert t.db == s.db;
    }
  }

  lemma NextOneExactly(row: SurveyRow, vs: map<int, Doc>, doc: Doc)
    requires RowOk(row, vs) && OneAtMost(vs)
    ensures Count(row) <= 1
    ensures OneAtMost(vs[Count(row) + 1 := doc]) <==> Count(row) == 0
  {
    var more := vs[Count(row) + 1 := doc];
    assert Count(row) > 1 ==> 1 in vs && 2 in vs;
    assert Count(row) > 0 ==> Count(row) in more && Count(row) + 1 in more;
  }

  lemma PublishedOneExactly(s: Sys, sid: string, v: int, doc: Doc, t: Sys)
    requires OneVersion(s) && sid in s.db.surveys && t.db == VersionPublished(s.db, sid, v, doc)
    ensures OneVersion(t) <==> OneAtMost(VersionsOf(s.db.versions, sid)[v := doc])
  {
    forall x ensures VersionsOf(t.db.versions, x) ==
                     if x == sid then VersionsOf(s.db.versions, sid)[v := doc] else VersionsOf(s.db.versions, x)
    {
      PublishedVersions(s.db, sid, v, doc, x);
    }
  }

  /** No survey ever has a second version iff no publisher that has read an existing one, and found
      it different from its draft, goes on to insert. */
  lemma AtMostOneExactly(app: App, es: seq<Event>)
    requires ReadsVersion(app)
    ensures Throughout(app, es, OneVersion) <==> EachEvent(app, es, PublishesOnce)
  {
    forall s, e | Reachable(app, s) && OneVersion(s)
      ensures OneVersion(Step(app, s, e)) <==> PublishesOnce(s, e)
    {
      ReachableGood(app, s);
      StepOneExactly(app, s, e);
    }
    StepwiseExactly(app, es, OneVersion, PublishesOnce);
  }

  /** Behind a second version there always is a stale read: an untimely event. */
  lemma SecondVersionNeedsStaleRead(app: App, es: seq<Event>)
    requires ReadsVersion(app) && EachEvent(app, es, Timely)
    ensures Throughout(app, es, OneVersion)
  {
    RunSerialExactly(app, es);
    forall n | 0 <= n <= |es| ensures OneVersion(Run(app, INITIAL, es[..n])) {
      assert LooksSerial(Run(app, INITIAL, es[..n]));
      SerialHasOne(Run(app, INITIAL, es[..n]));
    }
  }

  lemma SerialHasOne(s: Sys)
    requires LooksSerial(s)
    ensures OneVersion(s)
  {
    forall sid ensures OneAtMost(VersionsOf(s.db.versions, sid)) {
      if sid in s.db.surveys {
        assert RowSerial(s.db.surveys[sid], VersionsOf(s.db.versions, sid));
      }
    }
  }

  ghost predicate FirstVersionFor(db: Db, sid: string, actor: Actor) {
    Owned(db, actor, sid) == Done && db.surveys[sid].status.Draft? && VersionsOf(db.versions, sid) == map[]
  }

  lemma PublishAlone(app: App, s: Sys, id: nat, actor: Actor, sid: string)
    requires id !in s.ops && FirstVersionFor(s.db, sid, actor)
    ensures Run(app, s, Alone(id, PublishReq(actor, sid), "")) ==
            Sys(VersionPublished(s.db, sid, 1, Stamp(s.db.surveys[sid].draft, 1)), s.ops)
  {
    UninterruptedIsServe(app, s, id, PublishReq(actor, sid), "");
    ServePublish(app, s.db, sid, s.db.surveys[sid].draft, "");
  }

  /** Once the stored draft differs from the only snapshot, publishing makes a second version. */
  lemma RepublishChanged(app: App, s: Sys, id: nat, actor: Actor, sid: string, snapshot: Doc)
    requires id !in s.ops && Owned(s.db, actor, sid) == Done
    requires VersionsOf(s.db.versions, sid) == map[1 := snapshot] && !SameContent(s.db.surveys[sid].draft, snapshot)
    ensures Run(app, s, Alone(id, PublishReq(actor, sid), "")) ==
            Sys(VersionPublished(s.db, sid, 2, Stamp(s.db.surveys[sid].draft, 2)), s.ops)
  {
    var vs := VersionsOf(s.db.versions, sid);
    assert MaxVersion(vs) == 1 by {
      assert 1 in vs.Keys;
    }
    UninterruptedIsServe(app, s, id, PublishReq(actor, sid), "");
    ServePublish(app, s.db, sid, s.db.surveys[sid].draft, "");
  }

  lemma StampKeepsDifference(d: Doc, edit: Doc)
    requires !SameContent(d, edit)
    ensures !SameContent(edit, Stamp(d, 1))
  {
  }

  /** An edit that read the survey as a draft may land after it went live; publishing again then
      makes a second version. Content differing between draft and edit is all it takes. */
  lemma StaleEditMakesSecondVersion(app: App, sid: string, d: Doc, edit: Doc) returns (es: seq<Event>)
    requires app.heading(edit).Some? && !SameContent(d, edit)
    ensures var db := Run(app, INITIAL, es).db;
            sid in db.surveys && db.surveys[sid].published == Some(2) && VersionsOf(db.versions, sid).Keys == {1, 2}
  {
    var actor := Actor("a", true);
    var create := Insert(sid, "o", "survey", "t", d, Anonymous, Single);
    var open := Start(0, UpdateReq(actor, sid, edit));
    var publish := Alone(1, PublishReq(actor, sid), "");
    var s1 := Step(app, INITIAL, create);
    var s2 := Step(app, s1, open);
    var s3 := Run(app, s2, publish);
    var s4 := Step(app, s3, Continue(0, ""));
    var s5 := Run(app, s4, publish);
    RunOne(app, INITIAL, create);
    ThenOne(app, INITIAL, [create], s1, open, s2);
    Then(app, INITIAL, [create] + [open], s2, publish, s3);
    ThenOne(app, INITIAL, [create] + [open] + publish, s3, Continue(0, ""), s4);
    es := [create] + [open] + publish + [Continue(0, "")];
    Then(app, INITIAL, es, s4, publish, s5);
    es := es + publish;
    StaleEditStates(app, sid, d, edit, actor, s2);
  }

  lemma StaleEditStates(app: App, sid: string, d: Doc, edit: Doc, actor: Actor, s: Sys)
    requires app.heading(edit).Some? && !SameContent(d, edit) && actor.admin
    requires sid in s.db.surveys && s.db.surveys[sid].status.Draft? && s.db.surveys[sid].draft == d
    requires VersionsOf(s.db.versions, sid) == map[]
    requires s.ops == map[0 := UpdateReady(sid, app.heading(edit).value.title, app.heading(edit).value.typ, edit)]
    ensures var publish := Alone(1, PublishReq(actor, sid), "");
            var db := Run(app, Step(app, Run(app, s, publish), Continue(0, "")), publish).db;
            sid in db.surveys && db.surveys[sid].published == Some(2) && VersionsOf(db.versions, sid).Keys == {1, 2}
  {
    PublishAlone(app, s, 1, actor, sid);
    var s3 := Sys(VersionPublished(s.db, sid, 1, Stamp(d, 1)), s.ops);
    var s4 := Step(app, s3, Continue(0, ""));
    assert s4.ops == map[];
    PublishedVersions(s.db, sid, 1, Stamp(d, 1), sid);
    StampKeepsDifference(d, edit);
    RepublishChanged(app, s4, 1, actor, sid, Stamp(d, 1));
    PublishedVersions(s4.db, sid, 2, Stamp(edit, 2), sid);
  }

  /** A publisher that read the draft before an edit and another publish likewise makes a second
      version, out of content nobody may want any more; no edit lands on a published survey. */
  lemma StalePublisherMakesSecondVersion(app: App, sid: string, d: Doc, edit: Doc) returns (es: seq<Event>)
    requires app.heading(edit).Some? && !SameContent(d, edit)
    ensures var db := Run(app, INITIAL, es).db;
            sid in db.surveys && db.surveys[sid].published == Some(2) && VersionsOf(db.versions, sid).Keys == {1, 2}
  {
    var actor := Actor("a", true);
    var create := Insert(sid, "o", "survey", "t", d, Anonymous, Single);
    var read := Start(0, PublishReq(actor, sid));
    var update := Alone(1, UpdateReq(actor, sid, edit), "");
    var publish := Alone(1, PublishReq(actor, sid), "");
    var c := Continue(0, "");
    var s1 := Step(app, INITIAL, create);
    var s2 := Step(app, s1, read);
    var s3 := Run(app, s2, update);
    var s4 := Run(app, s3, publish);
    var s5 := Run(app, s4, [c, c, c]);
    RunOne(app, INITIAL, create);
    ThenOne(app, INITIAL, [create], s1, read, s2);
    Then(app, INITIAL, [create] + [read], s2, update, s3);
    Then(app, INITIAL, [create] + [read] + update, s3, publish, s4);
    es := [create] + [read] + update + publish;
    Then(app, INITIAL, es, s4, [c, c, c], s5);
    es := es + [c, c, c];
    StalePublisherStates(app, sid, d, edit, actor, s2);
  }

  lemma StalePublisherStates(app: App, sid: string, d: Doc, edit: Doc, actor: Actor, s: Sys)
    requires app.heading(edit).Some? && !SameContent(d, edit) && actor.admin
    requires sid in s.db.surveys && s.db.surveys[sid].status.Draft? && s.db.surveys[sid].draft == d
    requires VersionsOf(s.db.versions, sid) == map[] && s.ops == map[0 := PublishDraft(sid, d)]
    ensures var t := Run(app, s, Alone(1, UpdateReq(actor, sid, edit), ""));
            var u := Run(app, t, Alone(1, PublishReq(actor, sid), ""));
            var c := Continue(0, "");
            var db := Run(app, u, [c, c, c]).db;
            sid in db.surveys && db.surveys[sid].published == Some(2) && VersionsOf(db.versions, sid).Keys == {1, 2}
  {
    var h := app.heading(edit).value;
    var t := Sys(DraftUpdated(s.db, sid, h.title, h.typ, edit), s.ops);
    UninterruptedIsServe(app, s, 1, UpdateReq(actor, sid, edit), "");
    OneCall(app, s.db, UpdateReady(sid, h.title, h.typ, edit), "");
    PublishAlone(app, t, 1, actor, sid);
    var u := Sys(VersionPublished(t.db, sid, 1, Stamp(edit, 1)), s.ops);
    PublishedVersions(t.db, sid, 1, Stamp(edit, 1), sid);
    StampKeepsDifference(edit, d);
    StaleCommit(app, u, sid, d, Stamp(edit, 1));
  }

  /** The three calls of a publisher that finds one version with other content than its draft. */
  lemma StaleCommit(app: App, s: Sys, sid: string, d: Doc, snapshot: Doc)
    requires sid in s.db.surveys && s.ops == map[0 := PublishDraft(sid, d)]
    requires VersionsOf(s.db.versions, sid) == map[1 := snapshot] && !SameContent(d, snapshot)
    ensures var c := Continue(0, "");
            var db := Run(app, s, [c, c, c]).db;
            sid in db.surveys && db.surveys[sid].published == Some(2) && VersionsOf(db.versions, sid).Keys == {1, 2}
  {
    var c := Continue(0, "");
    assert MaxVersion(VersionsOf(s.db.versions, sid)) == 1 by {
      assert 1 in VersionsOf(s.db.versions, sid).Keys;
    }
    var s1, s2 := Sys(s.db, map[0 := PublishMax(sid, d, 1)]), Sys(s.db, map[0 := PublishCommit(sid, d, 1)]);
    assert Step(app, s, c) == s1;
    assert Step(app, s1, c) == s2;
    ThreeSteps(app, s, s1, s2, c);
    PublishedVersions(s.db, sid, 2, Stamp(d, 2), sid);
  }

  lemma ThreeSteps(app: App, s: Sys, s1: Sys, s2: Sys, e: Event)
    requires Step(app, s, e) == s1 && Step(app, s1, e) == s2
    ensures Run(app, s, [e, e, e]) == Step(app, s2, e)
  {
    RunOne(app, s, e);
    ThenOne(app, s, [e], s1, e, s2);
    ThenOne(app, s, [e] + [e], s2, e, Step(app, s2, e));
    assert [e] + [e] + [e] == [e, e, e];
  }

  // ---------- a response for a closed survey ----------

  /** The status a store call writes to its survey, if any; a publisher writes one only when it
      commits. */
  ghost function CallWrites(db: Db, op: Op): Option<Status> {
    match op
    case CloseReady(_) => Some(Closed)
    case ReopenReady(_) => Some(Live)
    case PublishCommit(sid, _, maxV) => if maxV == MaxVersion(VersionsOf(db.versions, sid)) then Some(Live) else None
    case _ => None
  }

  ghost function StatusWritten(s: Sys, e: Event, sid: string): Option<Status> {
    if !e.Continue? || e.id !in s.ops || s.ops[e.id].sid != sid then None else CallWrites(s.db, s.ops[e.id])
  }

  ghost function StatusWrittenAt(app: App, es: seq<Event>, n: nat, sid: string): Option<Status>
    requires n < |es|
  {
    StatusWritten(Run(app, INITIAL, es[..n]), es[n], sid)
  }

  /** From the i-th event on, some close of the survey took effect and nothing made it live again. */
  ghost predicate ClosedSince(app: App, es: seq<Event>, sid: string, i: nat) {
    exists c ::
      && i <= c < |es| && StatusWrittenAt(app, es, c, sid) == Some(Closed)
      && forall n :: c < n < |es| ==> StatusWrittenAt(app, es, n, sid) != Some(Live)
  }

  lemma CallStatus(app: App, db: Db, op: Op, rid: string, sid: string)
    requires TablesOk(db) && OpOk(db, op) && sid in db.surveys
    ensures var later, w := Advance(app, db, op, rid).0, if op.sid == sid then CallWrites(db, op) else None;
            && sid in later.surveys
            && later.surveys[sid].status == (if w.Some? then w.value else db.surveys[sid].status)
  {
    if op.PublishCommit? {
      CommitIffCurrent(db, op);
    }
  }

  lemma StatusStep(app: App, s: Sys, e: Event, sid: string)
    requires ReadsVersion(app) && Inv(app, s) && sid in s.db.surveys
    ensures var t, w := Step(app, s, e), StatusWritten(s, e, sid);
            && sid in t.db.surveys
            && t.db.surveys[sid].status == (if w.Some? then w.value else s.db.surveys[sid].status)
  {
    if e.Continue? && e.id in s.ops {
      CallStatus(app, s.db, s.ops[e.id], e.rid, sid);
    }
  }

  lemma ClosedSinceSnoc(app: App, es: seq<Event>, e: Event, sid: string, i: nat)
    requires i <= |es|
    ensures var w := StatusWritten(Run(app, INITIAL, es), e, sid);
            ClosedSince(app, es + [e], sid, i) <==> w == Some(Closed) || (w != Some(Live) && ClosedSince(app, es, sid, i))
  {
    var all, n := es + [e], |es|;
    assert all[..n] == es && all[n] == e;
    forall k | 0 <= k < n ensures StatusWrittenAt(app, all, k, sid) == StatusWrittenAt(app, es, k, sid) {
      assert all[..k] == es[..k] && all[k] == es[k];
    }
    assert StatusWrittenAt(app, all, n, sid) == StatusWritten(Run(app, INITIAL, es), e, sid);
  }

  /** A survey live at some point of a run is live at its end iff it was not closed since. */
  lemma {:induction false} LiveExactly(app: App, es: seq<Event>, sid: string, i: nat)
    requires ReadsVersion(app) && i <= |es|
    requires var at := Run(app, INITIAL, es[..i]).db; sid in at.surveys && at.surveys[sid].status.Live?
    ensures var end := Run(app, INITIAL, es).db;
            && sid in end.surveys
            && end.surveys[sid].status == if ClosedSince(app, es, sid, i) then Closed else Live
  {
    if i == |es| {
      assert es[..i] == es;
    } else {
      var init, e := es[..|es| - 1], es[|es| - 1];
      assert es == init + [e] && init[..i] == es[..i];
      LiveExactly(app, init, sid, i);
      InitiallyGood(app);
      RunGood(app, INITIAL, init);
      Snoc(app, INITIAL, init, e);
      StatusStep(app, Run(app, INITIAL, init), e, sid);
      ClosedSinceSnoc(app, init, e, sid, i);
    }
  }

  /** Each stored response was saved on a live survey iff that survey was not closed between the
      start of its submission, which read it live, and the save. */
  lemma SavedWhileLiveExactly(app: App, es: seq<Event>, rid: string) returns (p: Path)
    requires ReadsVersion(app) && rid in Run(app, INITIAL, es).db.responses
    ensures SubmittedAlong(app, es, rid, Run(app, INITIAL, es).db.responses[rid], p)
    ensures var sid, at := Run(app, INITIAL, es).db.responses[rid].surveyId, Run(app, INITIAL, es[..p.save]).db;
            && sid in at.surveys
            && at.surveys[sid].status == if ClosedSince(app, es[..p.save], sid, p.start) then Closed else Live
  {
    p := ResponseAdmitted(app, es, rid);
    assert es[..p.save][..p.start] == es[..p.start];
    LiveExactly(app, es[..p.save], Run(app, INITIAL, es).db.responses[rid].surveyId, p.start);
  }

  /** A sheet that was admitted while the survey was live is stored even if the survey closes
      before the save. */
  lemma ResponseAfterClose(app: App, sid: string, rid: string, d: Doc, answers: Answers) returns (es: seq<Event>)
    requires app.judge(Stamp(d, 1), answers).Accepted?
    ensures var db := Run(app, INITIAL, es).db;
            sid in db.surveys && db.surveys[sid].status.Closed? && rid in db.responses && db.responses[rid].surveyId == sid
  {
    var actor := Actor("a", true);
    var create := Insert(sid, "o", "survey", "t", d, Anonymous, Single);
    var publish := Alone(1, PublishReq(actor, sid), "");
    var admit := Start(0, SubmitReq(sid, false, 0, answers));
    var close := Alone(1, CloseReq(actor, sid), "");
    var save := Continue(0, rid);
    var s1 := Step(app, INITIAL, create);
    var s2 := Run(app, s1, publish);
    var s3 := Step(app, s2, admit);
    var s4 := Step(app, s3, save);
    var s5 := Run(app, s4, close);
    var s6 := Step(app, s5, save);
    RunOne(app, INITIAL, create);
    Then(app, INITIAL, [create], s1, publish, s2);
    ThenOne(app, INITIAL, [create] + publish, s2, admit, s3);
    ThenOne(app, INITIAL, [create] + publish + [admit], s3, save, s4);
    es := [create] + publish + [admit] + [save];
    Then(app, INITIAL, es, s4, close, s5);
    es := es + close;
    ThenOne(app, INITIAL, es, s5, save, s6);
    es := es + [save];
    PublishAlone(app, s1, 1, actor, sid);
    PublishedVersions(s1.db, sid, 1, Stamp(d, 1), sid);
    AdmittedThenClosed(app, s2, sid, rid, answers, actor, Stamp(d, 1));
  }

  lemma AdmittedThenClosed(app: App, s: Sys, sid: string, rid: string, answers: Answers, actor: Actor, doc: Doc)
    requires app.judge(doc, answers).Accepted? && actor.admin && s.ops == map[] && rid !in s.db.responses
    requires sid in s.db.surveys && s.db.surveys[sid].status.Live? && s.db.surveys[sid].access.Anonymous?
    requires GetPublishedSchema(s.db, sid) == Some(doc)
    ensures var save := Continue(0, rid);
            var s4 := Step(app, Step(app, s, Start(0, SubmitReq(sid, false, 0, answers))), save);
            var db := Step(app, Run(app, s4, Alone(1, CloseReq(actor, sid), "")), save).db;
            sid in db.surveys && db.surveys[sid].status.Closed? && rid in db.responses && db.responses[rid].surveyId == sid
  {
    var meta := s.db.surveys[sid];
    var s3 := Step(app, s, Start(0, SubmitReq(sid, false, 0, answers)));
    assert s3 == Sys(s.db, map[0 := SubmitAdmitted(sid, false, 0, answers, meta)]);
    var s4 := Step(app, s3, Continue(0, rid));
    assert s4 == Sys(s.db, map[0 := SubmitLoaded(sid, false, answers, meta, doc)]);
    UninterruptedIsServe(app, s4, 1, CloseReq(actor, sid), "");
    OneCall(app, s4.db, CloseReady(sid), "");
  }
}
