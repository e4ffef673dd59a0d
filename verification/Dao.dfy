/** The data-access facade: one mutable store, single statements and two transactions. */
module Dao {
  import opened Base
  import opened Schema
  import opened Documents
  import opened Database

  class Store {
    var surveys: map<string, SurveyRow>
    var versions: map<string, map<int, Doc>>
    var responses: map<string, Response>
    var answerRows: seq<AnswerRow>

    ghost function View(): Db
      reads this
    {
      Db(surveys, versions, responses, answerRows)
    }

    constructor ()
      ensures View() == EMPTY
    {
      surveys, versions, responses, answerRows := map[], map[], map[], [];
    }

    method CreateSurvey(sid: string, owner: string, typ: string, title: string, draft: Doc, access: Access, display: Display)
      returns (ok: bool)
      modifies this
      ensures ok == (sid !in old(surveys))
      ensures View() == if ok then SurveyInserted(old(View()), sid, SurveyRow(owner, typ, title, Draft, draft, None, access, display))
                        else old(View())
    {
      ok := sid !in surveys;
      if ok {
        surveys := surveys[sid := SurveyRow(owner, typ, title, Draft, draft, None, access, display)];
      }
    }

    method GetSurvey(sid: string) returns (row: Option<SurveyRow>)
      ensures row == if sid in surveys then Some(surveys[sid]) else None
    {
      row := if sid in surveys then Some(surveys[sid]) else None;
    }

    method UpdateDraft(sid: string, title: string, typ: string, draft: Doc)
      modifies this
      ensures View() == DraftUpdated(old(View()), sid, title, typ, draft)
    {
      if sid in surveys {
        surveys := surveys[sid := surveys[sid].(draft := draft, title := title, typ := typ)];
      }
    }

    method SetStatus(sid: string, status: Status)
      modifies this
      ensures View() == StatusSet(old(View()), sid, status)
    {
      if sid in surveys {
        surveys := surveys[sid := surveys[sid].(status := status)];
      }
    }

    method SetAnswerAccess(sid: string, access: Access)
      modifies this
      ensures View() == AccessSet(old(View()), sid, access)
    {
      if sid in surveys {
        surveys := surveys[sid := surveys[sid].(access := access)];
      }
    }

    method SetDisplayMode(sid: string, display: Display)
      modifies this
      ensures View() == DisplaySet(old(View()), sid, display)
    {
      if sid in surveys {
        surveys := surveys[sid := surveys[sid].(display := display)];
      }
    }

    method MaxVersionOf(sid: string) returns (m: int)
      ensures m == MaxVersion(VersionsOf(versions, sid))
    {
      var vs: map<int, Doc> := if sid in versions then versions[sid] else map[];
      m := 0;
      var todo := vs.Keys;
      var first := true;
      while todo != {}
        invariant todo <= vs.Keys
        invariant first ==> m == 0 && todo == vs.Keys
        invariant !first ==> m in vs.Keys && forall k :: k in vs.Keys && k !in todo ==> k <= m
      {
        // Rows come back in no particular order.
        ghost var some := AnElement(todo);
        var v :| v in todo;
        todo := todo - {v};
        if first || v > m {
          m := v;
        }
        first := false;
      }
      if first {
        assert vs == map[];
      } else {
        assert vs != map[];
      }
    }

    method GetVersion(sid: string, v: int) returns (doc: Option<Doc>)
      ensures doc == GetVersionSchema(View(), sid, v)
    {
      doc := if sid in versions && v in versions[sid] then Some(versions[sid][v]) else None;
    }

    method GetPublished(sid: string) returns (doc: Option<Doc>)
      ensures doc == GetPublishedSchema(View(), sid)
    {
      doc := None;
      if sid in surveys && surveys[sid].status.Live? && surveys[sid].published.Some? {
        doc := GetVersion(sid, surveys[sid].published.value);
      }
    }

    /** Freeze a draft as the next version. The database may fail after `budget` writes; a failure
        of any kind rolls everything back. */
    method Publish(sid: string, draft: Doc, budget: nat) returns (version: int, same: bool, ok: bool)
      modifies this
      ensures var vs := VersionsOf(old(versions), sid);
              var maxV := MaxVersion(vs);
              if maxV > 0 && SameContent(draft, vs[maxV]) then
                ok && version == maxV && same && View() == old(View())
              else if sid !in old(surveys) || maxV + 1 in vs || budget < 3 then
                !ok && View() == old(View())
              else
                ok && version == maxV + 1 && !same
                && View() == VersionPublished(old(View()), sid, maxV + 1, Stamp(draft, maxV + 1))
    {
      version, same, ok := 0, false, false;
      var maxV := MaxVersionOf(sid);
      if maxV > 0 {
        var curr := GetVersion(sid, maxV);
        var equal := SchemaEqualIgnoringVersion(draft, curr.value);
        if equal {
          return maxV, true, true;
        }
      }
      var next := maxV + 1;
      var stamped := StampVersion(draft, next);
      var surveys0, versions0 := surveys, versions;
      var vs: map<int, Doc> := if sid in versions then versions[sid] else map[];
      if budget < 1 || sid !in surveys || next in vs {
        return;
      }
      versions := versions[sid := vs[next := stamped]];
      if budget < 2 {
        surveys, versions := surveys0, versions0;
        return;
      }
      surveys := surveys[sid := surveys[sid].(published := Some(next), status := Live)];
      if budget < 3 {
        surveys, versions := surveys0, versions0;
        return;
      }
      return next, false, true;
    }

    /** Write the response and all of its rows, or nothing: the database may fail after `budget`
        writes, the commit being the last. */
    method SaveSubmission(rid: string, sid: string, version: int, raw: Answers, rows: seq<NormalizedRow>, budget: nat)
      returns (ok: bool)
      modifies this
      ensures ok <==> rid !in old(responses) && sid in old(surveys) && budget >= |rows| + 2
      ensures View() == if ok then SubmissionSaved(old(View()), rid, sid, version, raw, rows) else old(View())
    {
      var responses0, answerRows0 := responses, answerRows;
      if budget < 1 || rid in responses || sid !in surveys {
        return false;
      }
      responses := responses[rid := Response(sid, version, raw)];
      for i := 0 to |rows|
        invariant budget >= i + 1
        invariant surveys == old(surveys) && versions == old(versions)
        invariant responses == old(responses)[rid := Response(sid, version, raw)]
        invariant answerRows == old(answerRows) + EncodeRows(rid, sid, version, rows[..i])
      {
        if budget < i + 2 {
          responses, answerRows := responses0, answerRows0;
          return false;
        }
        var subId: Option<string> := None;
        if rows[i].subId != "" {
          subId := Some(rows[i].subId);
        }
        var valueText: Option<string>, valueNum: Option<real> := None, None;
        match rows[i].value {
          case Number(n) => valueNum := Some(n);
          case Text(t) => valueText := Some(t);
        }
        answerRows := answerRows + [AnswerRow(rid, sid, version, rows[i].qid, subId, valueText, valueNum)];
        assert EncodeRows(rid, sid, version, rows[..i + 1]) ==
               EncodeRows(rid, sid, version, rows[..i]) + [EncodeRow(rid, sid, version, rows[i])];
      }
      assert rows[..|rows|] == rows;
      if budget < |rows| + 2 {
        responses, answerRows := responses0, answerRows0;
        return false;
      }
      return true;
    }
  }
}
