/** The create-bearer procedure inside a run: whatever other steps come between the request, the
    answers of NAS and the response. */
module CreateBearerRuns {
  import opened Common
  import opened UeModel
  import opened Registry
  import opened Handlers
  import opened Invariant
  import opened HandlerProofs
  import opened Runs
  import opened StepFrames
  import opened CreateBearerFanIn
  import opened CreateBearerResponses
  import B = Bearers
  import BP = BearerProofs

  // ---------------------------------------------------------------- what belongs to one procedure

  /** The answer NAS gives about context id in one step, if any. */
  function AnswerIn(e: Event, id: UeId): (as': seq<NasAnswer>) {
    if e.EvDedicatedAnswer? && e.id == id then [NasAnswer(e.ebi, e.success)] else []
  }

  /** The answers NAS gives about context id in the steps from i up to k. */
  function AnswersTo(events: seq<Event>, i: nat, k: nat, id: UeId): (as': seq<NasAnswer>)
    requires i <= k <= |events|
  {
    if k == i then [] else AnswersTo(events, i, k - 1, id) + AnswerIn(events[k - 1], id)
  }

  lemma {:induction false} AnswersPrefix(events: seq<Event>, i: nat, k: nat, j: nat, id: UeId)
    requires i <= k <= j <= |events|
    ensures AnswersTo(events, i, k, id) <= AnswersTo(events, i, j, id)
  {
    if k < j {
      AnswersPrefix(events, i, k, j - 1, id);
    }
  }

  /** Another create-bearer request for the context, or the end of its S1 connection. */
  ghost predicate Interferes(m: Mme, e: Event, id: UeId) {
    (e.EvReleaseComplete? && e.id == id) || (e.EvCreateBearerReq? && Target(m, e) == id)
  }

  /** From state i to state j the context stays, and no step interferes with its procedure. */
  ghost predicate Undisturbed(states: seq<Mme>, events: seq<Event>, i: nat, j: nat, id: UeId)
    requires i <= j < |states| == |events| + 1
  {
    && (forall k :: i <= k <= j ==> id in states[k].ues)
    && (forall k :: i <= k < j ==> !Interferes(states[k], events[k], id))
  }

  /** The procedure p after the first n answers: open until as many have come as it announced. */
  ghost predicate ProcAfter(t: B.Tables, p: B.Proc, rest: seq<B.Proc>, answers: seq<NasAnswer>, n: nat)
    requires DistinctAnswers(p, answers) && n <= |answers|
  {
    Backed(t, p) && t.procs == (if n < p.numBearers then [After(p, answers, n)] else []) + rest
  }

  /** Nothing has been answered yet, and not more is outstanding than was announced. */
  ghost predicate Fresh(p: B.Proc) {
    p.numReceived == Decideds(p.status) == 0 && p.numBearers >= Pendings(p.status) && p.numBearers > 0
  }

  lemma GrowsKeepsProc(t: B.Tables, t': B.Tables, p: B.Proc, rest: seq<B.Proc>, answers: seq<NasAnswer>, n: nat)
    requires DistinctAnswers(p, answers) && n <= |answers| && ProcAfter(t, p, rest, answers, n) && Grows(t, t')
    ensures ProcAfter(t', p, rest, answers, n)
  {
    hide After, DistinctAnswers;
  }

  // ---------------------------------------------------------------- one step

  /** A step that is neither an answer for the context nor interferes leaves its procedure as it is. */
  lemma OtherStepKeepsProc(m: Mme, e: Event, id: UeId, p: B.Proc, rest: seq<B.Proc>, answers: seq<NasAnswer>, n: nat)
    requires IdsOk(m.ues) && TablesSized(m) && Step(m, e).Done? && id in m.ues && id in Step(m, e).mme.ues
    requires !Interferes(m, e, id) && AnswerIn(e, id) == []
    requires DistinctAnswers(p, answers) && n <= |answers| && ProcAfter(m.ues[id].tables, p, rest, answers, n)
    ensures ProcAfter(Step(m, e).mme.ues[id].tables, p, rest, answers, n)
  {
    var m' := Step(m, e).mme;
    StepTouchesOnlyTarget(m, e);
    hide Step, TablesSized, IdsOk, ProcAfter, DistinctAnswers;
    if Target(m, e) == id {
      assert !ProcedureStep(e);
      hide Target, Grows;
      GrowsKeepsProc(m.ues[id].tables, m'.ues[id].tables, p, rest, answers, n);
    }
  }

  /** The response that goes out with the last answer announced. */
  ghost predicate Responds(m: Mme, m': Mme, id: UeId, p: B.Proc)
    requires id in m.ues
  {
    exists r: B.Response ::
      && m'.sent == m.sent + [CreateBearerRsp(m.ues[id].teid, r)]
      && r.count == p.numBearers
      && r.trxn == Some(p.trxn)
  }

  lemma AnswerStepOf(t: B.Tables, p: B.Proc, rest: seq<B.Proc>, answers: seq<NasAnswer>, n: nat)
    requires B.CrossLinked(t) && Fresh(p) && DistinctAnswers(p, answers) && n < |answers| && ProcAfter(t, p, rest, answers, n)
    ensures n < p.numBearers
    ensures B.Answer(t, answers[n].ebi, answers[n].success).Some?
    ensures var a := B.Answer(t, answers[n].ebi, answers[n].success).value;
            && ProcAfter(a.t, p, rest, answers, n + 1)
            && (n + 1 < p.numBearers ==> a.sent == None)
            && (n + 1 == p.numBearers ==> a.sent.Some? && a.sent.value.count == p.numBearers && a.sent.value.trxn == Some(p.trxn))
  {
    hide B.CrossLinked, Count, B.Answer, B.Respond, Answerable;
    BackedIsAnswerable(t, p);
    AnswerableAfter(t, p, answers, n);
    AnswerableAfter(t, p, answers, n + 1);
    assert t == t.(procs := [After(p, answers, n)] + rest);
    AnswerStep(t, After(p, answers, n), After(p, answers, n + 1), rest, answers[n]);
  }

  lemma AnswerKeepsProc(m: Mme, id: UeId, p: B.Proc, rest: seq<B.Proc>, answers: seq<NasAnswer>, n: nat, w: Watch)
    requires Inv(m, w) && TablesSized(m) && id in m.ues
    requires Fresh(p) && DistinctAnswers(p, answers) && n < |answers| && ProcAfter(m.ues[id].tables, p, rest, answers, n)
    ensures n < p.numBearers
    ensures DedicatedAnswer(m, id, answers[n].ebi, answers[n].success).Done?
    ensures var m' := DedicatedAnswer(m, id, answers[n].ebi, answers[n].success).mme;
            && id in m'.ues
            && ProcAfter(m'.ues[id].tables, p, rest, answers, n + 1)
            && (n + 1 < p.numBearers ==> m'.sent == m.sent)
            && (n + 1 == p.numBearers ==> Responds(m, m', id, p))
  {
    hide Inv, TablesSized, B.Answer, ProcAfter, DistinctAnswers, Fresh, B.TablesOk;
    InvUe(m, id, w);
    Linked(m.ues[id].tables);
    AnswerStepOf(m.ues[id].tables, p, rest, answers, n);
    var a := B.Answer(m.ues[id].tables, answers[n].ebi, answers[n].success).value;
    var m' := DedicatedAnswer(m, id, answers[n].ebi, answers[n].success).mme;
    assert m'.ues[id].tables == a.t;
    if n + 1 == p.numBearers {
      assert m'.sent == m.sent + [CreateBearerRsp(m.ues[id].teid, a.sent.value)];
    }
  }

  // ---------------------------------------------------------------- runs

  /** From a state with a fresh procedure on, through any steps that do not interfere, the procedure is
      what the answers so far make of it. */
  lemma {:induction false} RunProcAfter(periodicTau: bool, states: seq<Mme>, events: seq<Event>, i: nat, j: nat, k: nat,
                                        id: UeId, p: B.Proc, rest: seq<B.Proc>)
    requires IsRun(periodicTau, states, events) && i <= k <= j < |states| && Undisturbed(states, events, i, j, id)
    requires states[i].ues[id].tables.procs == [p] + rest && Backed(states[i].ues[id].tables, p) && Fresh(p)
    requires DistinctAnswers(p, AnswersTo(events, i, j, id))
    ensures |AnswersTo(events, i, k, id)| <= |AnswersTo(events, i, j, id)|
    ensures id in states[k].ues
    ensures ProcAfter(states[k].ues[id].tables, p, rest, AnswersTo(events, i, j, id), |AnswersTo(events, i, k, id)|)
  {
    hide Step, TablesSized, Admissible, Start, DistinctAnswers, Interferes, ProcAfter, Fresh, Backed;
    AnswersPrefix(events, i, k, j, id);
    if k == i {
      FreshProc(states[i].ues[id].tables, p, rest, AnswersTo(events, i, j, id));
    } else {
      RunProcAfter(periodicTau, states, events, i, j, k - 1, id, p, rest);
      RunProcStep(periodicTau, states, events, i, j, k - 1, id, p, rest);
    }
  }

  lemma FreshProc(t: B.Tables, p: B.Proc, rest: seq<B.Proc>, answers: seq<NasAnswer>)
    requires t.procs == [p] + rest && Backed(t, p) && Fresh(p) && DistinctAnswers(p, answers)
    ensures ProcAfter(t, p, rest, answers, 0)
  {
    hide Count;
  }

  /** The step from state k, which answers for the context or does something else. */
  lemma RunProcStep(periodicTau: bool, states: seq<Mme>, events: seq<Event>, i: nat, j: nat, k: nat,
                    id: UeId, p: B.Proc, rest: seq<B.Proc>)
    requires IsRun(periodicTau, states, events) && i <= k < j < |states| && Undisturbed(states, events, i, j, id) && Fresh(p)
    requires DistinctAnswers(p, AnswersTo(events, i, j, id)) && id in states[k].ues
    requires |AnswersTo(events, i, k, id)| <= |AnswersTo(events, i, j, id)|
    requires ProcAfter(states[k].ues[id].tables, p, rest, AnswersTo(events, i, j, id), |AnswersTo(events, i, k, id)|)
    ensures |AnswersTo(events, i, k + 1, id)| <= |AnswersTo(events, i, j, id)| && id in states[k + 1].ues
    ensures ProcAfter(states[k + 1].ues[id].tables, p, rest, AnswersTo(events, i, j, id), |AnswersTo(events, i, k + 1, id)|)
    ensures AnswerIn(events[k], id) != [] ==>
              var n := |AnswersTo(events, i, k + 1, id)|;
              && n <= p.numBearers
              && (n < p.numBearers ==> states[k + 1].sent == states[k].sent)
              && (n == p.numBearers ==> Responds(states[k], states[k + 1], id, p))
  {
    hide TablesSized, Admissible, Start, DistinctAnswers, Interferes, ProcAfter, Inv, Fresh, Responds, DedicatedAnswer, Step;
    var answers, n := AnswersTo(events, i, j, id), |AnswersTo(events, i, k, id)|;
    AnswersPrefix(events, i, k + 1, j, id);
    RunStep(periodicTau, states, events, k);
    RunInv(periodicTau, states, events, k);
    assert AnswersTo(events, i, k + 1, id) == AnswersTo(events, i, k, id) + AnswerIn(events[k], id);
    if AnswerIn(events[k], id) == [] {
      InvIds(states[k], NOTHING);
      OtherStepKeepsProc(states[k], events[k], id, p, rest, answers, n);
    } else {
      assert answers[n] == NasAnswer(events[k].ebi, events[k].success);
      AnswerEvent(states[k], events[k]);
      AnswerKeepsProc(states[k], id, p, rest, answers, n, NOTHING);
    }
  }

  lemma AnswerEvent(m: Mme, e: Event)
    requires TablesSized(m) && e.EvDedicatedAnswer?
    ensures Step(m, e) == DedicatedAnswer(m, e.id, e.ebi, e.success)
  {
    hide DedicatedAnswer;
  }

  lemma InvIds(m: Mme, w: Watch)
    requires Inv(m, w)
    ensures IdsOk(m.ues)
  {
    hide Indexed, Covered;
  }

  /** A create-bearer request that reaches the context u and names a bearer of its PDN connection cid. */
  ghost predicate Requests(m: Mme, e: Event, u: Ue, cid: int)
    requires TablesSized(m)
  {
    && e.EvCreateBearerReq?
    && LookupTeid(m, e.teid) == Some(u)
    && B.GetBearer(u.tables, e.ebi).Some?
    && B.GetBearer(u.tables, e.ebi).value.pdnCxId == cid
    && e.requests != []
  }

  /** The newest procedure of a context. */
  function Newest(t: B.Tables): (p: B.Proc) { if t.procs == [] then B.NewProc(0) else t.procs[0] }

  lemma RequestOpens(m: Mme, teid: nat, ebi: nat, trxn: nat, ms: seq<B.BearerRequest>, u: Ue, cid: nat, w: Watch)
    requires Inv(m, w) && TablesSized(m) && LookupTeid(m, teid) == Some(u) && CreateBearerReq(m, teid, ebi, trxn, ms).Done?
    requires B.TablesOk(u.tables) && B.GetBearer(u.tables, ebi).Some? && B.GetBearer(u.tables, ebi).value.pdnCxId == cid
    requires cid < B.MAX_APN_PER_UE && u.tables.pdns[cid].Some? && B.WellSized(B.StartProc(u.tables, trxn))
    ensures B.RequestBearers(B.StartProc(u.tables, trxn), cid, ms, |ms|).Some?
    ensures u.id in CreateBearerReq(m, teid, ebi, trxn, ms).mme.ues
    ensures CreateBearerReq(m, teid, ebi, trxn, ms).mme.ues[u.id].tables == B.RequestBearers(B.StartProc(u.tables, trxn), cid, ms, |ms|).value
  {
    hide Inv, TablesSized, B.RequestBearers, DedicatedReqs, B.TablesOk, B.StartProc, B.WellSized, B.GetBearer;
  }

  lemma RequestStep(m: Mme, e: Event)
    requires TablesSized(m) && e.EvCreateBearerReq?
    ensures Step(m, e) == CreateBearerReq(m, e.teid, e.ebi, e.trxn, e.requests)
  {
    hide CreateBearerReq;
  }

  /** The tables of the context once a request has been taken in. */
  lemma RunRequestOpens(periodicTau: bool, states: seq<Mme>, events: seq<Event>, i: nat, u: Ue, cid: int)
    requires IsRun(periodicTau, states, events) && i < |events| && Requests(states[i], events[i], u, cid)
    ensures 0 <= cid < B.MAX_APN_PER_UE && B.WellSized(B.StartProc(u.tables, events[i].trxn))
    ensures var t0, ms := B.StartProc(u.tables, events[i].trxn), events[i].requests;
            && B.RequestBearers(t0, cid, ms, |ms|).Some?
            && u.id in states[i + 1].ues
            && states[i + 1].ues[u.id].tables == B.RequestBearers(t0, cid, ms, |ms|).value
            && var p := Newest(states[i + 1].ues[u.id].tables);
            && states[i + 1].ues[u.id].tables.procs == [p] + u.tables.procs
            && Backed(states[i + 1].ues[u.id].tables, p)
            && Fresh(p) && p.trxn == events[i].trxn && p.numBearers == |ms|
            && (Pendings(p.status) == |ms| <==> NoDuplicates(Resolved(t0, cid, ms, |ms|)))
  {
    hide TablesSized, Admissible, Start, Step, Inv, NoDuplicates, Resolved, B.RequestBearers, CreateBearerReq;
    hide B.TablesOk, B.StartProc, Backed, Answerable, Count, B.CrossLinked, B.WellSized, B.GetBearer;
    RunStep(periodicTau, states, events, i);
    RunInv(periodicTau, states, events, i);
    var e := events[i];
    RequestStep(states[i], e);
    InvUe(states[i], states[i].byTeid[e.teid], NOTHING);
    Linked(u.tables);
    BP.BearerHasPdn(u.tables, e.ebi);
    BP.StartSized(u.tables, e.trxn);
    RequestOpens(states[i], e.teid, e.ebi, e.trxn, e.requests, u, cid, NOTHING);
    FannedIsAnswerable(u.tables, cid, e.trxn, e.requests);
  }

  // ---------------------------------------------------------------- responses

  /** How many of the steps from i up to k are E-RAB setup responses due for the context. */
  ghost function DueErabs(states: seq<Mme>, events: seq<Event>, i: nat, k: nat, id: UeId): (n: nat)
    requires i <= k <= |events| <= |states| && forall l :: 0 <= l < |states| ==> TablesSized(states[l])
  {
    if k == i then 0
    else DueErabs(states, events, i, k - 1, id) + (if DueIn(states[k - 1], events[k - 1]) && events[k - 1].id == id then 1 else 0)
  }

  /** Of the responses one answers the procedure, once the last of n answers has come, and all others
      carry no transaction. */
  ghost predicate Tally(rs: seq<B.Response>, p: B.Proc, n: nat, due: nat) {
    && |rs| == due + (if n == p.numBearers then 1 else 0)
    && (forall q :: 0 <= q < |rs| ==> rs[q].trxn == None || (rs[q].trxn == Some(p.trxn) && rs[q].count == p.numBearers))
    && ((exists q :: 0 <= q < |rs| && rs[q].trxn == Some(p.trxn)) <==> n == p.numBearers)
  }

  lemma TallyAnswer(rs: seq<B.Response>, more: seq<B.Response>, p: B.Proc, n: nat, due: nat)
    requires Tally(rs, p, n, due) && n < p.numBearers
    requires n + 1 < p.numBearers ==> more == []
    requires n + 1 == p.numBearers ==> |more| == 1 && more[0].trxn == Some(p.trxn) && more[0].count == p.numBearers
    ensures Tally(rs + more, p, n + 1, due)
  {
    if n + 1 == p.numBearers {
      assert (rs + more)[|rs|] == more[0];
    } else {
      assert rs + more == rs;
    }
  }

  lemma TallyErab(rs: seq<B.Response>, more: seq<B.Response>, p: B.Proc, n: nat, due: nat)
    requires Tally(rs, p, n, due) && |more| <= 1 && (more != [] ==> more[0].trxn == None)
    ensures Tally(rs + more, p, n, due + |more|)
  {
    forall q | 0 <= q < |rs| ensures (rs + more)[q] == rs[q] {}
    if n == p.numBearers {
      var q :| 0 <= q < |rs| && rs[q].trxn == Some(p.trxn);
      assert (rs + more)[q] == rs[q];
    }
  }

  /** A step that is no answer for the context. */
  lemma OtherResponds(m: Mme, e: Event, id: UeId)
    requires IdsOk(m.ues) && TablesSized(m) && Step(m, e).Done? && AnswerIn(e, id) == []
    ensures |ResponseTo(m, e, id)| == (if DueIn(m, e) && e.id == id then 1 else 0)
    ensures ResponseTo(m, e, id) != [] ==> ResponseTo(m, e, id)[0].trxn == None
  {
    OnlyAnswersAndErabsRespond(m, e);
    hide Step, TablesSized, Due, ResponseIn, Sends, IdsOk;
  }

  lemma LastResponds(m: Mme, e: Event, m': Mme, id: UeId, p: B.Proc)
    requires TablesSized(m) && AnswerIn(e, id) != [] && id in m.ues && Sends(m, e, m')
    ensures m'.sent == m.sent ==> ResponseTo(m, e, id) == []
    ensures Responds(m, m', id, p) ==>
              |ResponseTo(m, e, id)| == 1 && ResponseTo(m, e, id)[0].trxn == Some(p.trxn) && ResponseTo(m, e, id)[0].count == p.numBearers
  {
    hide TablesSized, ResponseIn;
    if Responds(m, m', id, p) {
      var r: B.Response :|
        && m'.sent == m.sent + [CreateBearerRsp(m.ues[id].teid, r)]
        && r.count == p.numBearers
        && r.trxn == Some(p.trxn);
      assert m'.sent[|m.sent|] == CreateBearerRsp(m.ues[id].teid, r);
    }
  }

  lemma {:induction false} RunTally(periodicTau: bool, states: seq<Mme>, events: seq<Event>, i: nat, j: nat, k: nat,
                                    id: UeId, p: B.Proc, rest: seq<B.Proc>)
    requires IsRun(periodicTau, states, events) && i <= k <= j < |states| && Undisturbed(states, events, i, j, id)
    requires states[i].ues[id].tables.procs == [p] + rest && Backed(states[i].ues[id].tables, p) && Fresh(p)
    requires DistinctAnswers(p, AnswersTo(events, i, j, id))
    ensures Tally(ResponsesTo(states, events, i, k, id), p, |AnswersTo(events, i, k, id)|, DueErabs(states, events, i, k, id))
  {
    hide Step, TablesSized, Admissible, Start, DistinctAnswers, Interferes, ProcAfter, Tally, ResponseTo, DueIn, Inv, Responds, IdsOk, Fresh, Backed;
    if k == i {
      NoneYet(p);
    } else {
      RunTally(periodicTau, states, events, i, j, k - 1, id, p, rest);
      RunTallyStep(periodicTau, states, events, i, j, k - 1, id, p, rest);
      hide Undisturbed;
      StepTally(ResponsesTo(states, events, i, k - 1, id), states[k - 1], events[k - 1], states[k], id, p,
                |AnswersTo(events, i, k - 1, id)|, DueErabs(states, events, i, k - 1, id));
    }
  }

  /** What the step from state k does to the count. */
  lemma RunTallyStep(periodicTau: bool, states: seq<Mme>, events: seq<Event>, i: nat, j: nat, k: nat,
                     id: UeId, p: B.Proc, rest: seq<B.Proc>)
    requires IsRun(periodicTau, states, events) && i <= k < j < |states| && Undisturbed(states, events, i, j, id)
    requires states[i].ues[id].tables.procs == [p] + rest && Backed(states[i].ues[id].tables, p) && Fresh(p)
    requires DistinctAnswers(p, AnswersTo(events, i, j, id))
    ensures IdsOk(states[k].ues) && TablesSized(states[k]) && Step(states[k], events[k]) == Done(states[k + 1]) && id in states[k].ues
    ensures var n := |AnswersTo(events, i, k, id)|;
            AnswerIn(events[k], id) != [] ==>
              && n < p.numBearers
              && (n + 1 < p.numBearers ==> states[k + 1].sent == states[k].sent)
              && (n + 1 == p.numBearers ==> Responds(states[k], states[k + 1], id, p))
  {
    hide Step, TablesSized, Admissible, Start, DistinctAnswers, Interferes, ProcAfter, Inv, Responds, IdsOk, Fresh, Backed;
    RunProcAfter(periodicTau, states, events, i, j, k, id, p, rest);
    RunProcStep(periodicTau, states, events, i, j, k, id, p, rest);
    RunStep(periodicTau, states, events, k);
    RunInv(periodicTau, states, events, k);
    InvIds(states[k], NOTHING);
  }

  /** One step of the count. */
  lemma StepTally(rs: seq<B.Response>, m: Mme, e: Event, m': Mme, id: UeId, p: B.Proc, n: nat, due: nat)
    requires IdsOk(m.ues) && TablesSized(m) && Step(m, e) == Done(m') && id in m.ues && Tally(rs, p, n, due)
    requires AnswerIn(e, id) != [] ==>
               n < p.numBearers && (n + 1 < p.numBearers ==> m'.sent == m.sent) && (n + 1 == p.numBearers ==> Responds(m, m', id, p))
    ensures Tally(rs + ResponseTo(m, e, id), p, n + |AnswerIn(e, id)|, due + if DueIn(m, e) && e.id == id then 1 else 0)
  {
    hide Step, TablesSized, Tally, ResponseTo, DueIn, Responds, IdsOk;
    if AnswerIn(e, id) == [] {
      OtherResponds(m, e, id);
      TallyErab(rs, ResponseTo(m, e, id), p, n, due);
    } else {
      StepSends(m, e);
      LastResponds(m, e, m', id, p);
      AnswerNotDue(m, e);
      TallyAnswer(rs, ResponseTo(m, e, id), p, n, due);
    }
  }

  lemma AnswerNotDue(m: Mme, e: Event)
    requires TablesSized(m) && e.EvDedicatedAnswer?
    ensures !DueIn(m, e)
  {
  }

  lemma NoneYet(p: B.Proc)
    requires Fresh(p)
    ensures Tally([], p, 0, 0)
  {
    hide Count;
  }

  /** The only response, and it answers the transaction. */
  ghost predicate OnceFor(rs: seq<B.Response>, trxn: nat) {
    |rs| == 1 && rs[0].trxn == Some(trxn)
  }

  lemma TallyOnce(rs: seq<B.Response>, p: B.Proc, n: nat, due: nat)
    requires Tally(rs, p, n, due)
    ensures OnceFor(rs, p.trxn) <==> n == p.numBearers && due == 0
  {
  }

  /** The whole exchange inside a run. A request reaches a context; whatever steps follow, as long as
      the context stays, no other request reaches it and its S1 connection does not end, the answers of
      NAS send nothing until as many have come as there were bearers in the request. That one sends one
      response, with the transaction of the request. The other create-bearer responses sent about the
      context carry none and come one from each E-RAB setup response that is due. So when every
      outstanding bearer has been answered, exactly one response has been sent, and it answers the
      request, if and only if no two bearers were given the same EBI and no E-RAB setup response was due.
      If the context keeps its tunnel, these are the create-bearer responses on that tunnel. */
  lemma RunRequestAnsweredOnce(periodicTau: bool, states: seq<Mme>, events: seq<Event>, i: nat, j: nat, u: Ue, cid: int)
    requires IsRun(periodicTau, states, events) && i < j < |states| && Requests(states[i], events[i], u, cid)
    requires Undisturbed(states, events, i + 1, j, u.id)
    requires DistinctAnswers(Newest(states[i + 1].ues[u.id].tables), AnswersTo(events, i + 1, j, u.id))
    ensures 0 <= cid < B.MAX_APN_PER_UE && B.WellSized(B.StartProc(u.tables, events[i].trxn))
    ensures B.RequestBearers(B.StartProc(u.tables, events[i].trxn), cid, events[i].requests, |events[i].requests|).Some?
    ensures var p, ms := Newest(states[i + 1].ues[u.id].tables), events[i].requests;
            && p.numBearers == |ms| && p.trxn == events[i].trxn
            && (forall k :: i < k < j && AnswerIn(events[k], u.id) != [] ==>
                  && u.id in states[k].ues
                  && (|AnswersTo(events, i + 1, k + 1, u.id)| < |ms| ==> states[k + 1].sent == states[k].sent)
                  && (|AnswersTo(events, i + 1, k + 1, u.id)| == |ms| ==> Responds(states[k], states[k + 1], u.id, p)))
            && |AnswersTo(events, i + 1, j, u.id)| <= |ms|
            && var rs := ResponsesTo(states, events, i + 1, j, u.id);
            && Tally(rs, p, |AnswersTo(events, i + 1, j, u.id)|, DueErabs(states, events, i + 1, j, u.id))
            && (OneAnswerEach(p, AnswersTo(events, i + 1, j, u.id)) ==>
                  (OnceFor(rs, events[i].trxn) <==>
                   && NoDuplicates(Resolved(B.StartProc(u.tables, events[i].trxn), cid, ms, |ms|))
                   && DueErabs(states, events, i + 1, j, u.id) == 0))
            && (KeepsTunnel(states, i + 1, j, u.id, u.teid) ==>
                  && states[i + 1].sent <= states[j].sent
                  && OnTunnel(states[j].sent[|states[i + 1].sent|..], u.teid) == rs)
  {
    hide TablesSized, Admissible, Start, Step, Inv, DistinctAnswers, Undisturbed, Responds, NoDuplicates, Resolved, B.RequestBearers;
    hide B.TablesOk, B.StartProc, Backed, Answerable, Count, ProcAfter, Requests, Newest, Tally, OnceFor, ResponsesTo, DueErabs;
    hide KeepsTunnel, OnTunnel;
    RunRequestOpens(periodicTau, states, events, i, u, cid);
    var p := Newest(states[i + 1].ues[u.id].tables);
    forall k | i < k < j
      ensures u.id in states[k].ues
      ensures AnswerIn(events[k], u.id) != [] ==>
                && (|AnswersTo(events, i + 1, k + 1, u.id)| < p.numBearers ==> states[k + 1].sent == states[k].sent)
                && (|AnswersTo(events, i + 1, k + 1, u.id)| == p.numBearers ==> Responds(states[k], states[k + 1], u.id, p))
    {
      RunProcAfter(periodicTau, states, events, i + 1, j, k, u.id, p, u.tables.procs);
      RunProcStep(periodicTau, states, events, i + 1, j, k, u.id, p, u.tables.procs);
    }
    AnswersFit(p, AnswersTo(events, i + 1, j, u.id));
    RunTally(periodicTau, states, events, i + 1, j, j, u.id, p, u.tables.procs);
    TallyOnce(ResponsesTo(states, events, i + 1, j, u.id), p, |AnswersTo(events, i + 1, j, u.id)|, DueErabs(states, events, i + 1, j, u.id));
    if KeepsTunnel(states, i + 1, j, u.id, u.teid) {
      RunTunnel(periodicTau, states, events, i + 1, j, u.id, u.teid);
    }
  }

  lemma AnswersFit(p: B.Proc, answers: seq<NasAnswer>)
    requires DistinctAnswers(p, answers)
    ensures |answers| <= Pendings(p.status)
  {
    hide Count;
    AfterCounts(p, answers, |answers|);
  }
}
