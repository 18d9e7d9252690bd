/** Runs that show what the conditions of the run theorems shut out. */
module ExampleRuns {
  import opened Common
  import opened UeModel
  import opened Registry
  import opened Handlers
  import opened Invariant
  import opened HandlerProofs
  import opened Runs
  import opened Confluence
  import opened CreateBearerFanIn
  import opened CreateBearerResponses
  import opened CreateBearerRuns
  import EnbKey
  import B = Bearers

  // ---------------------------------------------------------------- building runs

  lemma Steps(m: Mme, e: Event)
    requires TablesSized(m)
    ensures e.EvInitialUe? ==> Step(m, e) == InitialUe(m, e.enbId, e.enbUeId, e.served)
    ensures e.EvSetImsi? ==> Step(m, e) == Done(SetValidImsi(m, e.id, e.imsi))
    ensures e.EvClearIdentities? ==> Step(m, e) == Done(ClearIdentities(m, e.id))
    ensures e.EvNewGuti? ==> Step(m, e) == Done(NewGuti(m, e.id, e.guti))
    ensures e.EvPdnCreated? ==> Step(m, e) == PdnCreated(m, e.id, e.cid, e.apn)
    ensures e.EvBearerCreated? ==> Step(m, e) == BearerCreated(m, e.id, e.cid, e.ebi, e.isDefault, e.qci)
    ensures e.EvPdnConnectivity? ==> Step(m, e) == PdnConnectivity(m, e.imsi, e.cid, e.teid)
    ensures e.EvErabSetupRsp? ==> Step(m, e) == ErabSetupRsp(m, e.id, e.ups, e.downs)
    ensures e.EvReleaseComplete? ==> Step(m, e) == Done(ReleaseComplete(m, e.id, e.setup))
    ensures e.EvDetachReq? ==> Step(m, e) == Done(DetachReq(m, e.id, e.setup))
  {
    hide InitialUe, SetValidImsi, ClearIdentities, NewGuti, PdnCreated, BearerCreated, PdnConnectivity, ErabSetupRsp;
    hide ReleaseComplete, DetachReq;
  }

  /** A run goes on with any admissible step that does not end the process. */
  lemma Extend(periodicTau: bool, states: seq<Mme>, events: seq<Event>, e: Event) returns (states': seq<Mme>, events': seq<Event>)
    requires IsRun(periodicTau, states, events)
    requires Admissible(states[|events|], e) && Step(states[|events|], e).Done?
    ensures IsRun(periodicTau, states', events') && states' == states + [Step(states[|events|], e).mme] && events' == events + [e]
  {
    hide Step, Admissible, TablesSized, Start, Inv;
    var m := states[|events|];
    RunInv(periodicTau, states, events, |events|);
    StepKeeps(m, e, NOTHING);
    InvSized(Step(m, e).mme, NOTHING);
    RunExtends(periodicTau, states, events, e, Step(m, e).mme);
    states', events' := states + [Step(m, e).mme], events + [e];
  }

  // ---------------------------------------------------------------- an attached UE

  /** The context 1 of a UE that has just attached. */
  function Newcomer(): (u: Ue) { NewUe(0, 1).(enbUeId := 1, enbKey := EnbKey.Pack(1, 1)) }

  /** The state with that context alone and no timer. */
  ghost predicate Alone(m: Mme, u: Ue, periodicTau: bool) {
    m.ues == map[1 := u] && u.id == 1 && m.armed == {} && m.periodicTau == periodicTau
  }

  lemma AttachStep(periodicTau: bool)
    ensures var r := InitialUe(Start(periodicTau), 1, 1, None);
            r.Done? && Alone(r.mme, Newcomer(), periodicTau) && r.mme.byImsi == map[] && r.mme.byGuti == map[CLEARED_GUTI := 1]
  {
    hide B.EmptyTables, EnbKey.Pack;
  }

  lemma AttachRun(periodicTau: bool) returns (states: seq<Mme>, events: seq<Event>)
    ensures IsRun(periodicTau, states, events) && events == [EvInitialUe(1, 1, None)]
    ensures Alone(states[1], Newcomer(), periodicTau) && states[1].byImsi == map[] && states[1].byGuti == map[CLEARED_GUTI := 1]
  {
    hide Step, TablesSized, Newcomer, InitialUe, Alone;
    RunStarts(periodicTau);
    Steps(Start(periodicTau), EvInitialUe(1, 1, None));
    AttachStep(periodicTau);
    states, events := Extend(periodicTau, [Start(periodicTau)], [], EvInitialUe(1, 1, None));
  }

  lemma SetImsiStep(m: Mme, u: Ue, periodicTau: bool)
    requires Alone(m, u, periodicTau) && m.byImsi == map[]
    ensures var m' := SetValidImsi(m, 1, 7); Alone(m', u.(imsi := 7), periodicTau) && m'.byImsi == map[7 := 1]
    ensures Admissible(m, EvSetImsi(1, 7))
  {
  }

  lemma ImsiRun(periodicTau: bool) returns (states: seq<Mme>, events: seq<Event>)
    ensures IsRun(periodicTau, states, events) && |events| == 2
    ensures Alone(states[2], Newcomer().(imsi := 7), periodicTau) && states[2].byImsi == map[7 := 1]
  {
    hide Step, TablesSized, Newcomer, SetValidImsi, Alone, Admissible, Start;
    states, events := AttachRun(periodicTau);
    Steps(states[1], EvSetImsi(1, 7));
    SetImsiStep(states[1], Newcomer(), periodicTau);
    states, events := Extend(periodicTau, states, events, EvSetImsi(1, 7));
  }

  // ---------------------------------------------------------------- stale entries

  lemma ClearStep(m: Mme, u: Ue, periodicTau: bool)
    requires Alone(m, u, periodicTau) && m.byImsi == map[7 := 1] && u.guti == CLEARED_GUTI
    ensures var m' := ClearIdentities(m, 1);
            Alone(m', u.(imsi := INVALID_IMSI), periodicTau) && m'.byImsi == map[7 := 1] && LookupImsi(m', 7) == Some(u.(imsi := INVALID_IMSI))
  {
  }

  lemma DetachStep(m: Mme, u: Ue, periodicTau: bool)
    requires TablesSized(m) && Alone(m, u, periodicTau) && m.byImsi == map[7 := 1] && u.imsi == INVALID_IMSI
    requires u.teid == NO_TEID && u.activePdns == 0 && u.ecm == Idle
    ensures var m' := DetachReq(m, 1, TimerSetup.Failed); m'.ues == map[] && Leads(m'.byImsi, 7, 1)
  {
    hide TablesSized;
  }

  /** A run that leaves IMSI 7 behind: the UE attaches, gets its IMSI, and NAS clears it before the
      detach request removes the context. First 7 leads to a context without IMSI, then to none. */
  lemma StaleImsiExample() returns (states: seq<Mme>, events: seq<Event>)
    ensures IsRun(false, states, events) && |states| == 5
    ensures LookupImsi(states[3], 7).Some? && LookupImsi(states[3], 7).value.imsi == INVALID_IMSI
    ensures states[4].ues == map[] && Leads(states[4].byImsi, 7, 1)
  {
    hide Step, TablesSized, EnbKey.Pack, B.EmptyTables, ClearIdentities, DetachReq, Alone, Start, LookupImsi;
    states, events := ImsiRun(false);
    var u := Newcomer().(imsi := 7);
    Steps(states[2], EvClearIdentities(1));
    ClearStep(states[2], u, false);
    states, events := Extend(false, states, events, EvClearIdentities(1));
    Steps(states[3], EvDetachReq(1, TimerSetup.Failed));
    DetachStep(states[3], u.(imsi := INVALID_IMSI), false);
    states, events := Extend(false, states, events, EvDetachReq(1, TimerSetup.Failed));
  }

  // ---------------------------------------------------------------- another MNC

  /** Two GUTIs that differ in the MNC only. */
  const FIRST_GUTI := Guti(CLEARED_GUTI.plmn, 1, 1, 1)
  const SECOND_GUTI := Guti(CLEARED_GUTI.plmn.(mnc3 := 1), 1, 1, 1)

  lemma FirstGutiStep(m: Mme, u: Ue)
    requires Alone(m, u, false) && m.byGuti == map[CLEARED_GUTI := 1] && u.guti == CLEARED_GUTI
    ensures var m' := NewGuti(m, 1, FIRST_GUTI);
            Alone(m', u.(guti := FIRST_GUTI), false) && m'.byGuti == map[FIRST_GUTI := 1]
  {
  }

  lemma SecondGutiStep(m: Mme, u: Ue)
    requires Alone(m, u, false) && m.byGuti == map[FIRST_GUTI := 1] && u.guti == FIRST_GUTI
    ensures var m' := NewGuti(m, 1, SECOND_GUTI);
            && Alone(m', u.(guti := SECOND_GUTI), false)
            && LookupGuti(m', SECOND_GUTI) == None
            && LookupGuti(m', FIRST_GUTI) == Some(u.(guti := SECOND_GUTI))
  {
  }

  /** A run in which a UE gets a GUTI and then the same with another MNC: it has the second one, and is
      found by the first one only. */
  lemma LostGutiExample() returns (states: seq<Mme>, events: seq<Event>)
    ensures IsRun(false, states, events) && |states| == 4
    ensures 1 in states[3].ues && states[3].ues[1].guti == SECOND_GUTI && ValidGuti(SECOND_GUTI)
    ensures LookupGuti(states[3], SECOND_GUTI) == None && LookupGuti(states[3], FIRST_GUTI) == Some(states[3].ues[1])
  {
    hide Step, TablesSized, EnbKey.Pack, B.EmptyTables, NewGuti, Start, LookupGuti;
    states, events := AttachRun(false);
    FirstGutiStep(states[1], Newcomer());
    Steps(states[1], EvNewGuti(1, FIRST_GUTI));
    states, events := Extend(false, states, events, EvNewGuti(1, FIRST_GUTI));
    SecondGutiStep(states[2], Newcomer().(guti := FIRST_GUTI));
    Steps(states[2], EvNewGuti(1, SECOND_GUTI));
    states, events := Extend(false, states, events, EvNewGuti(1, SECOND_GUTI));
  }

  // ---------------------------------------------------------------- a UE with a session

  /** PDN connection 0 with its default bearer 5, no bearer 6, and no procedure. */
  ghost predicate Ready(t: B.Tables) {
    && B.WellSized(t)
    && t.pdns[0].Some?
    && t.bearers[0].Some? && t.bearers[0].value.pdnCxId == 0
    && t.bearers[1].None?
    && t.procs == []
  }

  const EXAMPLE_APN := Some((0, B.Arp(0, 0, 0)))

  lemma SessionTables()
    ensures B.WellSized(B.EmptyTables())
    ensures var t1 := B.CreatePdn(B.EmptyTables(), 0, EXAMPLE_APN);
            && B.WellSized(t1)
            && var t2 := B.NasCreateBearer(t1, 0, 5, true, 9);
            && t2.Some? && B.WellSized(t2.value)
            && t2.value.pdns[0].Some?
            && var t3 := B.StartSession(t2.value, 0);
            && t3.Some? && Ready(t3.value)
  {
    var t1 := B.CreatePdn(B.EmptyTables(), 0, EXAMPLE_APN);
    assert t1.pdns[0].Some? && t1.bearers[0].None? && t1.bearers[1].None? && B.WellSized(t1);
    assert B.CanAdd(t1, 5, 0);
  }

  lemma PdnStep(m: Mme, u: Ue, periodicTau: bool)
    requires Alone(m, u, periodicTau) && m.byImsi == map[7 := 1] && u.imsi == 7 && u.tables == B.EmptyTables() && TablesSized(m)
    ensures var r1 := PdnCreated(m, 1, 0, EXAMPLE_APN);
            && r1.Done? && Alone(r1.mme, u.(tables := B.CreatePdn(u.tables, 0, EXAMPLE_APN)), periodicTau)
            && r1.mme.byImsi == map[7 := 1]
  {
    hide B.CreatePdn;
  }

  lemma BearerStep(m: Mme, u: Ue, periodicTau: bool, t: B.Tables)
    requires Alone(m, u, periodicTau) && m.byImsi == map[7 := 1] && TablesSized(m) && B.WellSized(u.tables)
    requires B.NasCreateBearer(u.tables, 0, 5, true, 9) == Some(t)
    ensures var r := BearerCreated(m, 1, 0, 5, true, 9);
            r.Done? && Alone(r.mme, u.(tables := t), periodicTau) && r.mme.byImsi == map[7 := 1]
  {
    hide B.NasCreateBearer, TablesSized;
  }

  lemma SessionStep(m: Mme, u: Ue, periodicTau: bool, t: B.Tables)
    requires Alone(m, u, periodicTau) && m.byImsi == map[7 := 1] && u.imsi == 7 && TablesSized(m) && B.WellSized(u.tables)
    requires u.tables.pdns[0].Some? && B.StartSession(u.tables, 0) == Some(t)
    ensures var r := PdnConnectivity(m, 7, 0, 9);
            r.Done? && Alone(r.mme, u.(tables := t, teid := 9), periodicTau) && LookupTeid(r.mme, 9) == Some(u.(tables := t, teid := 9))
    ensures Admissible(m, EvPdnConnectivity(7, 0, 9))
  {
    hide B.StartSession, TablesSized;
  }

  /** The UE has a session on tunnel 9. */
  ghost predicate InSession(m: Mme, u: Ue, periodicTau: bool) {
    && Alone(m, u, periodicTau)
    && LookupTeid(m, 9) == Some(u)
    && u == Newcomer().(imsi := 7, teid := 9, tables := u.tables)
    && Ready(u.tables)
  }

  lemma SessionRun(periodicTau: bool) returns (states: seq<Mme>, events: seq<Event>, u: Ue)
    ensures IsRun(periodicTau, states, events) && |events| == 5 && InSession(states[5], u, periodicTau)
  {
    hide Step, TablesSized, EnbKey.Pack, PdnCreated, BearerCreated, PdnConnectivity, Alone, Start, Admissible, Ready, LookupTeid;
    hide B.CreatePdn, B.NasCreateBearer, B.StartSession, B.EmptyTables, B.WellSized;
    states, events := ImsiRun(periodicTau);
    SessionTables();
    u := Newcomer().(imsi := 7);
    Steps(states[2], EvPdnCreated(1, 0, EXAMPLE_APN));
    PdnStep(states[2], u, periodicTau);
    Free(states[2], EvPdnCreated(1, 0, EXAMPLE_APN));
    states, events := Extend(periodicTau, states, events, EvPdnCreated(1, 0, EXAMPLE_APN));
    u := u.(tables := B.CreatePdn(u.tables, 0, EXAMPLE_APN));
    var t := B.NasCreateBearer(u.tables, 0, 5, true, 9).value;
    Steps(states[3], EvBearerCreated(1, 0, 5, true, 9));
    BearerStep(states[3], u, periodicTau, t);
    Free(states[3], EvBearerCreated(1, 0, 5, true, 9));
    states, events := Extend(periodicTau, states, events, EvBearerCreated(1, 0, 5, true, 9));
    u := u.(tables := t);
    t := B.StartSession(t, 0).value;
    Steps(states[4], EvPdnConnectivity(7, 0, 9));
    SessionStep(states[4], u, periodicTau, t);
    states, events := Extend(periodicTau, states, events, EvPdnConnectivity(7, 0, 9));
    u := u.(tables := t, teid := 9);
  }

  /** Steps that are always admissible. */
  lemma Free(m: Mme, e: Event)
    requires !e.EvInitialUe? && !e.EvSetImsi? && !e.EvPdnConnectivity? && !e.EvTimerExpired?
    ensures Admissible(m, e)
  {
  }

  // ---------------------------------------------------------------- a lost timer

  lemma GoesIdleStep(m: Mme, u: Ue)
    requires InSession(m, u, true) && TablesSized(m)
    ensures var m', v := ReleaseComplete(m, 1, Started(3)), ToIdle(u, true, Started(3));
            Live(m', v) && m'.armed == {3} && m'.periodicTau
  {
    hide DeleteSessions, EnbKey.Pack, B.EmptyTables, TablesSized;
    assert B.DeleteProc(u.tables) == u.tables;
  }

  /** A run that makes a UE with a session idle, with reachability timer 3 running. If of the two answers
      that end the connection the S1 answer comes first now, timer 3 keeps running after the context is
      gone. */
  lemma LostTimerExample() returns (states: seq<Mme>, events: seq<Event>, u: Ue)
    ensures IsRun(true, states, events) && |states| == 7
    ensures var m := states[6];
            && Inv(m, NOTHING) && Live(m, u) && u.mm == Unregistered && ValidTeid(u.teid) && FreshTimer(m, Started(4))
            && 3 !in DeleteThenRelease(m, u.teid, u.id, Started(4), NOTHING).armed
            && 3 in ReleaseThenDelete(m, u.teid, u.id, Started(4), NOTHING).armed
  {
    hide Step, TablesSized, ReleaseComplete, Start, Inv, DeleteThenRelease, ReleaseThenDelete, B.EmptyTables, EnbKey.Pack;
    states, events, u := SessionRun(true);
    Steps(states[5], EvReleaseComplete(1, Started(3)));
    GoesIdleStep(states[5], u);
    states, events := Extend(true, states, events, EvReleaseComplete(1, Started(3)));
    u := ToIdle(u, true, Started(3));
    RunInv(true, states, events, 6);
    EitherOrderRemoves(states[6], u, Started(4), NOTHING);
    assert LosesReachTimer(states[6], u);
  }

  // ---------------------------------------------------------------- two responses

  const EXAMPLE_REQUEST := [B.BearerRequest(6, 9, B.Arp(0, 0, 0), 20)]

  /** The tables once the request for bearer 6 has been taken in. */
  lemma RequestTables(t: B.Tables)
    requires Ready(t)
    ensures B.WellSized(B.StartProc(t, 7))
    ensures var r := B.RequestBearers(B.StartProc(t, 7), 0, EXAMPLE_REQUEST, 1);
            && r.Some?
            && r.value.bearers[1].Some? && r.value.bearers[1].value.state == B.State(true, true, false, false)
            && |r.value.procs| == 1 && r.value.procs[0].status[1] == B.Pending
  {
    var t0 := B.StartProc(t, 7);
    assert B.RequestBearers(t0, 0, EXAMPLE_REQUEST, 0) == Some(t0);
    assert B.CanAdd(t0, 6, 0);
  }

  /** The context with bearer 6 created, but not set up. */
  ghost predicate WithBearer6(m: Mme, teid: nat) {
    && 1 in m.ues
    && m.ues[1].teid == teid
    && |m.ues[1].tables.bearers| == B.BEARERS_PER_UE
    && m.ues[1].tables.bearers[1].Some?
    && m.ues[1].tables.bearers[1].value.state == B.State(true, true, false, false)
  }

  lemma ReadyLinked(m: Mme, u: Ue)
    requires InSession(m, u, false) && TablesSized(m)
    ensures B.WellSized(u.tables) && B.GetBearer(u.tables, 5).Some? && B.GetBearer(u.tables, 5).value.pdnCxId == 0
    ensures u.tables.pdns[0].Some? && LookupTeid(m, 9) == Some(u) && u.id == 1 && u.teid == 9
  {
    hide EnbKey.Pack, B.EmptyTables, TablesSized;
  }

  lemma RequestTaken(m: Mme, u: Ue, t: B.Tables)
    requires TablesSized(m) && LookupTeid(m, 9) == Some(u) && B.WellSized(u.tables) && u.tables.pdns[0].Some?
    requires B.GetBearer(u.tables, 5).Some? && B.GetBearer(u.tables, 5).value.pdnCxId == 0 && B.WellSized(B.StartProc(u.tables, 7))
    requires B.RequestBearers(B.StartProc(u.tables, 7), 0, EXAMPLE_REQUEST, 1) == Some(t)
    ensures var r := CreateBearerReq(m, 9, 5, 7, EXAMPLE_REQUEST); r.Done? && r.mme.ues == m.ues[u.id := u.(tables := t)]
  {
    hide B.RequestBearers, DedicatedReqs, TablesSized, B.StartProc, B.GetBearer, B.WellSized, LookupTeid;
  }

  lemma RequestStep6(m: Mme, u: Ue)
    requires InSession(m, u, false) && TablesSized(m)
    ensures B.WellSized(B.StartProc(u.tables, 7))
    ensures var r, t := CreateBearerReq(m, 9, 5, 7, EXAMPLE_REQUEST), B.RequestBearers(B.StartProc(u.tables, 7), 0, EXAMPLE_REQUEST, 1);
            t.Some? && r.Done? && WithBearer6(r.mme, 9) && r.mme.ues[1].tables == t.value
    ensures Requests(m, EvCreateBearerReq(9, 5, 7, EXAMPLE_REQUEST), u, 0)
  {
    RequestTables(u.tables);
    ReadyLinked(m, u);
    hide B.RequestBearers, CreateBearerReq, TablesSized, B.StartProc, B.GetBearer, LookupTeid, InSession;
    RequestTaken(m, u, B.RequestBearers(B.StartProc(u.tables, 7), 0, EXAMPLE_REQUEST, 1).value);
  }

  lemma OnlyAnswer(t: B.Tables, p: B.Proc)
    requires t.procs == [p] && Backed(t, p) && Fresh(p) && p.status[1] == B.Pending
    ensures DistinctAnswers(p, [NasAnswer(6, false)]) && ProcAfter(t, p, [], [NasAnswer(6, false)], 0)
  {
    hide Count;
    assert [p] + [] == [p];
  }

  lemma AnswerKeepsBearers(m: Mme, id: UeId, ebi: nat, success: bool)
    requires TablesSized(m) && id in m.ues && DedicatedAnswer(m, id, ebi, success).Done? && m.ues[id].id == id
    ensures var m' := DedicatedAnswer(m, id, ebi, success).mme;
            id in m'.ues && m'.ues[id].teid == m.ues[id].teid && m'.ues[id].tables.bearers == m.ues[id].tables.bearers
  {
    hide TablesSized, B.Respond;
  }

  lemma AnswerStep7(m: Mme, w: Watch, p: B.Proc)
    requires WithBearer6(m, 9) && Inv(m, w) && TablesSized(m)
    requires m.ues[1].tables.procs == [p] && Backed(m.ues[1].tables, p) && Fresh(p) && p.numBearers == 1 && p.status[1] == B.Pending
    ensures var r := DedicatedAnswer(m, 1, 6, false); r.Done? && WithBearer6(r.mme, 9) && Responds(m, r.mme, 1, p)
  {
    hide Inv, TablesSized, Fresh, Responds, Backed, DistinctAnswers, ProcAfter, DedicatedAnswer;
    OnlyAnswer(m.ues[1].tables, p);
    AnswerKeepsProc(m, 1, p, [], [NasAnswer(6, false)], 0, w);
    InvUe(m, 1, w);
    AnswerKeepsBearers(m, 1, 6, false);
  }

  lemma ErabStep8(m: Mme)
    requires WithBearer6(m, 9) && TablesSized(m)
    ensures ErabSetupRsp(m, 1, [], [6]).Done? && DueIn(m, EvErabSetupRsp(1, [], [6]))
  {
    var t := m.ues[1].tables;
    assert B.ErabsUp(t, [], 0) == Some((t, false));
    assert B.ErabDown(t, 6).Some? && B.ErabsDown(t, false, [6], 0) == Some((t, false));
    assert Created(t, [6][0]);
  }

  /** A run in which one create-bearer request, on tunnel 9 with transaction 7, is answered twice: NAS
      gives up on the bearer, then the eNB says that it has not set it up. The second response carries
      no transaction. */
  lemma TwoResponsesExample() returns (states: seq<Mme>, events: seq<Event>, r1: B.Response, r2: B.Response)
    ensures IsRun(false, states, events) && |states| == 9
    ensures events[5] == EvCreateBearerReq(9, 5, 7, EXAMPLE_REQUEST)
    ensures states[7].sent == states[6].sent + [CreateBearerRsp(9, r1)] && r1.trxn == Some(7)
    ensures states[8].sent == states[7].sent + [CreateBearerRsp(9, r2)] && r2.trxn == None
  {
    hide Step, TablesSized, CreateBearerReq, DedicatedAnswer, ErabSetupRsp, Start, Inv, Admissible, Ready, LookupTeid, B.StartProc;
    hide B.RequestBearers, B.EmptyTables, EnbKey.Pack, Fresh, Backed, Requests, Resolved, NoDuplicates, DueIn, Sends, B.WellSized;
    var u;
    states, events, u := SessionRun(false);
    RequestStep6(states[5], u);
    RequestTables(u.tables);
    RequestStep(states[5], EvCreateBearerReq(9, 5, 7, EXAMPLE_REQUEST));
    Free(states[5], EvCreateBearerReq(9, 5, 7, EXAMPLE_REQUEST));
    states, events := Extend(false, states, events, EvCreateBearerReq(9, 5, 7, EXAMPLE_REQUEST));
    RunRequestOpens(false, states, events, 5, u, 0);
    var p := Newest(states[6].ues[1].tables);
    RunInv(false, states, events, 6);
    AnswerStep7(states[6], NOTHING, p);
    AnswerEvent(states[6], EvDedicatedAnswer(1, 6, false));
    Free(states[6], EvDedicatedAnswer(1, 6, false));
    states, events := Extend(false, states, events, EvDedicatedAnswer(1, 6, false));
    r1 :| states[7].sent == states[6].sent + [CreateBearerRsp(9, r1)] && r1.trxn == Some(7);
    var e := EvErabSetupRsp(1, [], [6]);
    ErabStep8(states[7]);
    Steps(states[7], e);
    Free(states[7], e);
    RunInv(false, states, events, 7);
    InvIds(states[7], NOTHING);
    OnlyAnswersAndErabsRespond(states[7], e);
    states, events := Extend(false, states, events, e);
    r2 := ResponseIn(states[7], e).value;
    SecondSent(states[7], e, states[8]);
  }

  lemma SecondSent(m: Mme, e: Event, m': Mme)
    requires TablesSized(m) && WithBearer6(m, 9) && e == EvErabSetupRsp(1, [], [6]) && Sends(m, e, m') && ResponseIn(m, e).Some?
    ensures m'.sent == m.sent + [CreateBearerRsp(9, ResponseIn(m, e).value)]
  {
    hide ResponseIn;
  }
}
