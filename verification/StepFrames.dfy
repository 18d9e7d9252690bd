/** Which context a step is about, and that it leaves all others alone. */
module StepFrames {
  import opened Common
  import opened UeModel
  import opened Registry
  import opened Handlers
  import opened Invariant
  import opened Runs
  import EnbKey
  import B = Bearers

  function IdIn(r: Option<Ue>): (id: UeId) { if r.Some? then r.value.id else INVALID_UE_ID }

  /** The identifier of the context a step is about: the one it names, the one its key leads to, or the
      one it creates; 0 if there is none. */
  function Target(m: Mme, e: Event): (id: UeId) {
    match e
    case EvInitialUe(_, _, served) =>
      if served.Some? && LookupGuti(m, served.value).Some? then LookupGuti(m, served.value).value.id else m.generator
    case EvSetImsi(id, _) => id
    case EvClearIdentities(id) => id
    case EvNewGuti(id, _) => id
    case EvEmmState(id, _) => id
    case EvPdnCreated(id, _, _) => id
    case EvBearerCreated(id, _, _, _, _) => id
    case EvEsmStatus(id, _, _) => id
    case EvBearerS1Released(id, _) => id
    case EvPdnConnectivity(imsi, _, _) => IdIn(LookupImsi(m, imsi))
    case EvCreateSessionRsp(teid, _, _, _) => IdIn(LookupTeid(m, teid))
    case EvModifyBearerRsp(teid) => INVALID_UE_ID
    case EvDeleteSessionRsp(teid) => IdIn(LookupTeid(m, teid))
    case EvReleaseAccessBearersRsp(teid, _) => IdIn(LookupTeid(m, teid))
    case EvCreateBearerReq(teid, _, _, _) => IdIn(LookupTeid(m, teid))
    case EvDedicatedAnswer(id, _, _) => id
    case EvErabSetupRsp(id, _, _) => id
    case EvConnEstCnf(id, _, _) => id
    case EvNasDownlink(id, _) => id
    case EvContextSetupRsp(id) => id
    case EvContextSetupFailure(id) => id
    case EvReleaseReq(id, enbUeId, enbId, _, _) => IdIn(FindForRelease(m, id, enbUeId, enbId))
    case EvReleaseComplete(id, _) => id
    case EvDetachReq(id, _) => id
    case EvTimerFires(_) => INVALID_UE_ID
    case EvTimerExpired(_, id, _) => id
    case EvLocationAns(imsi) => IdIn(LookupImsi(m, imsi))
  }

  predicate SameNames(u: Ue, v: Ue) { u.imsi == v.imsi && u.guti == v.guti }

  /** Bearers may have come, and none has gone. */
  ghost predicate BearersStay(t: B.Tables, t': B.Tables) {
    && |t'.bearers| == |t.bearers|
    && (forall i :: 0 <= i < |t.bearers| && t.bearers[i].Some? ==> t'.bearers[i].Some?)
  }

  /** And the create-bearer procedures are the same. */
  ghost predicate Grows(t: B.Tables, t': B.Tables) { t'.procs == t.procs && BearersStay(t, t') }

  ghost predicate Follow(t: B.Tables, t': B.Tables, grows: bool) { if grows then Grows(t, t') else BearersStay(t, t') }

  /** At most the context x changes, and not in its names; its bearers stay. When `grows`, its procedures
      stay as well. */
  ghost predicate Put(m: Mme, m': Mme, x: UeId, grows: bool) {
    && m'.byImsi == m.byImsi
    && m'.byGuti == m.byGuti
    && (m'.ues == m.ues
        || (&& x in m.ues
            && x in m'.ues
            && m'.ues == m.ues[x := m'.ues[x]]
            && SameNames(m.ues[x], m'.ues[x])
            && Follow(m.ues[x].tables, m'.ues[x].tables, grows)))
  }

  /** The context x is removed, with its names. */
  ghost predicate Drop(m: Mme, m': Mme, x: UeId) {
    && x in m.ues
    && m'.ues == m.ues - {x}
    && m'.byImsi == (if ValidImsi(m.ues[x].imsi) then m.byImsi - {m.ues[x].imsi} else m.byImsi)
    && m'.byGuti == (if NonZeroGuti(m.ues[x].guti) then m.byGuti - {m.ues[x].guti} else m.byGuti)
  }

  // ---------------------------------------------------------------- bearer tables

  lemma {:induction false} SessionsGrow(t: B.Tables, sgwTeid: nat, ms: seq<B.SessionBearer>, n: nat)
    requires B.WellSized(t) && n <= |ms| && B.SessionsCreated(t, sgwTeid, ms, n).Some?
    ensures Grows(t, B.SessionsCreated(t, sgwTeid, ms, n).value)
  {
    if n > 0 {
      SessionsGrow(t, sgwTeid, ms, n - 1);
    }
  }

  lemma {:induction false} ErabsUpGrow(t: B.Tables, ms: seq<B.ErabSetup>, n: nat)
    requires |t.bearers| == B.BEARERS_PER_UE && n <= |ms| && B.ErabsUp(t, ms, n).Some?
    ensures Grows(t, B.ErabsUp(t, ms, n).value.0)
  {
    if n > 0 {
      ErabsUpGrow(t, ms, n - 1);
    }
  }

  lemma {:induction false} ErabsDownGrow(t: B.Tables, due: bool, ebis: seq<nat>, n: nat)
    requires |t.bearers| == B.BEARERS_PER_UE && n <= |ebis| && B.ErabsDown(t, due, ebis, n).Some?
    ensures Grows(t, B.ErabsDown(t, due, ebis, n).value.0)
  {
    if n > 0 {
      ErabsDownGrow(t, due, ebis, n - 1);
    }
  }

  lemma {:induction false} ErabsResetGrow(t: B.Tables, ms: seq<B.ErabSetup>, n: nat)
    requires |t.bearers| == B.BEARERS_PER_UE && n <= |ms|
    ensures Grows(t, B.ErabsReset(t, ms, n))
  {
    if n > 0 {
      ErabsResetGrow(t, ms, n - 1);
    }
  }

  lemma ErabSetupGrows(t: B.Tables, ups: seq<B.ErabSetup>, downs: seq<nat>)
    requires |t.bearers| == B.BEARERS_PER_UE && B.ErabSetupRsp(t, ups, downs).Some?
    ensures Grows(t, B.ErabSetupRsp(t, ups, downs).value.0)
  {
    ErabsUpGrow(t, ups, |ups|);
    var u := B.ErabsUp(t, ups, |ups|).value;
    ErabsDownGrow(u.0, u.1, downs, |downs|);
    var d := B.ErabsDown(u.0, u.1, downs, |downs|).value;
    ErabsResetGrow(d.0, ups, |ups|);
    hide B.ErabsUp, B.ErabsDown, B.ErabsReset;
  }

  lemma {:induction false} RequestsStay(t: B.Tables, cid: nat, ms: seq<B.BearerRequest>, n: nat)
    requires B.WellSized(t) && cid < B.MAX_APN_PER_UE && t.procs != [] && n <= |ms| && B.RequestBearers(t, cid, ms, n).Some?
    ensures BearersStay(t, B.RequestBearers(t, cid, ms, n).value)
  {
    if n > 0 {
      RequestsStay(t, cid, ms, n - 1);
    }
  }

  lemma AnswerStays(t: B.Tables, ebi: nat, success: bool)
    requires B.WellSized(t) && B.Answer(t, ebi, success).Some?
    ensures BearersStay(t, B.Answer(t, ebi, success).value.t)
  {
    hide B.Respond;
  }

  lemma DeleteProcStays(t: B.Tables)
    ensures BearersStay(t, B.DeleteProc(t))
  {
  }

  lemma NasCreateGrows(t: B.Tables, cid: nat, ebi: nat, isDefault: bool, qci: nat)
    requires B.WellSized(t) && B.NasCreateBearer(t, cid, ebi, isDefault, qci).Some?
    ensures Grows(t, B.NasCreateBearer(t, cid, ebi, isDefault, qci).value)
  {
  }

  // ---------------------------------------------------------------- handlers

  lemma PutAgain(ues: map<UeId, Ue>, x: UeId, u: Ue, v: Ue)
    ensures ues[x := u][x := v] == ues[x := v] && ues[x := u] - {x} == ues - {x}
  {
  }

  /** One update of a context. */
  lemma Puts(m: Mme, m': Mme, v: Ue, grows: bool)
    requires v.id in m.ues && SameNames(m.ues[v.id], v) && Follow(m.ues[v.id].tables, v.tables, grows)
    requires m'.ues == m.ues[v.id := v] && m'.byImsi == m.byImsi && m'.byGuti == m.byGuti
    ensures Put(m, m', v.id, grows)
  {
    hide Grows, SameNames;
    assert m'.ues[v.id] == v;
  }

  lemma SameTables(t: B.Tables)
    ensures Grows(t, t)
  {
  }

  lemma TablesPut(m: Mme, m': Mme, id: UeId, t: B.Tables, grows: bool)
    requires id in m.ues && m.ues[id].id == id && Follow(m.ues[id].tables, t, grows)
    requires m'.ues == m.ues[id := m.ues[id].(tables := t)] && m'.byImsi == m.byImsi && m'.byGuti == m.byGuti
    ensures Put(m, m', id, grows)
  {
    hide Put, Grows;
    Puts(m, m', m.ues[id].(tables := t), grows);
  }

  lemma PdnCreatedPuts(m: Mme, id: UeId, cid: nat, apn: Option<(nat, B.Arp)>)
    requires IdsOk(m.ues) && PdnCreated(m, id, cid, apn).Done?
    ensures Put(m, PdnCreated(m, id, cid, apn).mme, id, true)
  {
    if id in m.ues {
      assert Grows(m.ues[id].tables, B.CreatePdn(m.ues[id].tables, cid, apn));
      hide Put, Grows, B.CreatePdn;
      TablesPut(m, PdnCreated(m, id, cid, apn).mme, id, B.CreatePdn(m.ues[id].tables, cid, apn), true);
    }
  }

  lemma BearerCreatedPuts(m: Mme, id: UeId, cid: nat, ebi: nat, isDefault: bool, qci: nat)
    requires IdsOk(m.ues) && TablesSized(m) && BearerCreated(m, id, cid, ebi, isDefault, qci).Done?
    ensures Put(m, BearerCreated(m, id, cid, ebi, isDefault, qci).mme, id, true)
  {
    if id in m.ues {
      hide Put, Grows, B.NasCreateBearer;
      NasCreateGrows(m.ues[id].tables, cid, ebi, isDefault, qci);
      TablesPut(m, BearerCreated(m, id, cid, ebi, isDefault, qci).mme, id,
                B.NasCreateBearer(m.ues[id].tables, cid, ebi, isDefault, qci).value, true);
    }
  }

  lemma EsmStatusPuts(m: Mme, id: UeId, ebi: nat, status: B.EsmState)
    requires IdsOk(m.ues) && TablesSized(m)
    ensures Put(m, EsmStatus(m, id, ebi, status), id, true)
  {
    if id in m.ues {
      assert Grows(m.ues[id].tables, B.SetEsmStatus(m.ues[id].tables, ebi, status));
      hide Put, Grows, B.SetEsmStatus;
      TablesPut(m, EsmStatus(m, id, ebi, status), id, B.SetEsmStatus(m.ues[id].tables, ebi, status), true);
    }
  }

  lemma BearerS1ReleasedPuts(m: Mme, id: UeId, ebi: nat)
    requires IdsOk(m.ues) && TablesSized(m)
    ensures Put(m, BearerS1Released(m, id, ebi), id, true)
  {
    if id in m.ues {
      assert Grows(m.ues[id].tables, B.S1Release(m.ues[id].tables, ebi));
      hide Put, Grows, B.S1Release;
      TablesPut(m, BearerS1Released(m, id, ebi), id, B.S1Release(m.ues[id].tables, ebi), true);
    }
  }

  lemma ErabSetupRspPuts(m: Mme, id: UeId, ups: seq<B.ErabSetup>, downs: seq<nat>)
    requires IdsOk(m.ues) && TablesSized(m) && ErabSetupRsp(m, id, ups, downs).Done?
    ensures Put(m, ErabSetupRsp(m, id, ups, downs).mme, id, true)
  {
    if id in m.ues {
      hide Put, B.ErabSetupRsp, Grows;
      ErabSetupGrows(m.ues[id].tables, ups, downs);
      TablesPut(m, ErabSetupRsp(m, id, ups, downs).mme, id, B.ErabSetupRsp(m.ues[id].tables, ups, downs).value.0, true);
    }
  }

  lemma CreateSessionRspPuts(m: Mme, teid: nat, accepted: bool, sgwTeid: nat, ms: seq<B.SessionBearer>)
    requires IdsOk(m.ues) && TablesSized(m) && CreateSessionRsp(m, teid, accepted, sgwTeid, ms).Done?
    ensures Put(m, CreateSessionRsp(m, teid, accepted, sgwTeid, ms).mme, IdIn(LookupTeid(m, teid)), true)
  {
    if LookupTeid(m, teid).Some? && accepted {
      hide Put, B.SessionsCreated, B.GetBearer, Grows;
      var u := LookupTeid(m, teid).value;
      SessionsGrow(u.tables, sgwTeid, ms, |ms|);
      TablesPut(m, CreateSessionRsp(m, teid, accepted, sgwTeid, ms).mme, u.id, B.SessionsCreated(u.tables, sgwTeid, ms, |ms|).value, true);
    }
  }

  lemma RequestStays(t: B.Tables, trxn: nat, cid: nat, ms: seq<B.BearerRequest>)
    requires B.WellSized(t) && cid < B.MAX_APN_PER_UE && B.WellSized(B.StartProc(t, trxn))
    requires B.RequestBearers(B.StartProc(t, trxn), cid, ms, |ms|).Some?
    ensures BearersStay(t, B.RequestBearers(B.StartProc(t, trxn), cid, ms, |ms|).value)
  {
    hide B.RequestBearers;
    RequestsStay(B.StartProc(t, trxn), cid, ms, |ms|);
  }

  lemma CreateBearerReqPuts(m: Mme, teid: nat, ebi: nat, trxn: nat, ms: seq<B.BearerRequest>)
    requires IdsOk(m.ues) && TablesSized(m) && CreateBearerReq(m, teid, ebi, trxn, ms).Done?
    ensures Put(m, CreateBearerReq(m, teid, ebi, trxn, ms).mme, IdIn(LookupTeid(m, teid)), false)
  {
    hide B.RequestBearers, B.GetBearer, DedicatedReqs, BearersStay;
    var m' := CreateBearerReq(m, teid, ebi, trxn, ms).mme;
    if LookupTeid(m, teid).Some? && B.GetBearer(LookupTeid(m, teid).value.tables, ebi).Some? {
      hide Put;
      var u := LookupTeid(m, teid).value;
      RequestStays(u.tables, trxn, B.GetBearer(u.tables, ebi).value.pdnCxId, ms);
      TablesPut(m, m', u.id, m'.ues[u.id].tables, false);
    }
  }

  lemma DedicatedAnswerPuts(m: Mme, id: UeId, ebi: nat, success: bool)
    requires IdsOk(m.ues) && TablesSized(m) && DedicatedAnswer(m, id, ebi, success).Done?
    ensures Put(m, DedicatedAnswer(m, id, ebi, success).mme, id, false)
  {
    hide B.Answer, BearersStay;
    if id in m.ues {
      hide Put;
      AnswerStays(m.ues[id].tables, ebi, success);
      TablesPut(m, DedicatedAnswer(m, id, ebi, success).mme, id, B.Answer(m.ues[id].tables, ebi, success).value.t, false);
    }
  }

  lemma EmmStatePuts(m: Mme, id: UeId, state: MmState)
    requires IdsOk(m.ues)
    ensures Put(m, EmmState(m, id, state), id, true)
  {
    if id in m.ues && m.ues[id].mm != state {
      hide Put, Grows;
      SameTables(m.ues[id].tables);
      Puts(m, EmmState(m, id, state), m.ues[id].(mm := state), true);
    }
  }

  lemma LocationAnsPuts(m: Mme, imsi: nat)
    requires IdsOk(m.ues)
    ensures Put(m, LocationAns(m, imsi), IdIn(LookupImsi(m, imsi)), true)
  {
    if LookupImsi(m, imsi).Some? {
      hide Put, Grows;
      var u := LookupImsi(m, imsi).value;
      SameTables(u.tables);
      Puts(m, LocationAns(m, imsi), u.(reach := INACTIVE, detach := INACTIVE), true);
    }
  }

  lemma SigConnectedPuts(m: Mme, u: Ue)
    requires u.id in m.ues && m.ues[u.id] == u
    ensures Put(m, SigConnected(m, u), u.id, true)
    ensures u.id in SigConnected(m, u).ues && SigConnected(m, u).ues[u.id] == ToConnected(u) && ToConnected(u).id == u.id
  {
    if u.ecm != Connected {
      hide Put, Grows;
      SameTables(u.tables);
      Puts(m, SigConnected(m, u), ToConnected(u), true);
    }
  }

  lemma SigIdlePuts(m: Mme, u: Ue, t: TimerSetup)
    requires u.id in m.ues && m.ues[u.id] == u
    ensures Put(m, SigIdle(m, u, t), u.id, true)
    ensures SigIdle(m, u, t).ues == m.ues[u.id := ToIdle(u, m.periodicTau, t)]
  {
    hide Put, Grows;
    SameTables(u.tables);
    Puts(m, SigIdle(m, u, t), ToIdle(u, m.periodicTau, t), true);
  }

  /** Two updates of the same context. */
  lemma PutsTwice(m: Mme, m1: Mme, m2: Mme, x: UeId, grows: bool)
    requires Put(m, m1, x, grows) && Put(m1, m2, x, grows)
    ensures Put(m, m2, x, grows)
  {
    if m1.ues != m.ues && m2.ues != m1.ues {
      PutAgain(m.ues, x, m1.ues[x], m2.ues[x]);
    }
  }

  lemma ConnEstCnfPuts(m: Mme, id: UeId, nas: B.NasPdu, t: TimerSetup)
    requires IdsOk(m.ues) && TablesSized(m)
    ensures Put(m, ConnEstCnf(m, id, nas, t), id, true)
  {
    if id in m.ues {
      hide Put, Grows, B.Erabs, SigConnected, StartSetup, TablesSized, ToConnected;
      var u := m.ues[id];
      var erabs := B.Erabs(u.tables.bearers, B.BEARERS_PER_UE);
      var m1 := Send(m, [ConnectionEstablishment(id, erabs, if erabs == [] then None else Some(nas))]);
      SigConnectedPuts(m1, u);
      var m2 := SigConnected(m1, u);
      SentPut(m, m1, m2, id, true);
      StartSetupPuts(m2, m2.ues[id], t);
      PutsTwice(m, m2, ConnEstCnf(m, id, nas, t), id, true);
    }
  }

  lemma StartSetupPuts(m: Mme, u: Ue, t: TimerSetup)
    requires u.id in m.ues && m.ues[u.id] == u
    ensures Put(m, StartSetup(m, u, t), u.id, true)
  {
    hide Put, Grows;
    SameTables(u.tables);
    Puts(m, StartSetup(m, u, t), u.(setup := TimerSet(t)), true);
  }

  lemma SentPut(m: Mme, m1: Mme, m2: Mme, x: UeId, grows: bool)
    requires m1.ues == m.ues && m1.byImsi == m.byImsi && m1.byGuti == m.byGuti
    ensures Put(m1, m2, x, grows) <==> Put(m, m2, x, grows)
    ensures Put(m2, m1, x, grows) <==> Put(m2, m, x, grows)
  {
    hide Grows;
  }

  lemma NasDownlinkPuts(m: Mme, id: UeId, success: bool)
    requires IdsOk(m.ues) && NasDownlinkReq(m, id, success).Done?
    ensures Put(m, NasDownlinkReq(m, id, success).mme, id, true)
  {
    hide Put, Grows, SigConnected;
    var u := m.ues[id];
    var m1 := Send(m, [NasDownlink(id, u.enbUeId)]);
    var m' := NasDownlinkReq(m, id, success).mme;
    SigConnectedPuts(m1, u);
    SentPut(m, m1, SigConnected(m1, u), id, true);
    if !success {
      SameTables(u.tables);
      Puts(SigConnected(m1, u), m', ToConnected(u).(relCause := NasNormalRelease), true);
      PutsTwice(m, SigConnected(m1, u), m', id, true);
    }
  }

  lemma ContextSetupRspPuts(m: Mme, id: UeId)
    requires IdsOk(m.ues)
    ensures Put(m, ContextSetupRsp(m, id), id, true)
  {
    if id in m.ues {
      hide Put, Grows;
      SameTables(m.ues[id].tables);
      Puts(m, ContextSetupRsp(m, id), m.ues[id].(setup := INACTIVE), true);
    }
  }

  lemma ContextSetupFailurePuts(m: Mme, id: UeId)
    requires IdsOk(m.ues) && TablesSized(m)
    ensures Put(m, ContextSetupFailure(m, id), id, true)
  {
    if id in m.ues {
      hide Put, Grows, ReleaseBearers;
      var u := m.ues[id];
      SameTables(u.tables);
      PutAgain(m.ues, id, u.(setup := INACTIVE), u.(setup := INACTIVE, relCause := InitialContextSetupFailed));
      Puts(m, ContextSetupFailure(m, id), u.(setup := INACTIVE, relCause := InitialContextSetupFailed), true);
    }
  }

  lemma TimerExpiredPuts(m: Mme, timer: TimerId, id: UeId, t: TimerSetup)
    requires IdsOk(m.ues) && TablesSized(m)
    ensures Put(m, TimerExpired(m, timer, id, t), id, true)
  {
    if id in m.ues {
      hide Grows, ReleaseBearers;
      var u, m' := m.ues[id], TimerExpired(m, timer, id, t);
      SameTables(u.tables);
      if timer == u.reach || timer == u.detach || timer == u.setup {
        hide Put;
        Puts(m, m', m'.ues[id], true);
      }
    }
  }

  lemma ReleaseAccessBearersRspPuts(m: Mme, teid: nat, t: TimerSetup)
    requires IdsOk(m.ues)
    ensures Put(m, ReleaseAccessBearersRsp(m, teid, t), IdIn(LookupTeid(m, teid)), true)
  {
    if LookupTeid(m, teid).Some? && LookupTeid(m, teid).value.relCause == SctpReset {
      hide Put, SigIdle;
      var u := LookupTeid(m, teid).value;
      var m1 := Send(SubS1u(m), [S1ReleaseCommand(u.id, u.enbUeId, u.relCause)]);
      SigIdlePuts(m1, u, t);
      SentPut(m, m1, SigIdle(m1, u, t), u.id, true);
    }
  }

  lemma ReleaseReqPuts(m: Mme, id: UeId, enbUeId: nat, enbId: nat, cause: Cause, t: TimerSetup)
    requires IdsOk(m.ues) && TablesSized(m)
    ensures Put(m, ReleaseReq(m, id, enbUeId, enbId, cause, t), IdIn(FindForRelease(m, id, enbUeId, enbId)), true)
  {
    var found := FindForRelease(m, id, enbUeId, enbId);
    if found.Some? {
      assert found.value.id in m.ues && m.ues[found.value.id] == found.value;
      hide FindForRelease;
      ReleaseFoundPuts(m, found.value, id, enbUeId, enbId, cause, t);
    }
  }

  lemma ReleaseFoundPuts(m: Mme, u: Ue, id: UeId, enbUeId: nat, enbId: nat, cause: Cause, t: TimerSetup)
    requires TablesSized(m) && FindForRelease(m, id, enbUeId, enbId) == Some(u) && u.id in m.ues && m.ues[u.id] == u
    ensures Put(m, ReleaseReq(m, id, enbUeId, enbId, cause, t), u.id, true)
  {
    hide Put, Grows, ReleaseBearers, FindForRelease, SigIdle, TablesSized;
    var u1 := u.(relCause := cause);
    var m1, m' := PutUe(m, u1), ReleaseReq(m, id, enbUeId, enbId, cause, t);
    SameTables(u.tables);
    Puts(m, m1, u1, true);
    if u.ecm == Idle {
      if cause == SctpReset {
        SigIdlePuts(m1, u1, t);
        PutsTwice(m, m1, SigIdle(m1, u1, t), u.id, true);
        SentPut(m', SigIdle(m1, u1, t), m, u.id, true);
      }
    } else {
      Puts(m1, m', if u.setup != INACTIVE then u1.(setup := INACTIVE, relCause := InitialContextSetupFailed) else u1, true);
      PutsTwice(m, m1, m', u.id, true);
    }
  }

  // ---------------------------------------------------------------- removals

  /** Removing what has been updated before. */
  lemma Drops(m: Mme, m1: Mme, u: Ue, x: UeId)
    requires x in m.ues && x in m1.ues && (m1.ues == m.ues || m1.ues == m.ues[x := m1.ues[x]])
    requires m1.byImsi == m.byImsi && m1.byGuti == m.byGuti && u.id == x && SameNames(m.ues[x], u)
    ensures Drop(m, Remove(m1, u), x)
  {
    PutAgain(m.ues, x, m1.ues[x], u);
  }

  lemma DeleteSessionRspMoves(m: Mme, teid: nat)
    requires IdsOk(m.ues)
    ensures var m', x := DeleteSessionRsp(m, teid), IdIn(LookupTeid(m, teid)); Put(m, m', x, true) || Drop(m, m', x)
  {
    if LookupTeid(m, teid).Some? {
      hide Put, Drop, Remove, Grows;
      var u, m' := LookupTeid(m, teid).value, DeleteSessionRsp(m, teid);
      var m1 := SubDefault(SubS1u(DropTeid(m, u)));
      SameTables(u.tables);
      if u.ecm == Idle {
        Drops(m, Send(m1, [S1ReleaseCommand(u.id, u.enbUeId, ImplicitRelease)]), u.(teid := NO_TEID, relCause := ImplicitRelease), u.id);
      } else {
        PutAgain(m.ues, u.id, u.(teid := NO_TEID), u.(teid := NO_TEID, relCause := InvalidCause));
        Puts(m, m', u.(teid := NO_TEID, relCause := InvalidCause), true);
      }
    }
  }

  lemma DetachReqMoves(m: Mme, id: UeId, t: TimerSetup)
    requires IdsOk(m.ues) && TablesSized(m)
    ensures var m' := DetachReq(m, id, t); Put(m, m', id, true) || Drop(m, m', id)
  {
    if id in m.ues && m.ues[id].teid == NO_TEID && m.ues[id].activePdns == 0 {
      hide Put, Drop, Remove, DetachConnected;
      var u := m.ues[id];
      if u.ecm == Idle {
        Drops(m, Send(m, [S1ReleaseCommand(u.id, u.enbUeId, ImplicitRelease)]), u.(relCause := ImplicitRelease), id);
      } else {
        DetachConnectedMoves(m, u, t);
      }
    }
  }

  lemma DetachConnectedMoves(m: Mme, u: Ue, t: TimerSetup)
    requires u.id in m.ues && m.ues[u.id] == u
    ensures var m' := DetachConnected(m, u, t); Put(m, m', u.id, true) || Drop(m, m', u.id)
  {
    hide Put, Drop, Remove, Grows, SigIdle;
    var cause := if u.relCause == InvalidCause then NasDetach else u.relCause;
    var u1 := u.(relCause := cause);
    var m1 := Send(PutUe(m, u1), [S1ReleaseCommand(u.id, u.enbUeId, cause)]);
    SameTables(u.tables);
    if cause == SctpReset {
      SigIdlePuts(m1, u1, t);
      PutAgain(m.ues, u.id, u1, ToIdle(u1, m.periodicTau, t));
      IdleNames(m1, u1, t);
      Drops(m, SigIdle(m1, u1, t), ToIdle(u1, m.periodicTau, t), u.id);
    } else {
      PutAgain(m.ues, u.id, u1, u1.(relCause := InvalidCause));
      Puts(m, DetachConnected(m, u, t), u1.(relCause := InvalidCause), true);
    }
  }

  lemma IdleNames(m: Mme, u: Ue, t: TimerSetup)
    ensures SigIdle(m, u, t).byImsi == m.byImsi && SigIdle(m, u, t).byGuti == m.byGuti
  {
  }

  lemma ReleaseCompleteMoves(m: Mme, id: UeId, t: TimerSetup)
    requires IdsOk(m.ues) && TablesSized(m)
    ensures var m' := ReleaseComplete(m, id, t); Put(m, m', id, false) || Drop(m, m', id)
  {
    if id in m.ues {
      hide Put, Drop, Remove, BearersStay, SigIdle, DeleteSessions, B.DeleteProc, TablesSized;
      var u, m' := m.ues[id], ReleaseComplete(m, id, t);
      DeleteProcStays(u.tables);
      var u1 := u.(tables := B.DeleteProc(u.tables));
      var m1 := PutUe(m, u1);
      if u.mm == Unregistered && u.teid == NO_TEID && u.activePdns == 0 {
        Drops(m, m1, u1, id);
        SameDrop(m, Remove(m1, u1), m', id);
      } else {
        var m2 := if u.mm == Unregistered then Send(m1, DeleteSessions(u1, B.MAX_APN_PER_UE)) else m1;
        SigIdlePuts(m2, u1, t);
        PutAgain(m.ues, id, u1, ToIdle(u1, m.periodicTau, t));
        IdleNames(m2, u1, t);
        Puts(m, m', ToIdle(u1, m.periodicTau, t), false);
      }
    }
  }

  lemma SameDrop(m: Mme, m1: Mme, m2: Mme, x: UeId)
    requires Drop(m, m1, x) && m2.ues == m1.ues && m2.byImsi == m1.byImsi && m2.byGuti == m1.byGuti
    ensures Drop(m, m2, x)
  {
  }

  // ---------------------------------------------------------------- all steps

  /** Steps that change the names of a context, or its TEID. */
  predicate KeyStep(e: Event) {
    e.EvInitialUe? || e.EvSetImsi? || e.EvClearIdentities? || e.EvNewGuti? || e.EvPdnConnectivity?
  }

  /** Steps that may change the create-bearer procedures of a context. */
  predicate ProcedureStep(e: Event) {
    e.EvCreateBearerReq? || e.EvDedicatedAnswer? || e.EvReleaseComplete?
  }

  ghost predicate Moves(m: Mme, m': Mme, e: Event) {
    Put(m, m', Target(m, e), !ProcedureStep(e)) || Drop(m, m', Target(m, e))
  }

  lemma TableStepMoves(m: Mme, e: Event)
    requires IdsOk(m.ues) && TablesSized(m) && TableStep(e) && Step(m, e).Done?
    ensures Moves(m, Step(m, e).mme, e)
  {
    hide Put, Drop, IdsOk, TablesSized;
    hide PdnCreated, BearerCreated, EsmStatus, BearerS1Released, CreateSessionRsp, CreateBearerReq, DedicatedAnswer, ErabSetupRsp;
    match e
    case EvPdnCreated(id, cid, apn) => PdnCreatedPuts(m, id, cid, apn);
    case EvBearerCreated(id, cid, ebi, isDefault, qci) => BearerCreatedPuts(m, id, cid, ebi, isDefault, qci);
    case EvEsmStatus(id, ebi, status) => EsmStatusPuts(m, id, ebi, status);
    case EvBearerS1Released(id, ebi) => BearerS1ReleasedPuts(m, id, ebi);
    case EvCreateSessionRsp(teid, accepted, sgwTeid, sessions) => CreateSessionRspPuts(m, teid, accepted, sgwTeid, sessions);
    case EvCreateBearerReq(teid, ebi, trxn, requests) => CreateBearerReqPuts(m, teid, ebi, trxn, requests);
    case EvDedicatedAnswer(id, ebi, success) => DedicatedAnswerPuts(m, id, ebi, success);
    case EvErabSetupRsp(id, ups, downs) => ErabSetupRspPuts(m, id, ups, downs);
  }

  lemma ConnectionStepMoves(m: Mme, e: Event)
    requires IdsOk(m.ues) && TablesSized(m) && ConnectionStep(e) && Step(m, e).Done?
    ensures Moves(m, Step(m, e).mme, e)
  {
    hide Drop, IdsOk, TablesSized, Grows;
    hide ConnEstCnf, NasDownlinkReq, ContextSetupRsp, ContextSetupFailure, TimerExpired;
    match e
    case EvConnEstCnf(id, nas, setup) => ConnEstCnfPuts(m, id, nas, setup);
    case EvNasDownlink(id, success) => NasDownlinkPuts(m, id, success);
    case EvContextSetupRsp(id) => ContextSetupRspPuts(m, id);
    case EvContextSetupFailure(id) => ContextSetupFailurePuts(m, id);
    case EvTimerFires(timer) =>
    case EvTimerExpired(timer, id, setup) => TimerExpiredPuts(m, timer, id, setup);
    case EvModifyBearerRsp(teid) =>
  }

  lemma ReleaseStepMoves(m: Mme, e: Event)
    requires IdsOk(m.ues) && TablesSized(m) && ReleaseStep(e) && Step(m, e).Done?
    ensures Moves(m, Step(m, e).mme, e)
  {
    hide Put, Drop, IdsOk, TablesSized;
    hide DeleteSessionRsp, ReleaseAccessBearersRsp, ReleaseReq, ReleaseComplete, DetachReq, FindForRelease;
    match e
    case EvDeleteSessionRsp(teid) => DeleteSessionRspMoves(m, teid);
    case EvReleaseAccessBearersRsp(teid, setup) => ReleaseAccessBearersRspPuts(m, teid, setup);
    case EvReleaseReq(id, enbUeId, enbId, cause, setup) => ReleaseReqPuts(m, id, enbUeId, enbId, cause, setup);
    case EvReleaseComplete(id, setup) => ReleaseCompleteMoves(m, id, setup);
    case EvDetachReq(id, setup) => DetachReqMoves(m, id, setup);
  }

  /** Every step but those that change keys moves at most its target, and keeps or drops its names. */
  lemma StepMoves(m: Mme, e: Event)
    requires IdsOk(m.ues) && TablesSized(m) && !KeyStep(e) && Step(m, e).Done?
    ensures Moves(m, Step(m, e).mme, e)
  {
    hide Moves, IdsOk, TablesSized;
    if TableStep(e) {
      TableStepMoves(m, e);
    } else if ConnectionStep(e) {
      ConnectionStepMoves(m, e);
    } else if ReleaseStep(e) {
      ReleaseStepMoves(m, e);
    } else {
      hide Put, Drop;
      assert Moves(m, Step(m, e).mme, e) by {
        EmmOrLocation(m, e);
      }
    }
  }

  lemma EmmOrLocation(m: Mme, e: Event)
    requires IdsOk(m.ues) && TablesSized(m) && (e.EvEmmState? || e.EvLocationAns?)
    ensures Moves(m, Step(m, e).mme, e)
  {
    hide Put, Drop, EmmState, LocationAns, IdsOk, TablesSized;
    match e
    case EvEmmState(id, state) => EmmStatePuts(m, id, state);
    case EvLocationAns(imsi) => LocationAnsPuts(m, imsi);
  }

  /** No context but x comes, goes or changes. */
  ghost predicate OthersKept(m: Mme, m': Mme, x: UeId) {
    forall j :: j != x ==> (j in m'.ues <==> j in m.ues) && (j in m.ues ==> m'.ues[j] == m.ues[j])
  }

  /** If the context x stays, it keeps all its bearers. */
  ghost predicate BearersKept(m: Mme, m': Mme, x: UeId) {
    x in m.ues && x in m'.ues ==> BearersStay(m.ues[x].tables, m'.ues[x].tables)
  }

  ghost predicate TablesGrow(m: Mme, m': Mme, x: UeId) {
    x in m.ues && x in m'.ues ==> Grows(m.ues[x].tables, m'.ues[x].tables)
  }

  lemma KeyStepFrame(m: Mme, e: Event)
    requires IdsOk(m.ues) && TablesSized(m) && KeyStep(e) && Step(m, e).Done?
    ensures OthersKept(m, Step(m, e).mme, Target(m, e)) && TablesGrow(m, Step(m, e).mme, Target(m, e))
  {
    hide TablesSized, IdsOk, OthersKept, TablesGrow, InitialUe, SetValidImsi, ClearIdentities, NewGuti, PdnConnectivity;
    match e
    case EvInitialUe(enbId, enbUeId, served) => InitialUeFrame(m, enbId, enbUeId, served);
    case EvSetImsi(id, imsi) => NamesFrame(m, id, imsi, CLEARED_GUTI);
    case EvClearIdentities(id) => NamesFrame(m, id, INVALID_IMSI, CLEARED_GUTI);
    case EvNewGuti(id, guti) => NamesFrame(m, id, INVALID_IMSI, guti);
    case EvPdnConnectivity(imsi, cid, teid) => PdnConnectivityFrame(m, imsi, cid, teid);
  }

  lemma NamesFrame(m: Mme, id: UeId, imsi: nat, guti: Guti)
    requires IdsOk(m.ues)
    ensures OthersKept(m, SetValidImsi(m, id, imsi), id) && TablesGrow(m, SetValidImsi(m, id, imsi), id)
    ensures OthersKept(m, ClearIdentities(m, id), id) && TablesGrow(m, ClearIdentities(m, id), id)
    ensures OthersKept(m, NewGuti(m, id, guti), id) && TablesGrow(m, NewGuti(m, id, guti), id)
  {
    if id in m.ues {
      SameTables(m.ues[id].tables);
    }
    hide Grows, SameGutiButMnc;
  }

  lemma InitialUeFrame(m: Mme, enbId: nat, enbUeId: nat, served: Option<Guti>)
    requires IdsOk(m.ues) && InitialUe(m, enbId, enbUeId, served).Done?
    ensures var m', x := InitialUe(m, enbId, enbUeId, served).mme, Target(m, EvInitialUe(enbId, enbUeId, served));
            OthersKept(m, m', x) && TablesGrow(m, m', x)
  {
    hide Reconnect, Attach, OthersKept, TablesGrow;
    if served.Some? && LookupGuti(m, served.value).Some? {
      ReconnectFrame(m, LookupGuti(m, served.value).value, enbId, enbUeId, served.value);
    } else {
      AttachFrame(m, enbId, enbUeId);
    }
  }

  lemma ReconnectFrame(m: Mme, u: Ue, enbId: nat, enbUeId: nat, guti: Guti)
    requires u.id in m.ues && m.ues[u.id] == u
    ensures var m' := Reconnect(m, u, enbId, enbUeId, guti); OthersKept(m, m', u.id) && TablesGrow(m, m', u.id)
  {
    SameTables(u.tables);
    hide Grows, EnbKey.Pack, SameGutiButMnc;
  }

  lemma AttachFrame(m: Mme, enbId: nat, enbUeId: nat)
    requires IdsOk(m.ues) && Attach(m, enbId, enbUeId).Done?
    ensures var m' := Attach(m, enbId, enbUeId).mme; OthersKept(m, m', m.generator) && TablesGrow(m, m', m.generator)
  {
    hide EnbKey.Pack, B.EmptyTables;
  }

  lemma PdnConnectivityFrame(m: Mme, imsi: nat, cid: nat, teid: nat)
    requires IdsOk(m.ues) && TablesSized(m) && PdnConnectivity(m, imsi, cid, teid).Done?
    ensures var m', x := PdnConnectivity(m, imsi, cid, teid).mme, IdIn(LookupImsi(m, imsi));
            OthersKept(m, m', x) && TablesGrow(m, m', x)
  {
    if LookupImsi(m, imsi).Some? {
      assert Grows(LookupImsi(m, imsi).value.tables, B.StartSession(LookupImsi(m, imsi).value.tables, cid).value);
      hide B.StartSession, Grows;
    }
  }

  lemma MovesFrame(m: Mme, m': Mme, e: Event)
    requires Moves(m, m', e)
    ensures OthersKept(m, m', Target(m, e)) && BearersKept(m, m', Target(m, e))
    ensures !ProcedureStep(e) ==> TablesGrow(m, m', Target(m, e))
  {
    hide Target;
    if Target(m, e) in m.ues {
      SameTables(m.ues[Target(m, e)].tables);
    }
    hide BearersStay;
  }

  /** Every step leaves all contexts but its target as they are. It takes no bearer from its target, and
      changes the create-bearer procedures only if it is about them. */
  lemma StepTouchesOnlyTarget(m: Mme, e: Event)
    requires IdsOk(m.ues) && TablesSized(m) && Step(m, e).Done?
    ensures OthersKept(m, Step(m, e).mme, Target(m, e)) && BearersKept(m, Step(m, e).mme, Target(m, e))
    ensures !ProcedureStep(e) ==> TablesGrow(m, Step(m, e).mme, Target(m, e))
  {
    hide OthersKept, Moves, Step, Target, IdsOk, TablesSized, BearersStay;
    if KeyStep(e) {
      KeyStepFrame(m, e);
    } else {
      StepMoves(m, e);
      MovesFrame(m, Step(m, e).mme, e);
    }
  }
}
