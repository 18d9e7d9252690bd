/** Runs of the MME application task: any sequence of messages, in any order, and what holds in
    every state it can reach. */
module Runs {
  import opened Common
  import opened UeModel
  import opened Registry
  import opened Handlers
  import opened Invariant
  import opened HandlerProofs
  import EnbKey
  import B = Bearers

  datatype Event =
    | EvInitialUe(enbId: nat, enbUeId: nat, served: Option<Guti>)
    | EvSetImsi(id: UeId, imsi: nat)
    | EvClearIdentities(id: UeId)
    | EvNewGuti(id: UeId, guti: Guti)
    | EvEmmState(id: UeId, state: MmState)
    | EvPdnCreated(id: UeId, cid: nat, apn: Option<(nat, B.Arp)>)
    | EvBearerCreated(id: UeId, cid: nat, ebi: nat, isDefault: bool, qci: nat)
    | EvEsmStatus(id: UeId, ebi: nat, status: B.EsmState)
    | EvBearerS1Released(id: UeId, ebi: nat)
    | EvPdnConnectivity(imsi: nat, cid: nat, teid: nat)
    | EvCreateSessionRsp(teid: nat, accepted: bool, sgwTeid: nat, sessions: seq<B.SessionBearer>)
    | EvModifyBearerRsp(teid: nat)
    | EvDeleteSessionRsp(teid: nat)
    | EvReleaseAccessBearersRsp(teid: nat, setup: TimerSetup)
    | EvCreateBearerReq(teid: nat, ebi: nat, trxn: nat, requests: seq<B.BearerRequest>)
    | EvDedicatedAnswer(id: UeId, ebi: nat, success: bool)
    | EvErabSetupRsp(id: UeId, ups: seq<B.ErabSetup>, downs: seq<nat>)
    | EvConnEstCnf(id: UeId, nas: B.NasPdu, setup: TimerSetup)
    | EvNasDownlink(id: UeId, success: bool)
    | EvContextSetupRsp(id: UeId)
    | EvContextSetupFailure(id: UeId)
    | EvReleaseReq(id: UeId, enbUeId: nat, enbId: nat, cause: Cause, setup: TimerSetup)
    | EvReleaseComplete(id: UeId, setup: TimerSetup)
    | EvDetachReq(id: UeId, setup: TimerSetup)
    | EvTimerFires(timer: TimerId)
    | EvTimerExpired(timer: TimerId, id: UeId, setup: TimerSetup)
    | EvLocationAns(imsi: nat)

  function Step(m: Mme, e: Event): (r: Outcome)
    requires TablesSized(m)
  {
    match e
    case EvInitialUe(enbId, enbUeId, served) => InitialUe(m, enbId, enbUeId, served)
    case EvSetImsi(id, imsi) => Done(SetValidImsi(m, id, imsi))
    case EvClearIdentities(id) => Done(ClearIdentities(m, id))
    case EvNewGuti(id, guti) => Done(NewGuti(m, id, guti))
    case EvEmmState(id, state) => Done(EmmState(m, id, state))
    case EvPdnCreated(id, cid, apn) => PdnCreated(m, id, cid, apn)
    case EvBearerCreated(id, cid, ebi, isDefault, qci) => BearerCreated(m, id, cid, ebi, isDefault, qci)
    case EvEsmStatus(id, ebi, status) => Done(EsmStatus(m, id, ebi, status))
    case EvBearerS1Released(id, ebi) => Done(BearerS1Released(m, id, ebi))
    case EvPdnConnectivity(imsi, cid, teid) => PdnConnectivity(m, imsi, cid, teid)
    case EvCreateSessionRsp(teid, accepted, sgwTeid, sessions) => CreateSessionRsp(m, teid, accepted, sgwTeid, sessions)
    case EvModifyBearerRsp(teid) => Done(ModifyBearerRsp(m, teid))
    case EvDeleteSessionRsp(teid) => Done(DeleteSessionRsp(m, teid))
    case EvReleaseAccessBearersRsp(teid, setup) => Done(ReleaseAccessBearersRsp(m, teid, setup))
    case EvCreateBearerReq(teid, ebi, trxn, requests) => CreateBearerReq(m, teid, ebi, trxn, requests)
    case EvDedicatedAnswer(id, ebi, success) => DedicatedAnswer(m, id, ebi, success)
    case EvErabSetupRsp(id, ups, downs) => ErabSetupRsp(m, id, ups, downs)
    case EvConnEstCnf(id, nas, setup) => Done(ConnEstCnf(m, id, nas, setup))
    case EvNasDownlink(id, success) => NasDownlinkReq(m, id, success)
    case EvContextSetupRsp(id) => Done(ContextSetupRsp(m, id))
    case EvContextSetupFailure(id) => Done(ContextSetupFailure(m, id))
    case EvReleaseReq(id, enbUeId, enbId, cause, setup) => Done(ReleaseReq(m, id, enbUeId, enbId, cause, setup))
    case EvReleaseComplete(id, setup) => Done(ReleaseComplete(m, id, setup))
    case EvDetachReq(id, setup) => Done(DetachReq(m, id, setup))
    case EvTimerFires(timer) => Done(TimerFires(m, timer))
    case EvTimerExpired(timer, id, setup) => Done(TimerExpired(m, timer, id, setup))
    case EvLocationAns(imsi) => Done(LocationAns(m, imsi))
  }

  /** What the MME relies on: identities the network hands out are not in use by another UE, eNB
      UE identities have 24 bits, and the timer service never numbers a timer -1. */
  ghost predicate Admissible(m: Mme, e: Event) {
    match e
    case EvInitialUe(enbId, enbUeId, served) =>
      && enbId < UINT32
      && enbUeId <= EnbKey.ENB_UE_S1AP_ID_MASK
      && (served.Some? && LookupGuti(m, served.value).Some? ==>
            Unowned(m.ues, EnbKeyOf, LookupGuti(m, served.value).value.id, EnbKey.Pack(enbId, enbUeId)))
    case EvSetImsi(id, imsi) => ImsiMayBeSet(m, id, imsi)
    case EvPdnConnectivity(imsi, cid, teid) =>
      LookupImsi(m, imsi).Some? && ValidTeid(teid) ==> Unowned(m.ues, TeidOf, LookupImsi(m, imsi).value.id, teid)
    case EvTimerExpired(timer, id, setup) => timer != INACTIVE
    case _ => true
  }

  /** What a step must not do to a watched fact: give a watched TEID out again, or let a release-complete
      message remove a context in the wrong state. */
  ghost predicate Respects(m: Mme, e: Event, w: Watch) {
    match e
    case EvPdnConnectivity(imsi, cid, teid) => teid != w.teid || w.teid == NO_TEID
    case EvReleaseComplete(id, setup) =>
      RemovedByRelease(m, id) ==>
        && (w.exact ==> m.ues[id].ecm == Connected || ConnectedIds(m.ues) == {})
        && (w.idleOnly ==> m.ues[id].ecm == Idle)
    case _ => true
  }

  /** Steps about the identities of a UE. */
  predicate KeysStep(e: Event) {
    e.EvInitialUe? || e.EvSetImsi? || e.EvClearIdentities? || e.EvNewGuti? || e.EvEmmState? || e.EvPdnConnectivity? || e.EvLocationAns?
  }

  lemma KeysStepKeeps(m: Mme, e: Event, w: Watch)
    requires Inv(m, w) && TablesSized(m) && Admissible(m, e) && Respects(m, e, w) && KeysStep(e)
    ensures Step(m, e).Done? ==> Inv(Step(m, e).mme, w)
  {
    hide Inv, TablesSized;
    hide InitialUe, SetValidImsi, ImsiMayBeSet, ClearIdentities, NewGuti, EmmState, PdnConnectivity, LocationAns;
    match e
    case EvInitialUe(enbId, enbUeId, served) => InitialUeKeeps(m, enbId, enbUeId, served, w);
    case EvSetImsi(id, imsi) => SetValidImsiKeeps(m, id, imsi, w);
    case EvClearIdentities(id) => ClearIdentitiesKeeps(m, id, w);
    case EvNewGuti(id, guti) => NewGutiKeeps(m, id, guti, w);
    case EvEmmState(id, state) => EmmStateKeeps(m, id, state, w);
    case EvPdnConnectivity(imsi, cid, teid) => PdnConnectivityKeeps(m, imsi, cid, teid, w);
    case EvLocationAns(imsi) => LocationAnsKeeps(m, imsi, w);
  }

  /** Steps about the bearers of a UE. */
  predicate TableStep(e: Event) {
    || e.EvPdnCreated? || e.EvBearerCreated? || e.EvEsmStatus? || e.EvBearerS1Released? || e.EvCreateSessionRsp?
    || e.EvCreateBearerReq? || e.EvDedicatedAnswer? || e.EvErabSetupRsp?
  }

  lemma TableStepKeeps(m: Mme, e: Event, w: Watch)
    requires Inv(m, w) && TablesSized(m) && Admissible(m, e) && Respects(m, e, w) && TableStep(e)
    ensures Step(m, e).Done? ==> Inv(Step(m, e).mme, w)
  {
    hide Inv, TablesSized;
    hide PdnCreated, BearerCreated, EsmStatus, BearerS1Released, CreateSessionRsp, CreateBearerReq, DedicatedAnswer, ErabSetupRsp;
    match e
    case EvPdnCreated(id, cid, apn) => PdnCreatedKeeps(m, id, cid, apn, w);
    case EvBearerCreated(id, cid, ebi, isDefault, qci) => BearerCreatedKeeps(m, id, cid, ebi, isDefault, qci, w);
    case EvEsmStatus(id, ebi, status) => EsmStatusKeeps(m, id, ebi, status, w);
    case EvBearerS1Released(id, ebi) => BearerS1ReleasedKeeps(m, id, ebi, w);
    case EvCreateSessionRsp(teid, accepted, sgwTeid, sessions) => CreateSessionRspKeeps(m, teid, accepted, sgwTeid, sessions, w);
    case EvCreateBearerReq(teid, ebi, trxn, requests) => CreateBearerReqKeeps(m, teid, ebi, trxn, requests, w);
    case EvDedicatedAnswer(id, ebi, success) => DedicatedAnswerKeeps(m, id, ebi, success, w);
    case EvErabSetupRsp(id, ups, downs) => ErabSetupRspKeeps(m, id, ups, downs, w);
  }

  /** Steps about the connection of a UE. */
  predicate ConnectionStep(e: Event) {
    || e.EvConnEstCnf? || e.EvNasDownlink? || e.EvContextSetupRsp? || e.EvContextSetupFailure?
    || e.EvTimerFires? || e.EvTimerExpired? || e.EvModifyBearerRsp?
  }

  lemma ConnectionStepKeeps(m: Mme, e: Event, w: Watch)
    requires Inv(m, w) && TablesSized(m) && Admissible(m, e) && Respects(m, e, w) && ConnectionStep(e)
    ensures Step(m, e).Done? ==> Inv(Step(m, e).mme, w)
  {
    hide Inv, TablesSized;
    hide ConnEstCnf, NasDownlinkReq, ContextSetupRsp, ContextSetupFailure, TimerExpired, ModifyBearerRsp;
    match e
    case EvConnEstCnf(id, nas, setup) => ConnEstCnfKeeps(m, id, nas, setup, w);
    case EvNasDownlink(id, success) => NasDownlinkReqKeeps(m, id, success, w);
    case EvContextSetupRsp(id) => ContextSetupRspKeeps(m, id, w);
    case EvContextSetupFailure(id) => ContextSetupFailureKeeps(m, id, w);
    case EvTimerFires(timer) => FrameKeeps(m, TimerFires(m, timer), w);
    case EvTimerExpired(timer, id, setup) => TimerExpiredKeeps(m, timer, id, setup, w);
    case EvModifyBearerRsp(teid) => ModifyBearerRspKeeps(m, teid, w);
  }

  /** Steps about the release of a UE. */
  predicate ReleaseStep(e: Event) {
    e.EvDeleteSessionRsp? || e.EvReleaseAccessBearersRsp? || e.EvReleaseReq? || e.EvReleaseComplete? || e.EvDetachReq?
  }

  lemma ReleaseStepKeeps(m: Mme, e: Event, w: Watch)
    requires Inv(m, w) && TablesSized(m) && Admissible(m, e) && Respects(m, e, w) && ReleaseStep(e)
    ensures Step(m, e).Done? ==> Inv(Step(m, e).mme, w)
  {
    hide Inv, TablesSized;
    hide DeleteSessionRsp, ReleaseAccessBearersRsp, ReleaseReq, ReleaseComplete, DetachReq;
    match e
    case EvDeleteSessionRsp(teid) => DeleteSessionRspKeeps(m, teid, w);
    case EvReleaseAccessBearersRsp(teid, setup) => ReleaseAccessBearersRspKeeps(m, teid, setup, w);
    case EvReleaseReq(id, enbUeId, enbId, cause, setup) => ReleaseReqKeeps(m, id, enbUeId, enbId, cause, setup, w);
    case EvReleaseComplete(id, setup) => ReleaseCompleteKeeps(m, id, setup, w);
    case EvDetachReq(id, setup) => DetachReqKeeps(m, id, setup, w);
  }

  /** Every step keeps the invariant. */
  lemma StepKeeps(m: Mme, e: Event, w: Watch)
    requires Inv(m, w) && Admissible(m, e) && Respects(m, e, w)
    ensures TablesSized(m)
    ensures Step(m, e).Done? ==> Inv(Step(m, e).mme, w)
  {
    InvSized(m, w);
    hide Inv, TablesSized, Step, Admissible, Respects;
    if KeysStep(e) {
      KeysStepKeeps(m, e, w);
    } else if TableStep(e) {
      TableStepKeeps(m, e, w);
    } else if ConnectionStep(e) {
      ConnectionStepKeeps(m, e, w);
    } else {
      ReleaseStepKeeps(m, e, w);
    }
  }

  // ---------------------------------------------------------------- runs

  /** A run from the empty MME in which no handler ends the process. */
  ghost predicate IsRun(periodicTau: bool, states: seq<Mme>, events: seq<Event>) {
    && |states| == |events| + 1
    && states[0] == Start(periodicTau)
    && (forall i :: 0 <= i < |states| ==> TablesSized(states[i]))
    && (forall i :: 0 <= i < |events| ==> Admissible(states[i], events[i]) && Step(states[i], events[i]) == Done(states[i + 1]))
  }

  lemma RunStarts(periodicTau: bool)
    ensures IsRun(periodicTau, [Start(periodicTau)], [])
  {
  }

  lemma RunExtends(periodicTau: bool, states: seq<Mme>, events: seq<Event>, e: Event, m': Mme)
    requires IsRun(periodicTau, states, events) && Admissible(states[|events|], e) && TablesSized(m')
    requires Step(states[|events|], e) == Done(m')
    ensures IsRun(periodicTau, states + [m'], events + [e])
  {
    hide Step, Admissible, TablesSized, Start;
  }

  lemma StartOk(periodicTau: bool)
    ensures Inv(Start(periodicTau), NOTHING.(exact := true))
  {
  }

  /** The steps from state i up to state j respect what is watched. */
  ghost predicate RespectsFrom(states: seq<Mme>, events: seq<Event>, i: nat, j: nat, w: Watch)
    requires |states| == |events| + 1 && i <= j < |states|
  {
    forall k :: i <= k < j ==> Respects(states[k], events[k], w)
  }

  lemma RunStep(periodicTau: bool, states: seq<Mme>, events: seq<Event>, i: nat)
    requires IsRun(periodicTau, states, events) && i < |events|
    ensures TablesSized(states[i]) && Admissible(states[i], events[i])
    ensures Step(states[i], events[i]) == Done(states[i + 1])
  {
    hide Step, Admissible, TablesSized, Start;
  }

  lemma {:induction false} WatchFrom(periodicTau: bool, states: seq<Mme>, events: seq<Event>, i: nat, j: nat, w: Watch)
    requires IsRun(periodicTau, states, events) && i <= j < |states|
    requires Inv(states[i], w) && RespectsFrom(states, events, i, j, w)
    ensures Inv(states[j], w)
  {
    hide Inv, TablesSized, Step, Admissible, Respects, Start;
    if i < j {
      WatchFrom(periodicTau, states, events, i, j - 1, w);
      RunStep(periodicTau, states, events, j - 1);
      StepKeeps(states[j - 1], events[j - 1], w);
    }
  }

  lemma Unwatched(m: Mme, w: Watch)
    requires Inv(m, w)
    ensures Inv(m, NOTHING)
  {
    hide IndexOk, UesOk, HistoryOk;
  }

  /** Every reachable state satisfies the invariant. */
  lemma RunInv(periodicTau: bool, states: seq<Mme>, events: seq<Event>, i: nat)
    requires IsRun(periodicTau, states, events) && i < |states|
    ensures Inv(states[i], NOTHING)
  {
    hide Inv, Step, TablesSized;
    StartOk(periodicTau);
    Unwatched(states[0], NOTHING.(exact := true));
    WatchFrom(periodicTau, states, events, 0, i, NOTHING);
  }
}
