/** The MME application handles any message: the state it leaves is the one the step of the run gives,
    so what is proved of all runs holds of the objects. */
module MmeTaskRuns {
  import opened MmeTask
  import H = Handlers
  import I = Invariant
  import opened Runs

  method HandleKeys(mme: MmeApp, e: Event) returns (ok: bool)
    requires mme.Valid() && H.TablesSized(mme.model) && KeysStep(e)
    modifies mme, mme.ues.Values
    ensures ok == Step(old(mme.model), e).Done?
    ensures ok ==> mme.Valid() && mme.model == Step(old(mme.model), e).mme
  {
    hide H.TablesSized, MmeApp.Valid;
    hide H.InitialUe, H.SetValidImsi, H.ClearIdentities, H.NewGuti, H.EmmState, H.PdnConnectivity, H.LocationAns;
    ok := true;
    match e {
      case EvInitialUe(enbId, enbUeId, served) => ok := mme.InitialUe(enbId, enbUeId, served);
      case EvSetImsi(id, imsi) => mme.SetValidImsi(id, imsi);
      case EvClearIdentities(id) => mme.ClearIdentities(id);
      case EvNewGuti(id, guti) => mme.NewGuti(id, guti);
      case EvEmmState(id, state) => mme.EmmState(id, state);
      case EvPdnConnectivity(imsi, cid, teid) => ok := mme.PdnConnectivity(imsi, cid, teid);
      case EvLocationAns(imsi) => mme.LocationAns(imsi);
    }
  }

  method HandleTables(mme: MmeApp, e: Event) returns (ok: bool)
    requires mme.Valid() && H.TablesSized(mme.model) && TableStep(e)
    modifies mme, mme.ues.Values
    ensures ok == Step(old(mme.model), e).Done?
    ensures ok ==> mme.Valid() && mme.model == Step(old(mme.model), e).mme
  {
    hide H.TablesSized, MmeApp.Valid;
    hide H.PdnCreated, H.BearerCreated, H.EsmStatus, H.BearerS1Released, H.CreateSessionRsp, H.CreateBearerReq, H.DedicatedAnswer, H.ErabSetupRsp;
    ok := true;
    match e {
      case EvPdnCreated(id, cid, apn) => ok := mme.PdnCreated(id, cid, apn);
      case EvBearerCreated(id, cid, ebi, isDefault, qci) => ok := mme.BearerCreated(id, cid, ebi, isDefault, qci);
      case EvEsmStatus(id, ebi, status) => mme.EsmStatus(id, ebi, status);
      case EvBearerS1Released(id, ebi) => mme.BearerS1Released(id, ebi);
      case EvCreateSessionRsp(teid, accepted, sgwTeid, sessions) => ok := mme.CreateSessionRsp(teid, accepted, sgwTeid, sessions);
      case EvCreateBearerReq(teid, ebi, trxn, requests) => ok := mme.CreateBearerReq(teid, ebi, trxn, requests);
      case EvDedicatedAnswer(id, ebi, success) => ok := mme.DedicatedAnswer(id, ebi, success);
      case EvErabSetupRsp(id, ups, downs) => ok := mme.ErabSetupRsp(id, ups, downs);
    }
  }

  method HandleConnection(mme: MmeApp, e: Event) returns (ok: bool)
    requires mme.Valid() && H.TablesSized(mme.model) && ConnectionStep(e)
    modifies mme, mme.ues.Values
    ensures ok == Step(old(mme.model), e).Done?
    ensures ok ==> mme.Valid() && mme.model == Step(old(mme.model), e).mme
  {
    hide H.TablesSized, MmeApp.Valid;
    hide H.ConnEstCnf, H.NasDownlinkReq, H.ContextSetupRsp, H.ContextSetupFailure, H.TimerFires, H.TimerExpired, H.ModifyBearerRsp;
    ok := true;
    match e {
      case EvConnEstCnf(id, nas, setup) => mme.ConnEstCnf(id, nas, setup);
      case EvNasDownlink(id, success) => ok := mme.NasDownlinkReq(id, success);
      case EvContextSetupRsp(id) => mme.ContextSetupRsp(id);
      case EvContextSetupFailure(id) => mme.ContextSetupFailure(id);
      case EvTimerFires(timer) => mme.TimerFires(timer);
      case EvTimerExpired(timer, id, setup) => mme.TimerExpired(timer, id, setup);
      case EvModifyBearerRsp(teid) => mme.ModifyBearerRsp(teid);
    }
  }

  method HandleRelease(mme: MmeApp, e: Event) returns (ok: bool)
    requires mme.Valid() && H.TablesSized(mme.model) && ReleaseStep(e)
    modifies mme, mme.ues.Values
    ensures ok == Step(old(mme.model), e).Done?
    ensures ok ==> mme.Valid() && mme.model == Step(old(mme.model), e).mme
  {
    hide H.TablesSized, MmeApp.Valid;
    hide H.DeleteSessionRsp, H.ReleaseAccessBearersRsp, H.ReleaseReq, H.ReleaseComplete, H.DetachReq;
    ok := true;
    match e {
      case EvDeleteSessionRsp(teid) => mme.DeleteSessionRsp(teid);
      case EvReleaseAccessBearersRsp(teid, setup) => mme.ReleaseAccessBearersRsp(teid, setup);
      case EvReleaseReq(id, enbUeId, enbId, cause, setup) => mme.ReleaseReq(id, enbUeId, enbId, cause, setup);
      case EvReleaseComplete(id, setup) => mme.ReleaseComplete(id, setup);
      case EvDetachReq(id, setup) => mme.DetachReq(id, setup);
    }
  }

  /** One round of the application's loop: one message, whatever it is; false when the process ends. The
      invariant of all runs holds before and after. */
  method Handle(mme: MmeApp, e: Event) returns (ok: bool)
    requires mme.Valid() && I.Inv(mme.model, I.NOTHING) && Admissible(mme.model, e)
    modifies mme, mme.ues.Values
    ensures H.TablesSized(old(mme.model)) && ok == Step(old(mme.model), e).Done?
    ensures ok ==> mme.Valid() && mme.model == Step(old(mme.model), e).mme && I.Inv(mme.model, I.NOTHING)
  {
    StepKeeps(mme.model, e, I.NOTHING);
    hide H.TablesSized, I.Inv, Admissible, Step, MmeApp.Valid;
    if KeysStep(e) {
      ok := HandleKeys(mme, e);
    } else if TableStep(e) {
      ok := HandleTables(mme, e);
    } else if ConnectionStep(e) {
      ok := HandleConnection(mme, e);
    } else {
      ok := HandleRelease(mme, e);
    }
  }
}
