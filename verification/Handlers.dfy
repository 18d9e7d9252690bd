/** Every message handler of the MME application task as a function of the state: the branches,
    the order of the checks and the error returns are those of the handlers. */
module Handlers {
  import opened Common
  import opened UeModel
  import opened Registry
  import EnbKey
  import B = Bearers

  /** The state of an MME that has just started. */
  function Start(periodicTau: bool): (m: Mme) {
    Mme(map[], map[], map[], map[], map[], 1, 0, {}, periodicTau, Stats(0, 0, 0, 0), [], [])
  }

  // ---------------------------------------------------------------- counters

  function Minus(n: nat): (r: nat) { if n != 0 then n - 1 else 0 }

  function AddConnected(m: Mme): (m': Mme) { m.(stats := m.stats.(connected := m.stats.connected + 1)) }
  function SubConnected(m: Mme): (m': Mme) { m.(stats := m.stats.(connected := Minus(m.stats.connected))) }
  function AddAttached(m: Mme): (m': Mme) { m.(stats := m.stats.(attached := m.stats.attached + 1)) }
  function SubAttached(m: Mme): (m': Mme) { m.(stats := m.stats.(attached := Minus(m.stats.attached))) }
  function AddS1u(m: Mme): (m': Mme) { m.(stats := m.stats.(s1uBearers := m.stats.s1uBearers + 1)) }
  function SubS1u(m: Mme): (m': Mme) { m.(stats := m.stats.(s1uBearers := Minus(m.stats.s1uBearers))) }
  function SubDefault(m: Mme): (m': Mme) { m.(stats := m.stats.(defaultBearers := Minus(m.stats.defaultBearers))) }
  function AddDefault(m: Mme, n: nat): (m': Mme) {
    m.(stats := m.stats.(defaultBearers := m.stats.defaultBearers + n))
  }

  function Send(m: Mme, msgs: seq<Message>): (m': Mme) { m.(sent := m.sent + msgs) }

  // ---------------------------------------------------------------- signalling connection

  /** The number `timer_setup` leaves in the context. */
  function TimerSet(t: TimerSetup): (id: TimerId) {
    match t case Started(id) => id case Failed => INACTIVE
  }

  function Armed(armed: set<TimerId>, t: TimerSetup): (armed': set<TimerId>) {
    match t case Started(id) => armed + {id} case Failed => armed
  }

  function ToIdle(u: Ue, periodicTau: bool, t: TimerSetup): (u': Ue) {
    u.(enbKey := INVALID_ENB_KEY, reach := if periodicTau then TimerSet(t) else u.reach, ecm := Idle)
  }

  /** `mme_ue_context_update_ue_sig_connection_state` with ECM_IDLE. */
  function SigIdle(m: Mme, u: Ue, t: TimerSetup): (m': Mme) {
    var m1 := m.(byEnb := m.byEnb - {u.enbKey},
                 ues := m.ues[u.id := ToIdle(u, m.periodicTau, t)],
                 armed := if m.periodicTau then Armed(m.armed, t) else m.armed);
    if u.ecm == Connected then SubConnected(m1) else m1
  }

  function ToConnected(u: Ue): (u': Ue) {
    if u.ecm == Connected then u else u.(ecm := Connected, reach := INACTIVE, detach := INACTIVE)
  }

  /** `mme_ue_context_update_ue_sig_connection_state` with ECM_CONNECTED. */
  function SigConnected(m: Mme, u: Ue): (m': Mme) {
    if u.ecm == Connected then m
    else
      AddConnected(m.(ues := m.ues[u.id := ToConnected(u)],
                      armed := StopTimer(StopTimer(m.armed, u.reach), u.detach)))
  }

  // ---------------------------------------------------------------- messages to the gateway

  /** A delete-session request for every one of the first n PDN connections that exists. */
  function DeleteSessions(u: Ue, n: nat): (msgs: seq<Message>)
    requires n <= |u.tables.pdns|
  {
    if n == 0 then []
    else DeleteSessions(u, n - 1) +
         (if u.tables.pdns[n - 1].Some?
          then [DeleteSessionReq(u.teid, u.tables.pdns[n - 1].value.sgwTeid, u.tables.pdns[n - 1].value.defaultEbi)]
          else [])
  }

  /** A release-access-bearers request for every one of the first n PDN connections that exists. */
  function ReleaseBearers(u: Ue, n: nat): (msgs: seq<Message>)
    requires n <= |u.tables.pdns|
  {
    if n == 0 then []
    else ReleaseBearers(u, n - 1) +
         (if u.tables.pdns[n - 1].Some? then [ReleaseAccessBearersReq(u.teid, u.tables.pdns[n - 1].value.sgwTeid)] else [])
  }

  // ---------------------------------------------------------------- initial UE message

  function NewUe(serial: nat, id: UeId): (u: Ue) {
    Ue(serial, id, INVALID_ENB_KEY, 0, INVALID_IMSI, NO_TEID, CLEARED_GUTI, Unregistered, Idle, InvalidCause,
       INACTIVE, INACTIVE, INACTIVE, 0, B.EmptyTables())
  }

  function ResetTimers(u: Ue): (u': Ue) {
    u.(reach := INACTIVE, detach := INACTIVE, setup := INACTIVE)
  }

  /** The state once the context of a returning UE has lost its old eNB key. */
  function Forgotten(m: Mme, u: Ue, enbUeId: nat): (m': Mme) {
    m.(byEnb := if ValidEnbKey(u.enbKey) then m.byEnb - {u.enbKey} else m.byEnb,
       ues := m.ues[u.id := u.(enbKey := INVALID_ENB_KEY, enbUeId := enbUeId)])
  }

  /** A known UE comes back over a new radio connection; the GUTI led to its context. */
  function Reconnect(m: Mme, u: Ue, enbId: nat, enbUeId: nat, guti: Guti): (m': Mme) {
    var u1 := u.(enbKey := INVALID_ENB_KEY, enbUeId := enbUeId);
    var m1 := Forgotten(m, u, enbUeId);
    var key := EnbKey.Pack(enbId, enbUeId);
    Send(PutUe(CollKeys(m1, u1, key, u.imsi, u.teid, guti), ResetTimers(Rekeyed(u1, key, u.imsi, u.teid, guti))),
         [UeIdNotification(u.id, enbUeId)])
  }

  /** A new context. Its number comes from a 32-bit generator; 0 means the generator is spent. */
  function Attach(m: Mme, enbId: nat, enbUeId: nat): (r: Outcome) {
    var m1 := m.(generator := (m.generator + 1) % UINT32, created := m.created + 1);
    var u := NewUe(m.created, m.generator);
    if u.id == INVALID_UE_ID then Done(Remove(m1, u))
    else
      var v := u.(enbUeId := enbUeId, enbKey := EnbKey.Pack(enbId, enbUeId));
      if InsertOk(m1, v) then Done(Send(Insert(m1, v), [UeIdNotification(v.id, enbUeId)])) else Abort
  }

  /** `served` is the GUTI built from the S-TMSI when this MME serves it. */
  function InitialUe(m: Mme, enbId: nat, enbUeId: nat, served: Option<Guti>): (r: Outcome) {
    var found := if served.Some? then LookupGuti(m, served.value) else None;
    if found.Some? then Done(Reconnect(m, found.value, enbId, enbUeId, served.value))
    else Attach(m, enbId, enbUeId)
  }

  // ---------------------------------------------------------------- NAS notifications

  function NotifyImsi(m: Mme, id: UeId, imsi: nat): (m': Mme) {
    match Lookup(m, id)
    case None => m
    case Some(u) => CollKeys(m, u, u.enbKey, imsi, u.teid, u.guti)
  }

  /** NAS gives the UE a new GUTI: the registry is told, then the field is written, also when the
      registry has found only the MNC to differ and has done nothing. The code asks the registry for the
      context its IMSI leads to; for a valid IMSI that is the UE's own. */
  function NewGuti(m: Mme, id: UeId, guti: Guti): (m': Mme) {
    match Lookup(m, id)
    case None => m
    case Some(u) => PutUe(CollKeys(m, u, u.enbKey, u.imsi, u.teid, guti), u.(guti := guti))
  }

  /** `emm_ctx_set_valid_imsi`: the field is written before the registry is told. */
  function SetValidImsi(m: Mme, id: UeId, imsi: nat): (m': Mme) {
    match Lookup(m, id)
    case None => m
    case Some(u) => NotifyImsi(PutUe(m, u.(imsi := imsi)), id, imsi)
  }

  /** What the NAS detach procedure does to the context's identities; no table is told. */
  function ClearIdentities(m: Mme, id: UeId): (m': Mme) {
    match Lookup(m, id)
    case None => m
    case Some(u) => PutUe(m, u.(imsi := INVALID_IMSI, guti := CLEARED_GUTI))
  }

  function EmmState(m: Mme, id: UeId, state: MmState): (m': Mme) {
    match Lookup(m, id)
    case None => m
    case Some(u) =>
      if u.mm == Unregistered && state == Registered then AddAttached(PutUe(m, u.(mm := state)))
      else if u.mm == Registered && state == Unregistered then SubAttached(PutUe(m, u.(mm := state)))
      else m
  }

  function PdnCreated(m: Mme, id: UeId, cid: nat, apn: Option<(nat, B.Arp)>): (r: Outcome) {
    match Lookup(m, id)
    case None => Done(m)
    case Some(u) =>
      if cid >= |u.tables.pdns| then Abort else Done(PutUe(m, u.(tables := B.CreatePdn(u.tables, cid, apn))))
  }

  function BearerCreated(m: Mme, id: UeId, cid: nat, ebi: nat, isDefault: bool, qci: nat): (r: Outcome)
    requires TablesSized(m)
  {
    match Lookup(m, id)
    case None => Done(m)
    case Some(u) =>
      match B.NasCreateBearer(u.tables, cid, ebi, isDefault, qci)
      case None => Abort
      case Some(t) => Done(PutUe(m, u.(tables := t)))
  }

  function EsmStatus(m: Mme, id: UeId, ebi: nat, status: B.EsmState): (m': Mme)
    requires TablesSized(m)
  {
    match Lookup(m, id)
    case None => m
    case Some(u) => PutUe(m, u.(tables := B.SetEsmStatus(u.tables, ebi, status)))
  }

  function BearerS1Released(m: Mme, id: UeId, ebi: nat): (m': Mme)
    requires TablesSized(m)
  {
    match Lookup(m, id)
    case None => m
    case Some(u) => PutUe(m, u.(tables := B.S1Release(u.tables, ebi)))
  }

  ghost predicate TablesSized(m: Mme) {
    forall id :: id in m.ues ==> B.WellSized(m.ues[id].tables)
  }

  // ---------------------------------------------------------------- sessions

  /** `teid` is the number the new tunnel gets: the low half of the context's address. */
  function PdnConnectivity(m: Mme, imsi: nat, cid: nat, teid: nat): (r: Outcome)
    requires TablesSized(m)
  {
    match LookupImsi(m, imsi)
    case None => Done(m)
    case Some(u) =>
      var t := B.StartSession(u.tables, cid);
      if t.None? then Abort
      else
        var u1 := u.(tables := t.value);
        Done(Send(CollKeys(PutUe(m, u1), u1, u1.enbKey, u1.imsi, teid, u1.guti),
                  [CreateSessionReq(u.imsi, teid, u.tables.pdns[cid].value.defaultEbi)]))
  }

  function CreateSessionRsp(m: Mme, teid: nat, accepted: bool, sgwTeid: nat, ms: seq<B.SessionBearer>): (r: Outcome)
    requires TablesSized(m)
  {
    match LookupTeid(m, teid)
    case None => Done(m)
    case Some(u) =>
      if !accepted then Done(Send(m, [PdnConnectivityFail(u.id)]))
      else
        var t := B.SessionsCreated(u.tables, sgwTeid, ms, |ms|);
        if t.None? || ms == [] then Abort
        else
          var first := B.GetBearer(u.tables, ms[0].ebi);
          var cid := if first.Some? then first.value.pdnCxId else 0;
          Done(Send(AddDefault(PutUe(m, u.(tables := t.value)), |ms|),
                    [PdnConnectivityRsp(u.id, cid, ms[|ms| - 1].ebi)]))
  }

  function ModifyBearerRsp(m: Mme, teid: nat): (m': Mme) {
    match LookupTeid(m, teid)
    case None => m
    case Some(u) => AddS1u(m)
  }

  /** The context gives up its S11 tunnel. */
  function DropTeid(m: Mme, u: Ue): (m': Mme) {
    m.(byTeid := m.byTeid - {u.teid}, ues := m.ues[u.id := u.(teid := NO_TEID)])
  }

  function DeleteSessionRsp(m: Mme, teid: nat): (m': Mme) {
    match LookupTeid(m, teid)
    case None => m
    case Some(u) =>
      var m1 := SubDefault(SubS1u(DropTeid(m, u)));
      var u1 := u.(teid := NO_TEID);
      if u.ecm == Idle then
        Remove(Send(m1, [S1ReleaseCommand(u.id, u.enbUeId, ImplicitRelease)]), u1.(relCause := ImplicitRelease))
      else
        var cause := if u.relCause == InvalidCause then NasDetach else u.relCause;
        Send(PutUe(m1, u1.(relCause := InvalidCause)), [S1ReleaseCommand(u.id, u.enbUeId, cause)])
  }

  function ReleaseAccessBearersRsp(m: Mme, teid: nat, t: TimerSetup): (m': Mme) {
    match LookupTeid(m, teid)
    case None => m
    case Some(u) =>
      var m1 := Send(SubS1u(m), [S1ReleaseCommand(u.id, u.enbUeId, u.relCause)]);
      if u.relCause == SctpReset then SigIdle(m1, u, t) else m1
  }

  // ---------------------------------------------------------------- dedicated bearers

  /** One request to NAS for every one of the first n bearer contexts of a create-bearer request. */
  function DedicatedReqs(u: Ue, cid: nat, trxn: nat, ms: seq<B.BearerRequest>, n: nat): (msgs: seq<Message>)
    requires B.WellSized(u.tables) && cid < B.MAX_APN_PER_UE && u.tables.pdns[cid].Some? && n <= |ms|
  {
    if n == 0 then []
    else
      var r := B.RequestBearers(B.StartProc(u.tables, trxn), cid, ms, n - 1);
      DedicatedReqs(u, cid, trxn, ms, n - 1) +
      (if r.None? then []
       else [DedicatedBearerReq(u.id, cid, B.ResolveEbi(r.value, ms[n - 1].ebi), u.tables.pdns[cid].value.defaultEbi)])
  }

  function CreateBearerReq(m: Mme, teid: nat, linkedEbi: nat, trxn: nat, ms: seq<B.BearerRequest>): (r: Outcome)
    requires TablesSized(m)
  {
    match LookupTeid(m, teid)
    case None => Done(m)
    case Some(u) =>
      var linked := B.GetBearer(u.tables, linkedEbi);
      if linked.None? then Done(m)
      else
        var cid := linked.value.pdnCxId;
        if !(0 <= cid < B.MAX_APN_PER_UE) || u.tables.pdns[cid].None? then Abort
        else
          var t := B.RequestBearers(B.StartProc(u.tables, trxn), cid, ms, |ms|);
          if t.None? then Abort
          else Done(Send(PutUe(m, u.(tables := t.value)), DedicatedReqs(u, cid, trxn, ms, |ms|)))
  }

  function DedicatedAnswer(m: Mme, id: UeId, ebi: nat, success: bool): (r: Outcome)
    requires TablesSized(m)
  {
    match Lookup(m, id)
    case None => Done(m)
    case Some(u) =>
      match B.Answer(u.tables, ebi, success)
      case None => Abort
      case Some(a) =>
        Done(Send(PutUe(m, u.(tables := a.t)),
                  if a.sent.Some? then [CreateBearerRsp(u.teid, a.sent.value)] else []))
  }

  function ErabSetupRsp(m: Mme, id: UeId, ups: seq<B.ErabSetup>, downs: seq<nat>): (r: Outcome)
    requires TablesSized(m)
  {
    match Lookup(m, id)
    case None => Done(m)
    case Some(u) =>
      match B.ErabSetupRsp(u.tables, ups, downs)
      case None => Abort
      case Some(r) =>
        Done(Send(PutUe(m, u.(tables := r.0)), if r.1.Some? then [CreateBearerRsp(u.teid, r.1.value)] else []))
  }

  // ---------------------------------------------------------------- connection

  /** Start the timer that guards the initial context setup. */
  function StartSetup(m: Mme, u: Ue, t: TimerSetup): (m': Mme) {
    m.(ues := m.ues[u.id := u.(setup := TimerSet(t))], armed := Armed(m.armed, t))
  }

  function ConnEstCnf(m: Mme, id: UeId, nas: B.NasPdu, t: TimerSetup): (m': Mme)
    requires TablesSized(m)
  {
    match Lookup(m, id)
    case None => m
    case Some(u) =>
      var erabs := B.Erabs(u.tables.bearers, B.BEARERS_PER_UE);
      StartSetup(SigConnected(Send(m, [ConnectionEstablishment(id, erabs, if erabs == [] then None else Some(nas))]), u),
                 ToConnected(u), t)
  }

  function NasDownlinkReq(m: Mme, id: UeId, success: bool): (r: Outcome) {
    match Lookup(m, id)
    case None => Abort
    case Some(u) =>
      var m1 := SigConnected(Send(m, [NasDownlink(id, u.enbUeId)]), u);
      if success then Done(m1)
      else
        Done(Send(PutUe(m1, ToConnected(u).(relCause := NasNormalRelease)),
                  [S1ReleaseCommand(u.id, u.enbUeId, NasNormalRelease)]))
  }

  function StopSetup(m: Mme, u: Ue): (m': Mme) {
    m.(ues := m.ues[u.id := u.(setup := INACTIVE)], armed := StopTimer(m.armed, u.setup))
  }

  function ContextSetupRsp(m: Mme, id: UeId): (m': Mme) {
    match Lookup(m, id)
    case None => m
    case Some(u) => StopSetup(m, u)
  }

  /** Give up on the ongoing procedure: detach a UE that is not registered, otherwise release its
      bearers. */
  function AbortProcedure(m: Mme, u: Ue): (m': Mme)
    requires |u.tables.pdns| == B.MAX_APN_PER_UE
  {
    Send(PutUe(m, u.(relCause := InitialContextSetupFailed)),
         if u.mm == Unregistered then [ImplicitDetachInd(u.id)] else ReleaseBearers(u, B.MAX_APN_PER_UE))
  }

  function ContextSetupFailure(m: Mme, id: UeId): (m': Mme)
    requires TablesSized(m)
  {
    match Lookup(m, id)
    case None => m
    case Some(u) => AbortProcedure(StopSetup(m, u), u.(setup := INACTIVE))
  }

  // ---------------------------------------------------------------- release

  function FindForRelease(m: Mme, id: UeId, enbUeId: nat, enbId: nat): (r: Option<Ue>) {
    if Lookup(m, id).Some? then Lookup(m, id) else LookupEnb(m, EnbKey.Pack(enbId, enbUeId))
  }

  function ReleaseReq(m: Mme, id: UeId, enbUeId: nat, enbId: nat, cause: Cause, t: TimerSetup): (m': Mme)
    requires TablesSized(m)
  {
    match FindForRelease(m, id, enbUeId, enbId)
    case None => m
    case Some(u) =>
      var u1 := u.(relCause := cause);
      var m1 := PutUe(m, u1);
      if u.ecm == Idle then
        if cause == SctpReset then Send(SigIdle(m1, u1, t), [S1ReleaseCommand(u.id, u.enbUeId, cause)]) else m1
      else
        var u2 := if u.setup != INACTIVE
                  then u1.(setup := INACTIVE, relCause := InitialContextSetupFailed) else u1;
        var m2 := m1.(ues := m1.ues[u.id := u2], armed := StopTimer(m1.armed, u.setup));
        Send(m2, if u.mm == Unregistered then [ImplicitDetachInd(u.id)] else ReleaseBearers(u2, B.MAX_APN_PER_UE))
  }

  function ReleaseComplete(m: Mme, id: UeId, t: TimerSetup): (m': Mme)
    requires TablesSized(m)
  {
    match Lookup(m, id)
    case None => m
    case Some(u) =>
      var u1 := u.(tables := B.DeleteProc(u.tables));
      var m1 := PutUe(m, u1);
      if u.mm == Unregistered then
        if u.teid == NO_TEID && u.activePdns == 0 then SubConnected(Remove(m1, u1))
        else SigIdle(Send(m1, DeleteSessions(u1, B.MAX_APN_PER_UE)), u1, t)
      else SigIdle(m1, u1, t)
  }

  /** A connected UE without session: the eNB is told to release it; after an SCTP reset nobody
      will answer, so the context goes at once. */
  function DetachConnected(m: Mme, u: Ue, t: TimerSetup): (m': Mme) {
    var cause := if u.relCause == InvalidCause then NasDetach else u.relCause;
    var u1 := u.(relCause := cause);
    var m1 := Send(PutUe(m, u1), [S1ReleaseCommand(u.id, u.enbUeId, cause)]);
    if cause == SctpReset then Remove(SigIdle(m1, u1, t), ToIdle(u1, m.periodicTau, t))
    else PutUe(m1, u1.(relCause := InvalidCause))
  }

  function DetachReq(m: Mme, id: UeId, t: TimerSetup): (m': Mme)
    requires TablesSized(m)
  {
    match Lookup(m, id)
    case None => m
    case Some(u) =>
      if u.teid == NO_TEID && u.activePdns == 0 then
        if u.ecm == Idle then
          Remove(Send(m, [S1ReleaseCommand(u.id, u.enbUeId, ImplicitRelease)]), u.(relCause := ImplicitRelease))
        else DetachConnected(m, u, t)
      else Send(m, DeleteSessions(u, B.MAX_APN_PER_UE))
  }

  // ---------------------------------------------------------------- timers

  /** The timer service fires a one-shot timer; the notice is delivered later. */
  function TimerFires(m: Mme, timer: TimerId): (m': Mme) { m.(armed := m.armed - {timer}) }

  function TimerExpired(m: Mme, timer: TimerId, id: UeId, t: TimerSetup): (m': Mme)
    requires TablesSized(m)
  {
    match Lookup(m, id)
    case None => m
    case Some(u) =>
      if timer == u.reach then
        m.(ues := m.ues[id := u.(reach := INACTIVE, detach := TimerSet(t))], armed := Armed(m.armed, t))
      else if timer == u.detach then
        Send(PutUe(m, u.(detach := INACTIVE)), [ImplicitDetachInd(u.id)])
      else if timer == u.setup then AbortProcedure(m, u.(setup := INACTIVE))
      else m
  }

  /** The subscription has arrived from the HSS; the idle timers get their durations. */
  function LocationAns(m: Mme, imsi: nat): (m': Mme) {
    match LookupImsi(m, imsi)
    case None => m
    case Some(u) => PutUe(m, u.(reach := INACTIVE, detach := INACTIVE))
  }
}
