/** What every step does, told by what it is done to: one table each for the messages, the counters, the
    timers and the fields of a context, over all kinds of step. */
module StepLaws {
  import opened Common
  import opened UeModel
  import opened Registry
  import opened Handlers
  import opened Invariant
  import opened Runs
  import opened StepFrames
  import opened CreateBearerFanIn
  import EnbKey
  import B = Bearers

  // ---------------------------------------------------------------- when

  predicate NoSession(u: Ue) { u.teid == NO_TEID && u.activePdns == 0 }

  /** The step removes the context. */
  predicate Ends(u: Ue, e: Event) {
    || (e.EvDeleteSessionRsp? && u.ecm == Idle)
    || (e.EvReleaseComplete? && u.mm == Unregistered && NoSession(u))
    || (e.EvDetachReq? && NoSession(u) && (u.ecm == Idle || u.relCause == SctpReset))
  }

  /** The step ends the S1 connection of a context that stays. */
  predicate GoesIdle(u: Ue, e: Event) {
    || (e.EvReleaseComplete? && !Ends(u, e))
    || (e.EvReleaseAccessBearersRsp? && u.relCause == SctpReset)
    || (e.EvReleaseReq? && u.ecm == Idle && e.cause == SctpReset)
  }

  predicate Signals(e: Event) { e.EvConnEstCnf? || e.EvNasDownlink? }

  /** The three expiries, told apart in this order. */
  predicate ReachExpires(u: Ue, e: Event) { e.EvTimerExpired? && e.timer == u.reach }
  predicate DetachExpires(u: Ue, e: Event) { e.EvTimerExpired? && e.timer != u.reach && e.timer == u.detach }
  predicate SetupExpires(u: Ue, e: Event) {
    e.EvTimerExpired? && e.timer != u.reach && e.timer != u.detach && e.timer == u.setup
  }

  /** What is done about an initial context setup that has failed. */
  predicate SetupFails(u: Ue, e: Event) { e.EvContextSetupFailure? || SetupExpires(u, e) }

  // ---------------------------------------------------------------- fields

  function TeidAfter(u: Ue, e: Event): (teid: nat) {
    if e.EvPdnConnectivity? then e.teid else if e.EvDeleteSessionRsp? then NO_TEID else u.teid
  }

  function ImsiAfter(u: Ue, e: Event): (imsi: nat) {
    if e.EvSetImsi? then e.imsi else if e.EvClearIdentities? then INVALID_IMSI else u.imsi
  }

  function GutiAfter(u: Ue, e: Event): (guti: Guti) {
    if e.EvNewGuti? then e.guti
    else if e.EvClearIdentities? then CLEARED_GUTI
    else if e.EvInitialUe? && e.served.Some? && !SameGutiButMnc(e.served.value, u.guti) then e.served.value
    else u.guti
  }

  function EcmAfter(u: Ue, e: Event): (ecm: EcmState) {
    if Signals(e) then Connected else if GoesIdle(u, e) then Idle else u.ecm
  }

  function EnbKeyAfter(u: Ue, e: Event): (key: nat) {
    if e.EvInitialUe? then EnbKey.Pack(e.enbId, e.enbUeId) else if GoesIdle(u, e) then INVALID_ENB_KEY else u.enbKey
  }

  function CauseAfter(u: Ue, e: Event): (cause: Cause) {
    if e.EvDeleteSessionRsp? || (e.EvDetachReq? && NoSession(u)) then InvalidCause
    else if e.EvNasDownlink? && !e.success then NasNormalRelease
    else if SetupFails(u, e) then InitialContextSetupFailed
    else if e.EvReleaseReq? then
      if u.ecm == Connected && u.setup != INACTIVE then InitialContextSetupFailed else e.cause
    else u.relCause
  }

  /** What a timer number becomes when the timer is started. */
  function Number(t: TimerSetup): (id: TimerId) { if t.Started? then t.id else INACTIVE }

  function ReachAfter(u: Ue, e: Event, periodicTau: bool): (timer: TimerId) {
    if GoesIdle(u, e) && periodicTau then Number(e.setup)
    else if (Signals(e) && u.ecm == Idle) || e.EvInitialUe? || e.EvLocationAns? || ReachExpires(u, e) then INACTIVE
    else u.reach
  }

  function DetachAfter(u: Ue, e: Event): (timer: TimerId) {
    if ReachExpires(u, e) then Number(e.setup)
    else if (Signals(e) && u.ecm == Idle) || e.EvInitialUe? || e.EvLocationAns? || DetachExpires(u, e) then INACTIVE
    else u.detach
  }

  function SetupAfter(u: Ue, e: Event): (timer: TimerId) {
    if e.EvConnEstCnf? then Number(e.setup)
    else if e.EvInitialUe? || e.EvContextSetupRsp? || SetupFails(u, e) || (e.EvReleaseReq? && u.ecm == Connected) then INACTIVE
    else u.setup
  }

  /** The PDN connection a create-bearer request is about, if it names a bearer. */
  function LinkedPdn(t: B.Tables, ebi: nat): (cid: Option<int>)
    requires |t.bearers| == B.BEARERS_PER_UE
  {
    if B.GetBearer(t, ebi).Some? then Some(B.GetBearer(t, ebi).value.pdnCxId) else None
  }

  /** Which operation a step does on the tables of its context; None where it ends the process. */
  function TablesAfter(t: B.Tables, e: Event): (r: Option<B.Tables>)
    requires B.WellSized(t)
  {
    match e
    case EvPdnCreated(_, cid, apn) => if cid < |t.pdns| then Some(B.CreatePdn(t, cid, apn)) else None
    case EvBearerCreated(_, cid, ebi, isDefault, qci) => B.NasCreateBearer(t, cid, ebi, isDefault, qci)
    case EvEsmStatus(_, ebi, status) => Some(B.SetEsmStatus(t, ebi, status))
    case EvBearerS1Released(_, ebi) => Some(B.S1Release(t, ebi))
    case EvPdnConnectivity(_, cid, _) => B.StartSession(t, cid)
    case EvCreateSessionRsp(_, accepted, sgwTeid, ms) =>
      if !accepted then Some(t) else if ms == [] then None else B.SessionsCreated(t, sgwTeid, ms, |ms|)
    case EvCreateBearerReq(_, ebi, trxn, ms) =>
      (match LinkedPdn(t, ebi)
       case None => Some(t)
       case Some(cid) =>
         if 0 <= cid < B.MAX_APN_PER_UE && t.pdns[cid].Some? then B.RequestBearers(B.StartProc(t, trxn), cid, ms, |ms|) else None)
    case EvDedicatedAnswer(_, ebi, success) =>
      var a := B.Answer(t, ebi, success); if a.Some? then Some(a.value.t) else None
    case EvErabSetupRsp(_, ups, downs) =>
      var r := B.ErabSetupRsp(t, ups, downs); if r.Some? then Some(r.value.0) else None
    case EvReleaseComplete(_, _) => Some(B.DeleteProc(t))
    case _ => Some(t)
  }

  /** Every field of a context that stays but its tables. */
  ghost predicate FieldsLaw(m: Mme, e: Event, u: Ue, v: Ue) {
    && v.id == u.id && v.serial == u.serial && v.activePdns == u.activePdns
    && v.mm == (if e.EvEmmState? then e.state else u.mm)
    && v.ecm == EcmAfter(u, e)
    && v.enbKey == EnbKeyAfter(u, e)
    && v.enbUeId == (if e.EvInitialUe? then e.enbUeId else u.enbUeId)
    && v.imsi == ImsiAfter(u, e)
    && v.guti == GutiAfter(u, e)
    && v.teid == TeidAfter(u, e)
    && v.relCause == CauseAfter(u, e)
    && v.reach == ReachAfter(u, e, m.periodicTau)
    && v.detach == DetachAfter(u, e)
    && v.setup == SetupAfter(u, e)
  }

  /** A context that has just been made. */
  ghost predicate NewLaw(m: Mme, e: Event, v: Ue) {
    && e.EvInitialUe?
    && v.id == m.generator && v.serial == m.created && v.activePdns == 0
    && v.mm == Unregistered && v.ecm == Idle && v.relCause == InvalidCause
    && v.enbKey == EnbKey.Pack(e.enbId, e.enbUeId) && v.enbUeId == e.enbUeId
    && v.imsi == INVALID_IMSI && v.teid == NO_TEID && v.guti == CLEARED_GUTI
    && v.reach == v.detach == v.setup == INACTIVE
    && v.tables.procs == []
    && (forall c :: 0 <= c < |v.tables.pdns| ==> v.tables.pdns[c].None?)
    && (forall i :: 0 <= i < |v.tables.bearers| ==> v.tables.bearers[i].None?)
  }

  // ---------------------------------------------------------------- counters

  function Less(n: nat): (r: nat) { if n == 0 then 0 else n - 1 }

  function ConnectedAfter(n: nat, u: Ue, e: Event): (n': nat) {
    if Signals(e) then (if u.ecm == Idle then n + 1 else n)
    else if (e.EvReleaseComplete? && Ends(u, e)) || ((GoesIdle(u, e) || (e.EvDetachReq? && Ends(u, e))) && u.ecm == Connected) then Less(n)
    else n
  }

  function AttachedAfter(n: nat, u: Ue, e: Event): (n': nat) {
    if !e.EvEmmState? || u.mm == e.state then n else if e.state == Registered then n + 1 else Less(n)
  }

  ghost predicate CountersLaw(s: Stats, u: Ue, e: Event, s': Stats) {
    && s'.connected == ConnectedAfter(s.connected, u, e)
    && s'.attached == AttachedAfter(s.attached, u, e)
    && s'.defaultBearers == (if e.EvDeleteSessionRsp? then Less(s.defaultBearers)
                             else if e.EvCreateSessionRsp? && e.accepted then s.defaultBearers + |e.sessions|
                             else s.defaultBearers)
    && s'.s1uBearers == (if e.EvDeleteSessionRsp? || e.EvReleaseAccessBearersRsp? then Less(s.s1uBearers) else s.s1uBearers)
  }

  // ---------------------------------------------------------------- timers

  /** The timers stopped; -1 is none. */
  function Stopped(armed: set<TimerId>, ts: set<TimerId>): (armed': set<TimerId>) { armed - (ts - {INACTIVE}) }

  function StartedOf(t: TimerSetup): (ts: set<TimerId>) { if t.Started? then {t.id} else {} }

  /** A detach after an SCTP reset starts a timer and stops it again, but not the one it replaces. */
  function ArmedAfter(armed: set<TimerId>, u: Ue, e: Event, periodicTau: bool): (armed': set<TimerId>) {
    if Ends(u, e) then
      if e.EvDetachReq? && u.ecm == Connected && periodicTau
      then Stopped(armed + StartedOf(e.setup), {Number(e.setup), u.detach, u.setup})
      else Stopped(armed, {u.reach, u.detach, u.setup})
    else if GoesIdle(u, e) then (if periodicTau then armed + StartedOf(e.setup) else armed)
    else if Signals(e) then
      (if u.ecm == Idle then Stopped(armed, {u.reach, u.detach}) else armed) + (if e.EvConnEstCnf? then StartedOf(e.setup) else {})
    else if e.EvContextSetupRsp? || e.EvContextSetupFailure? || (e.EvReleaseReq? && u.ecm == Connected) then Stopped(armed, {u.setup})
    else if ReachExpires(u, e) then armed + StartedOf(e.setup)
    else armed
  }

  // ---------------------------------------------------------------- messages

  /** The numbers of the existing PDN connections, in order. */
  ghost predicate Existing(pdns: seq<Option<B.Pdn>>, ks: seq<nat>) {
    && (forall a, b :: 0 <= a < b < |ks| ==> ks[a] < ks[b])
    && (forall a :: 0 <= a < |ks| ==> ks[a] < |pdns| && pdns[ks[a]].Some?)
    && (forall c :: 0 <= c < |pdns| && pdns[c].Some? ==> c in ks)
  }

  /** One release-access-bearers request for every PDN connection, in order, each with its own gateway
      TEID. */
  ghost predicate ReleasesAll(u: Ue, msgs: seq<Message>) {
    exists ks :: Existing(u.tables.pdns, ks) && |msgs| == |ks| && ReleasesEach(u, ks, msgs)
  }

  ghost predicate ReleasesEach(u: Ue, ks: seq<nat>, msgs: seq<Message>)
    requires Existing(u.tables.pdns, ks) && |msgs| == |ks|
  {
    forall a :: 0 <= a < |ks| ==> msgs[a] == ReleaseAccessBearersReq(u.teid, u.tables.pdns[ks[a]].value.sgwTeid)
  }

  /** One delete-session request for every PDN connection, in order, each with its own gateway TEID and
      default bearer. */
  ghost predicate DeletesAll(u: Ue, msgs: seq<Message>) {
    exists ks :: Existing(u.tables.pdns, ks) && |msgs| == |ks| && DeletesEach(u, ks, msgs)
  }

  ghost predicate DeletesEach(u: Ue, ks: seq<nat>, msgs: seq<Message>)
    requires Existing(u.tables.pdns, ks) && |msgs| == |ks|
  {
    forall a :: 0 <= a < |ks| ==>
      var pdn := u.tables.pdns[ks[a]].value; msgs[a] == DeleteSessionReq(u.teid, pdn.sgwTeid, pdn.defaultEbi)
  }

  /** Such lists hold messages of one kind only. */
  lemma ListedKinds(u: Ue, msgs: seq<Message>)
    ensures ReleasesAll(u, msgs) ==> forall a :: 0 <= a < |msgs| ==> msgs[a].ReleaseAccessBearersReq?
    ensures DeletesAll(u, msgs) ==> forall a :: 0 <= a < |msgs| ==> msgs[a].DeleteSessionReq?
  {
    hide Existing;
    if ReleasesAll(u, msgs) {
      var ks :| Existing(u.tables.pdns, ks) && |msgs| == |ks| && ReleasesEach(u, ks, msgs);
      assert forall a :: 0 <= a < |ks| ==> msgs[a].ReleaseAccessBearersReq?;
    }
    if DeletesAll(u, msgs) {
      var ks :| Existing(u.tables.pdns, ks) && |msgs| == |ks| && DeletesEach(u, ks, msgs);
      assert forall a :: 0 <= a < |ks| ==> msgs[a].DeleteSessionReq?;
    }
  }

  /** One request to NAS for every bearer asked for, in order, with the EBI it was given. */
  ghost predicate AsksNas(u: Ue, linkedEbi: nat, trxn: nat, ms: seq<B.BearerRequest>, msgs: seq<Message>)
    requires B.WellSized(u.tables)
  {
    var linked := B.GetBearer(u.tables, linkedEbi);
    if linked.None? then msgs == []
    else
      && 0 <= linked.value.pdnCxId < B.MAX_APN_PER_UE
      && u.tables.pdns[linked.value.pdnCxId].Some?
      && B.WellSized(B.StartProc(u.tables, trxn))
      && B.RequestBearers(B.StartProc(u.tables, trxn), linked.value.pdnCxId, ms, |ms|).Some?
      && AsksEach(u, linked.value.pdnCxId, Resolved(B.StartProc(u.tables, trxn), linked.value.pdnCxId, ms, |ms|), msgs)
  }

  ghost predicate AsksEach(u: Ue, cid: nat, ebis: seq<nat>, msgs: seq<Message>)
    requires cid < |u.tables.pdns| && u.tables.pdns[cid].Some?
  {
    && |msgs| == |ebis|
    && (forall a :: 0 <= a < |ebis| ==> msgs[a] == DedicatedBearerReq(u.id, cid, ebis[a], u.tables.pdns[cid].value.defaultEbi))
  }

  /** The release command of a context that is detached while connected. */
  function DetachCommand(u: Ue): (msg: Message) {
    S1ReleaseCommand(u.id, u.enbUeId, if u.relCause == InvalidCause then NasDetach else u.relCause)
  }

  /** What a step about the context u sends. */
  ghost predicate Says(u: Ue, e: Event, msgs: seq<Message>)
    requires B.WellSized(u.tables)
  {
    match e
    case EvInitialUe(_, enbUeId, _) => msgs == [UeIdNotification(u.id, enbUeId)]
    case EvPdnConnectivity(_, cid, teid) =>
      && cid < |u.tables.pdns| && u.tables.pdns[cid].Some?
      && msgs == [CreateSessionReq(u.imsi, teid, u.tables.pdns[cid].value.defaultEbi)]
    case EvCreateSessionRsp(_, accepted, _, ms) =>
      if !accepted then msgs == [PdnConnectivityFail(u.id)]
      else ms != [] && B.GetBearer(u.tables, ms[0].ebi).Some?
           && msgs == [PdnConnectivityRsp(u.id, B.GetBearer(u.tables, ms[0].ebi).value.pdnCxId, ms[|ms| - 1].ebi)]
    case EvDeleteSessionRsp(_) =>
      msgs == [if u.ecm == Idle then S1ReleaseCommand(u.id, u.enbUeId, ImplicitRelease) else DetachCommand(u)]
    case EvReleaseAccessBearersRsp(_, _) => msgs == [S1ReleaseCommand(u.id, u.enbUeId, u.relCause)]
    case EvCreateBearerReq(_, ebi, trxn, ms) => AsksNas(u, ebi, trxn, ms, msgs)
    case EvDedicatedAnswer(_, _, _) => |msgs| <= 1 && (msgs != [] ==> msgs[0].CreateBearerRsp? && msgs[0].localTeid == u.teid)
    case EvErabSetupRsp(_, _, _) => |msgs| <= 1 && (msgs != [] ==> msgs[0].CreateBearerRsp? && msgs[0].localTeid == u.teid)
    case EvConnEstCnf(_, nas, _) =>
      var es := B.Erabs(u.tables.bearers, B.BEARERS_PER_UE);
      msgs == [ConnectionEstablishment(u.id, es, if es == [] then None else Some(nas))]
    case EvNasDownlink(_, success) =>
      msgs == [NasDownlink(u.id, u.enbUeId)] + if success then [] else [S1ReleaseCommand(u.id, u.enbUeId, NasNormalRelease)]
    case EvReleaseReq(_, _, _, cause, _) =>
      if u.ecm == Idle then msgs == if cause == SctpReset then [S1ReleaseCommand(u.id, u.enbUeId, SctpReset)] else []
      else if u.mm == Unregistered then msgs == [ImplicitDetachInd(u.id)]
      else ReleasesAll(u, msgs)
    case EvReleaseComplete(_, _) => if u.mm == Unregistered && !NoSession(u) then DeletesAll(u, msgs) else msgs == []
    case EvDetachReq(_, _) =>
      if !NoSession(u) then DeletesAll(u, msgs)
      else msgs == [if u.ecm == Idle then S1ReleaseCommand(u.id, u.enbUeId, ImplicitRelease) else DetachCommand(u)]
    case _ =>
      if DetachExpires(u, e) || (SetupFails(u, e) && u.mm == Unregistered) then msgs == [ImplicitDetachInd(u.id)]
      else if SetupFails(u, e) then ReleasesAll(u, msgs)
      else msgs == []
  }

  // ---------------------------------------------------------------- the law

  /** What has been sent since. */
  ghost predicate SentSince(m: Mme, m': Mme, msgs: seq<Message>) { m'.sent == m.sent + msgs }

  ghost predicate SubjectLaw(m: Mme, e: Event, m': Mme, u: Ue)
    requires B.WellSized(u.tables)
  {
    && (u.id !in m'.ues <==> Ends(u, e))
    && (u.id in m'.ues ==> FieldsLaw(m, e, u, m'.ues[u.id]))
    && (u.id in m'.ues ==> TablesAfter(u.tables, e) == Some(m'.ues[u.id].tables))
    && CountersLaw(m.stats, u, e, m'.stats)
    && m'.armed == ArmedAfter(m.armed, u, e, m.periodicTau)
    && (exists msgs :: SentSince(m, m', msgs) && Says(u, e, msgs))
    && |m'.freed| == |m.freed| + (if Ends(u, e) then 1 else 0)
    && m'.generator == m.generator && m'.created == m.created
  }

  /** A step without a live context: a new UE attaches, a timer fires, a modify-bearer response is
      counted, or nothing happens. */
  ghost predicate NobodyLaw(m: Mme, e: Event, m': Mme) {
    if e.EvInitialUe? then
      && m'.generator == (m.generator + 1) % UINT32 && m'.created == m.created + 1
      && m'.stats == m.stats && m'.armed == m.armed
      && (m.generator == INVALID_UE_ID ==> m'.ues == m.ues && m'.sent == m.sent)
      && (m.generator != INVALID_UE_ID ==>
            && m.generator in m'.ues
            && NewLaw(m, e, m'.ues[m.generator])
            && m'.sent == m.sent + [UeIdNotification(m.generator, e.enbUeId)])
    else if e.EvTimerFires? then m' == m.(armed := m.armed - {e.timer})
    else if e.EvModifyBearerRsp? then
      m' == m.(stats := m.stats.(s1uBearers := m.stats.s1uBearers + if LookupTeid(m, e.teid).Some? then 1 else 0))
    else m' == m
  }

  /** What ends the process: a downlink message for an unknown UE, a new UE whose key or number is taken, and
      the operations on tables that dereference NULL or fail an assertion. */
  ghost predicate Dies(m: Mme, e: Event)
    requires TablesSized(m)
  {
    if Target(m, e) in m.ues && m.ues[Target(m, e)].id == Target(m, e) && !IsNew(m, e) then
      TablesAfter(m.ues[Target(m, e)].tables, e).None?
    else e.EvNasDownlink? || (IsNew(m, e) && m.generator != INVALID_UE_ID && (EnbKey.Pack(e.enbId, e.enbUeId) in m.byEnb || m.generator in m.ues))
  }

  /** The initial message of a UE that is not known by its GUTI. */
  ghost predicate IsNew(m: Mme, e: Event) { e.EvInitialUe? && (e.served.Some? ==> LookupGuti(m, e.served.value).None?) }

  ghost predicate Law(m: Mme, e: Event, m': Mme)
    requires TablesSized(m)
  {
    if Target(m, e) in m.ues && m.ues[Target(m, e)].id == Target(m, e) then SubjectLaw(m, e, m', m.ues[Target(m, e)])
    else NobodyLaw(m, e, m')
  }
}
