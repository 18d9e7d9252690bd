/** What follows from the laws of single steps for whole runs: registration, implicit detach and the
    tunnels a gateway has given. */
module RunLaws {
  import opened Common
  import opened UeModel
  import opened Registry
  import opened Handlers
  import opened Invariant
  import opened HandlerProofs
  import opened Runs
  import opened StepFrames
  import opened StepLaws
  import opened StepLawProofs
  import EnbKey
  import B = Bearers
  import BP = BearerProofs
  import E = BearerEffects

  lemma InvIdsOk(m: Mme, w: Watch)
    requires Inv(m, w)
    ensures IdsOk(m.ues)
  {
    hide Indexed, Covered;
  }

  /** Every step of every run obeys the law. */
  lemma RunObeys(periodicTau: bool, states: seq<Mme>, events: seq<Event>, i: nat)
    requires IsRun(periodicTau, states, events) && i < |events|
    ensures IdsOk(states[i].ues) && TablesSized(states[i])
    ensures Law(states[i], events[i], states[i + 1]) && !Dies(states[i], events[i])
    ensures OthersKept(states[i], states[i + 1], Target(states[i], events[i]))
  {
    hide Step, TablesSized, Admissible, Start, Inv, Law, Dies, IdsOk, OthersKept;
    RunInv(periodicTau, states, events, i);
    RunStep(periodicTau, states, events, i);
    InvIdsOk(states[i], NOTHING);
    StepObeys(states[i], events[i]);
    StepDiesIff(states[i], events[i]);
    StepTouchesOnlyTarget(states[i], events[i]);
  }

  /** No step from state i up to state j is about the context. */
  ghost predicate LeftAlone(states: seq<Mme>, events: seq<Event>, i: nat, j: nat, id: UeId)
    requires i <= j < |states| == |events| + 1
  {
    forall k :: i <= k < j ==> Target(states[k], events[k]) != id
  }

  lemma {:induction false} RunLeftAlone(periodicTau: bool, states: seq<Mme>, events: seq<Event>, i: nat, j: nat, id: UeId)
    requires IsRun(periodicTau, states, events) && i <= j < |states| && LeftAlone(states, events, i, j, id) && id in states[i].ues
    ensures id in states[j].ues && states[j].ues[id] == states[i].ues[id]
  {
    hide Step, TablesSized, Admissible, Start, Law, Dies, Target;
    if i < j {
      RunLeftAlone(periodicTau, states, events, i, j - 1, id);
      RunObeys(periodicTau, states, events, j - 1);
    }
  }

  // ---------------------------------------------------------------- registration

  predicate IsRegistered(m: Mme, id: UeId) { id in m.ues && m.ues[id].mm == Registered }

  /** NAS reports the context registered. */
  predicate Registers(m: Mme, e: Event, id: UeId) { e == EvEmmState(id, Registered) && id in m.ues }

  /** NAS reports the context not registered, or the context goes. */
  predicate Deregisters(m: Mme, e: Event, id: UeId) {
    e == EvEmmState(id, Unregistered) || (Target(m, e) == id && id in m.ues && Ends(m.ues[id], e))
  }

  lemma SubjectRegistered(m: Mme, e: Event, m': Mme, id: UeId)
    requires id in m.ues && m.ues[id].id == id && B.WellSized(m.ues[id].tables) && Target(m, e) == id && SubjectLaw(m, e, m', m.ues[id])
    ensures IsRegistered(m', id) <==> Registers(m, e, id) || (IsRegistered(m, id) && !Deregisters(m, e, id))
  {
    hide CountersLaw, TablesAfter, Says, ArmedAfter, Ends, B.WellSized;
    if e.EvEmmState? {
      EmmStateNeverEnds(m.ues[id], e);
    }
  }

  lemma EmmStateNeverEnds(u: Ue, e: Event)
    requires e.EvEmmState?
    ensures !Ends(u, e)
  {
  }

  lemma NobodyRegistered(m: Mme, e: Event, m': Mme, id: UeId)
    requires IdsOk(m.ues) && Target(m, e) == id && id !in m.ues && NobodyLaw(m, e, m')
    ensures !IsRegistered(m', id)
  {
  }

  lemma StepRegistered(m: Mme, e: Event, m': Mme, id: UeId)
    requires IdsOk(m.ues) && TablesSized(m) && Law(m, e, m') && OthersKept(m, m', Target(m, e))
    ensures IsRegistered(m', id) <==> Registers(m, e, id) || (IsRegistered(m, id) && !Deregisters(m, e, id))
  {
    hide SubjectLaw, NobodyLaw, Ends, B.WellSized;
    if Target(m, e) == id {
      if id in m.ues {
        SubjectRegistered(m, e, m', id);
      } else {
        NobodyRegistered(m, e, m', id);
        hide Target;
      }
    }
  }

  /** Some step before state i reported the context registered, and no step since has reported it not
      registered or removed it. */
  ghost predicate ReportedRegistered(states: seq<Mme>, events: seq<Event>, i: nat, id: UeId)
    requires i < |states| == |events| + 1
  {
    exists j :: 0 <= j < i && ReportedAt(states, events, j, i, id)
  }

  ghost predicate ReportedAt(states: seq<Mme>, events: seq<Event>, j: nat, i: nat, id: UeId)
    requires j < i < |states| == |events| + 1
  {
    && Registers(states[j], events[j], id)
    && (forall l :: j < l < i ==> !Deregisters(states[l], events[l], id))
  }

  lemma ReportedStep(states: seq<Mme>, events: seq<Event>, i: nat, id: UeId)
    requires i + 1 < |states| == |events| + 1
    ensures ReportedRegistered(states, events, i + 1, id) <==>
            Registers(states[i], events[i], id) || (ReportedRegistered(states, events, i, id) && !Deregisters(states[i], events[i], id))
  {
    hide Registers, Deregisters;
    if Registers(states[i], events[i], id) {
      assert ReportedAt(states, events, i, i + 1, id);
    }
    if ReportedRegistered(states, events, i, id) && !Deregisters(states[i], events[i], id) {
      var j :| 0 <= j < i && ReportedAt(states, events, j, i, id);
      assert ReportedAt(states, events, j, i + 1, id);
    }
    if ReportedRegistered(states, events, i + 1, id) && !Registers(states[i], events[i], id) {
      var j :| 0 <= j < i + 1 && ReportedAt(states, events, j, i + 1, id);
      assert ReportedAt(states, events, j, i, id);
    }
  }

  /** In every state of every run a context is registered if and only if NAS has reported so and since then
      neither the opposite has been reported nor the context removed. */
  lemma {:induction false} RunRegisteredIff(periodicTau: bool, states: seq<Mme>, events: seq<Event>, i: nat, id: UeId)
    requires IsRun(periodicTau, states, events) && i < |states|
    ensures IsRegistered(states[i], id) <==> ReportedRegistered(states, events, i, id)
  {
    hide Step, TablesSized, Admissible, Law, Dies, OthersKept, Registers, Deregisters, ReportedRegistered;
    if i > 0 {
      RunRegisteredIff(periodicTau, states, events, i - 1, id);
      RunObeys(periodicTau, states, events, i - 1);
      StepRegistered(states[i - 1], events[i - 1], states[i], id);
      ReportedStep(states, events, i - 1, id);
    } else {
      NothingReported(states, events, id);
    }
  }

  lemma NothingReported(states: seq<Mme>, events: seq<Event>, id: UeId)
    requires |states| == |events| + 1
    ensures !ReportedRegistered(states, events, 0, id)
  {
  }

  /** What NAS reports is recorded, and nothing else of the context or of any other changes; the attached
      counter moves with it. */
  lemma RunEmmState(periodicTau: bool, states: seq<Mme>, events: seq<Event>, i: nat, id: UeId, state: MmState)
    requires IsRun(periodicTau, states, events) && i < |events| && events[i] == EvEmmState(id, state) && id in states[i].ues
    ensures var u := states[i].ues[id];
            && states[i + 1].ues == states[i].ues[id := u.(mm := state)]
            && states[i + 1].stats.attached ==
               (if u.mm == state then states[i].stats.attached
                else if state == Registered then states[i].stats.attached + 1
                else if states[i].stats.attached == 0 then 0 else states[i].stats.attached - 1)
  {
    hide Step, TablesSized, Admissible, Start, Dies, EmmState;
    RunObeys(periodicTau, states, events, i);
    RunStep(periodicTau, states, events, i);
    EmmStateEvent(states[i], id, state);
    EmmStateBecomes(states[i], id, state);
  }

  lemma EmmStateEvent(m: Mme, id: UeId, state: MmState)
    requires TablesSized(m)
    ensures Step(m, EvEmmState(id, state)) == Done(EmmState(m, id, state))
  {
    hide EmmState;
  }

  // ---------------------------------------------------------------- implicit detach

  ghost predicate NoIndication(sent: seq<Message>, sent': seq<Message>, id: UeId) {
    sent <= sent' && forall n :: |sent| <= n < |sent'| ==> sent'[n] != ImplicitDetachInd(id)
  }

  lemma OnlyAboutSubject(u: Ue, e: Event, msgs: seq<Message>, id: UeId)
    requires B.WellSized(u.tables) && Says(u, e, msgs) && id != u.id
    ensures ImplicitDetachInd(id) !in msgs
  {
    hide ReleasesAll, DeletesAll, B.Erabs, B.RequestBearers;
    ListedKinds(u, msgs);
  }

  lemma SubjectIndicated(m: Mme, e: Event, m': Mme, u: Ue, id: UeId)
    requires B.WellSized(u.tables) && SubjectLaw(m, e, m', u) && u.id != id
    ensures NoIndication(m.sent, m'.sent, id)
  {
    hide FieldsLaw, CountersLaw, TablesAfter, Says, ArmedAfter, Ends, B.WellSized;
    var msgs :| SentSince(m, m', msgs) && Says(u, e, msgs);
    OnlyAboutSubject(u, e, msgs, id);
    AppendedIndicates(m.sent, msgs, id);
  }

  lemma AppendedIndicates(sent: seq<Message>, msgs: seq<Message>, id: UeId)
    requires ImplicitDetachInd(id) !in msgs
    ensures NoIndication(sent, sent + msgs, id)
  {
  }

  lemma NobodyIndicated(m: Mme, e: Event, m': Mme, id: UeId)
    requires NobodyLaw(m, e, m')
    ensures NoIndication(m.sent, m'.sent, id)
  {
    hide NewLaw;
  }

  /** A step indicates the implicit detach of its own context only. */
  lemma OthersNotIndicated(m: Mme, e: Event, m': Mme, id: UeId)
    requires TablesSized(m) && Law(m, e, m') && Target(m, e) != id
    ensures NoIndication(m.sent, m'.sent, id)
  {
    hide SubjectLaw, NobodyLaw, Target, NoIndication, B.WellSized;
    if Target(m, e) in m.ues && m.ues[Target(m, e)].id == Target(m, e) {
      SubjectIndicated(m, e, m', m.ues[Target(m, e)], id);
    } else {
      NobodyIndicated(m, e, m', id);
    }
  }

  lemma {:induction false} NoneIndicated(periodicTau: bool, states: seq<Mme>, events: seq<Event>, i: nat, j: nat, id: UeId)
    requires IsRun(periodicTau, states, events) && i <= j < |states| && LeftAlone(states, events, i, j, id)
    ensures NoIndication(states[i].sent, states[j].sent, id)
  {
    hide Step, TablesSized, Admissible, Start, Law, Dies, Target, OthersKept;
    if i < j {
      NoneIndicated(periodicTau, states, events, i, j - 1, id);
      RunObeys(periodicTau, states, events, j - 1);
      OthersNotIndicated(states[j - 1], events[j - 1], states[j], id);
    }
  }

  lemma ReachExpiry(m: Mme, timer: TimerId, k: TimerId, m': Mme, u: Ue)
    requires TablesSized(m) && Law(m, EvTimerExpired(timer, u.id, Started(k)), m') && u.id in m.ues && m.ues[u.id] == u && timer == u.reach
    ensures u.id in m'.ues && m'.ues[u.id].reach == INACTIVE && m'.ues[u.id].detach == k
    ensures k in m'.armed && m'.sent == m.sent
  {
    hide CountersLaw, TablesAfter, ReleasesAll, B.Erabs;
    var e := EvTimerExpired(timer, u.id, Started(k));
    var msgs :| SentSince(m, m', msgs) && Says(u, e, msgs);
  }

  lemma DetachExpiry(m: Mme, timer: TimerId, t: TimerSetup, m': Mme, u: Ue)
    requires TablesSized(m) && Law(m, EvTimerExpired(timer, u.id, t), m') && u.id in m.ues && m.ues[u.id] == u
    requires timer == u.detach && timer != u.reach
    ensures u.id in m'.ues && m'.ues[u.id].detach == INACTIVE && m'.sent == m.sent + [ImplicitDetachInd(u.id)]
  {
    hide CountersLaw, TablesAfter, ReleasesAll, B.Erabs;
    var e := EvTimerExpired(timer, u.id, t);
    var msgs :| SentSince(m, m', msgs) && Says(u, e, msgs);
  }

  /** The chain of the two idle timers: when the reachability timer expires the implicit-detach timer k is
      started and recorded. If nothing is done about the UE until the notice of k comes, that sends exactly
      one implicit-detach indication for the UE, the only one since the first expiry. */
  lemma RunImplicitDetach(periodicTau: bool, states: seq<Mme>, events: seq<Event>, i: nat, j: nat, id: UeId, k: TimerId, t: TimerSetup)
    requires IsRun(periodicTau, states, events) && i < j < |events| && id in states[i].ues && k != INACTIVE
    requires events[i] == EvTimerExpired(states[i].ues[id].reach, id, Started(k))
    requires LeftAlone(states, events, i + 1, j, id) && events[j] == EvTimerExpired(k, id, t)
    ensures id in states[i + 1].ues && states[i + 1].ues[id].detach == k && k in states[i + 1].armed
    ensures NoIndication(states[i].sent, states[j].sent, id)
    ensures states[j + 1].sent == states[j].sent + [ImplicitDetachInd(id)]
    ensures id in states[j + 1].ues && states[j + 1].ues[id].detach == INACTIVE
  {
    hide Step, TablesSized, Admissible, Start, Law, Dies, OthersKept;
    RunObeys(periodicTau, states, events, i);
    var u := states[i].ues[id];
    ReachExpiry(states[i], u.reach, k, states[i + 1], u);
    RunLeftAlone(periodicTau, states, events, i + 1, j, id);
    NoneIndicated(periodicTau, states, events, i + 1, j, id);
    RunObeys(periodicTau, states, events, j);
    DetachExpiry(states[j], k, t, states[j + 1], states[j].ues[id]);
  }

  // ---------------------------------------------------------------- tunnels

  /** The E-RAB list holds the bearer with what the gateway has named for it. */
  ghost predicate ListsBearer(erabs: seq<B.ErabItem>, m: B.SessionBearer) {
    exists a :: 0 <= a < |erabs| && erabs[a].ebi == m.ebi && erabs[a].sgwTeid == m.sgwTeid
                && (m.qos.Some? ==> erabs[a].qci == m.qos.value.0 && erabs[a].arp == m.qos.value.1)
  }

  /** The step sends one connection establishment with these E-RABs. */
  ghost predicate Establishes(m: Mme, m': Mme, id: UeId, es: seq<B.ErabItem>, nas: B.NasPdu) {
    m'.sent == m.sent + [ConnectionEstablishment(id, es, if es == [] then None else Some(nas))]
  }

  lemma SessionTables(m: Mme, e: Event, m': Mme, u: Ue)
    requires TablesSized(m) && Law(m, e, m') && e.EvCreateSessionRsp? && e.accepted && LookupTeid(m, e.teid) == Some(u)
    requires u.id in m.ues && m.ues[u.id] == u
    ensures B.WellSized(u.tables) && e.sessions != [] && u.id in m'.ues
    ensures B.SessionsCreated(u.tables, e.sgwTeid, e.sessions, |e.sessions|) == Some(m'.ues[u.id].tables)
  {
    hide CountersLaw, Says, FieldsLaw, B.SessionsCreated, ArmedAfter;
  }

  lemma OpenedIsListed(t: B.Tables, m: B.SessionBearer, b: B.Bearer)
    requires B.TablesOk(t) && B.GetBearer(t, m.ebi) == Some(E.Opened(b, m))
    ensures ListsBearer(B.Erabs(t.bearers, B.BEARERS_PER_UE), m)
  {
    hide B.Erabs;
    BP.ErabsExact(t, B.BEARERS_PER_UE);
    var es, i := B.Erabs(t.bearers, B.BEARERS_PER_UE), m.ebi - B.EBI_FIRST;
    assert B.ErabOf(t.bearers[i].value) in es;
    var a :| 0 <= a < |es| && es[a] == B.ErabOf(t.bearers[i].value);
  }

  lemma EstablishmentSays(m: Mme, e: Event, m': Mme, u: Ue)
    requires TablesSized(m) && Law(m, e, m') && e.EvConnEstCnf? && u.id in m.ues && m.ues[u.id] == u && e.id == u.id
    ensures |u.tables.bearers| == B.BEARERS_PER_UE
    ensures var es := B.Erabs(u.tables.bearers, B.BEARERS_PER_UE);
            m'.sent == m.sent + [ConnectionEstablishment(u.id, es, if es == [] then None else Some(e.nas))]
  {
    hide CountersLaw, TablesAfter, FieldsLaw, ArmedAfter, B.Erabs, Ends;
    var msgs :| SentSince(m, m', msgs) && Says(u, e, msgs);
  }

  /** An accepted create-session response that names no EBI twice, followed by a connection establishment
      with nothing done about the UE in between: the eNB is told, for every bearer of the response, the
      S1-U TEID and the QoS the gateway has named for it. */
  lemma RunSessionTunnels(periodicTau: bool, states: seq<Mme>, events: seq<Event>, i: nat, j: nat, u: Ue, nas: B.NasPdu, t: TimerSetup)
    returns (es: seq<B.ErabItem>)
    requires IsRun(periodicTau, states, events) && i < j < |events| && events[i].EvCreateSessionRsp? && events[i].accepted
    requires LookupTeid(states[i], events[i].teid) == Some(u) && u.id in states[i].ues && states[i].ues[u.id] == u
    requires E.NoEbiTwice(events[i].sessions)
    requires LeftAlone(states, events, i + 1, j, u.id) && events[j] == EvConnEstCnf(u.id, nas, t)
    ensures Establishes(states[j], states[j + 1], u.id, es, nas)
    ensures forall k :: 0 <= k < |events[i].sessions| ==> ListsBearer(es, events[i].sessions[k])
  {
    hide Step, TablesSized, Admissible, Start, Law, Dies, OthersKept, B.SessionsCreated, B.Erabs, ListsBearer, Inv, B.TablesOk, E.Opened, B.WellSized;
    RunObeys(periodicTau, states, events, i);
    SessionTables(states[i], events[i], states[i + 1], u);
    Pdns(u.tables);
    E.SessionsEffect(u.tables, events[i].sgwTeid, events[i].sessions);
    RunLeftAlone(periodicTau, states, events, i + 1, j, u.id);
    RunInv(periodicTau, states, events, j);
    InvUe(states[j], u.id, NOTHING);
    RunObeys(periodicTau, states, events, j);
    var v := states[j].ues[u.id];
    EstablishmentSays(states[j], events[j], states[j + 1], v);
    es := B.Erabs(v.tables.bearers, B.BEARERS_PER_UE);
    forall k | 0 <= k < |events[i].sessions| ensures ListsBearer(es, events[i].sessions[k]) {
      OpenedIsListed(v.tables, events[i].sessions[k], B.GetBearer(u.tables, events[i].sessions[k].ebi).value);
    }
  }

  /** Every release-access-bearers and delete-session request then carries the S11 TEID of the gateway: the PDN
      connection of the first bearer has it as long as nothing is done about the UE. */
  lemma RunSessionGateway(periodicTau: bool, states: seq<Mme>, events: seq<Event>, i: nat, j: nat, u: Ue)
    requires IsRun(periodicTau, states, events) && i < j < |states| && events[i].EvCreateSessionRsp? && events[i].accepted
    requires LookupTeid(states[i], events[i].teid) == Some(u) && u.id in states[i].ues && states[i].ues[u.id] == u
    requires E.NoEbiTwice(events[i].sessions) && LeftAlone(states, events, i + 1, j, u.id)
    ensures u.id in states[j].ues && B.WellSized(u.tables) && B.WellSized(states[j].ues[u.id].tables)
    ensures events[i].sessions != [] && B.GetBearer(u.tables, events[i].sessions[0].ebi).Some?
    ensures var cid := B.GetBearer(u.tables, events[i].sessions[0].ebi).value.pdnCxId;
            && 0 <= cid < B.MAX_APN_PER_UE
            && states[j].ues[u.id].tables.pdns[cid].Some?
            && states[j].ues[u.id].tables.pdns[cid].value.sgwTeid == events[i].sgwTeid
  {
    hide Step, TablesSized, Admissible, Start, Law, Dies, OthersKept, B.SessionsCreated, Inv, E.Opened;
    RunObeys(periodicTau, states, events, i);
    SessionTables(states[i], events[i], states[i + 1], u);
    E.SessionsEffect(u.tables, events[i].sgwTeid, events[i].sessions);
    RunLeftAlone(periodicTau, states, events, i + 1, j, u.id);
    RunInv(periodicTau, states, events, i);
    InvUe(states[i], u.id, NOTHING);
    BP.BearerHasPdn(u.tables, events[i].sessions[0].ebi);
  }

  // ---------------------------------------------------------------- whom a release request is about

  /** A release request is about the context it names, if there is one, and otherwise about the one that is
      registered under its eNB and eNB UE identity. */
  lemma RunReleaseTarget(periodicTau: bool, states: seq<Mme>, events: seq<Event>, i: nat, e: Event, v: Ue)
    requires IsRun(periodicTau, states, events) && i < |states| && e.EvReleaseReq?
    requires e.enbId < UINT32 && e.enbUeId <= EnbKey.ENB_UE_S1AP_ID_MASK
    requires v.id in states[i].ues && states[i].ues[v.id] == v
    ensures e.id in states[i].ues ==> Target(states[i], e) == e.id
    ensures e.id !in states[i].ues ==> (Target(states[i], e) == v.id <==> v.enbKey == EnbKey.Pack(e.enbId, e.enbUeId))
  {
    hide Step, TablesSized, Admissible, Start, EnbKey.Pack, EnbKey.UnpackUeId;
    RunInv(periodicTau, states, events, i);
    EnbKey.PackUnpacks(e.enbId, e.enbUeId);
    ReleaseTarget(states[i], e, v);
  }

  lemma ReleaseTarget(m: Mme, e: Event, v: Ue)
    requires IndexOk(m) && e.EvReleaseReq? && v.id in m.ues && m.ues[v.id] == v && ValidEnbKey(EnbKey.Pack(e.enbId, e.enbUeId))
    ensures e.id in m.ues ==> Target(m, e) == e.id
    ensures e.id !in m.ues ==> (Target(m, e) == v.id <==> v.enbKey == EnbKey.Pack(e.enbId, e.enbUeId))
  {
    hide EnbKey.Pack;
  }
}
