/** Every step obeys the laws of `StepLaws`. */
module StepLawProofs {
  import opened Common
  import opened UeModel
  import opened Registry
  import opened Handlers
  import opened Runs
  import opened StepFrames
  import opened CreateBearerFanIn
  import opened StepLaws
  import EnbKey
  import B = Bearers
  import BP = BearerProofs

  // ---------------------------------------------------------------- from effects to the law

  /** The context u becomes v, and nothing else happens but this. */
  ghost predicate Becomes(m: Mme, m': Mme, u: Ue, v: Ue, stats: Stats, armed: set<TimerId>, msgs: seq<Message>) {
    && m'.ues == m.ues[u.id := v]
    && m'.stats == stats
    && m'.armed == armed
    && m'.sent == m.sent + msgs
    && m'.freed == m.freed && m'.generator == m.generator && m'.created == m.created
  }

  /** The context u goes, and nothing else happens but this. */
  ghost predicate Vanishes(m: Mme, m': Mme, u: Ue, stats: Stats, armed: set<TimerId>, msgs: seq<Message>) {
    && m'.ues == m.ues - {u.id}
    && m'.stats == stats
    && m'.armed == armed
    && m'.sent == m.sent + msgs
    && |m'.freed| == |m.freed| + 1 && m'.generator == m.generator && m'.created == m.created
  }

  lemma StayLaw(m: Mme, e: Event, m': Mme, u: Ue, v: Ue, stats: Stats, armed: set<TimerId>, msgs: seq<Message>)
    requires B.WellSized(u.tables) && Becomes(m, m', u, v, stats, armed, msgs) && !Ends(u, e)
    requires FieldsLaw(m, e, u, v) && TablesAfter(u.tables, e) == Some(v.tables)
    requires CountersLaw(m.stats, u, e, stats) && armed == ArmedAfter(m.armed, u, e, m.periodicTau) && Says(u, e, msgs)
    ensures SubjectLaw(m, e, m', u)
  {
    hide FieldsLaw, CountersLaw, ArmedAfter, Says, Ends, TablesAfter;
    assert SentSince(m, m', msgs);
  }

  lemma GoneLaw(m: Mme, e: Event, m': Mme, u: Ue, stats: Stats, armed: set<TimerId>, msgs: seq<Message>)
    requires B.WellSized(u.tables) && Vanishes(m, m', u, stats, armed, msgs) && Ends(u, e)
    requires CountersLaw(m.stats, u, e, stats) && armed == ArmedAfter(m.armed, u, e, m.periodicTau) && Says(u, e, msgs)
    ensures SubjectLaw(m, e, m', u)
  {
    hide FieldsLaw, CountersLaw, ArmedAfter, Says, Ends, TablesAfter;
    assert SentSince(m, m', msgs);
  }

  lemma IsSubject(m: Mme, e: Event, m': Mme, u: Ue)
    requires TablesSized(m) && u.id in m.ues && m.ues[u.id] == u && Target(m, e) == u.id
    ensures SubjectLaw(m, e, m', u) <==> Law(m, e, m')
  {
    hide SubjectLaw, NobodyLaw, Target;
  }

  lemma Sized(m: Mme, id: UeId)
    requires TablesSized(m) && id in m.ues
    ensures B.WellSized(m.ues[id].tables)
  {
    hide B.WellSized;
  }

  lemma NothingHappens(m: Mme, e: Event)
    requires TablesSized(m) && Target(m, e) !in m.ues && !e.EvInitialUe? && !e.EvTimerFires? && !e.EvModifyBearerRsp?
    ensures Law(m, e, m)
  {
    hide SubjectLaw, Target, TablesSized;
  }

  // ---------------------------------------------------------------- lists of messages

  /** The numbers of those of the first n PDN connections that exist. */
  function PdnNumbers(pdns: seq<Option<B.Pdn>>, n: nat): (ks: seq<nat>)
    requires n <= |pdns|
    ensures forall a :: 0 <= a < |ks| ==> ks[a] < n && pdns[ks[a]].Some?
  {
    if n == 0 then [] else PdnNumbers(pdns, n - 1) + if pdns[n - 1].Some? then [n - 1] else []
  }

  lemma {:induction false} NumbersIncrease(pdns: seq<Option<B.Pdn>>, n: nat)
    requires n <= |pdns|
    ensures forall a, b :: 0 <= a < b < |PdnNumbers(pdns, n)| ==> PdnNumbers(pdns, n)[a] < PdnNumbers(pdns, n)[b]
  {
    if n > 0 {
      NumbersIncrease(pdns, n - 1);
    }
  }

  lemma {:induction false} NumberListed(pdns: seq<Option<B.Pdn>>, n: nat, c: nat)
    requires c < n <= |pdns| && pdns[c].Some?
    ensures c in PdnNumbers(pdns, n)
  {
    if c < n - 1 {
      NumberListed(pdns, n - 1, c);
    }
  }

  lemma NumbersExist(pdns: seq<Option<B.Pdn>>)
    ensures Existing(pdns, PdnNumbers(pdns, |pdns|))
  {
    hide PdnNumbers;
    NumbersIncrease(pdns, |pdns|);
    forall c | 0 <= c < |pdns| && pdns[c].Some? ensures c in PdnNumbers(pdns, |pdns|) {
      NumberListed(pdns, |pdns|, c);
    }
  }

  lemma {:induction false} MessagesCounted(w: Ue, n: nat)
    requires n <= |w.tables.pdns|
    ensures |ReleaseBearers(w, n)| == |DeleteSessions(w, n)| == |PdnNumbers(w.tables.pdns, n)|
  {
    if n > 0 {
      MessagesCounted(w, n - 1);
    }
  }

  lemma {:induction false} MessageAt(w: Ue, n: nat, a: nat)
    requires n <= |w.tables.pdns| && a < |PdnNumbers(w.tables.pdns, n)|
    requires |ReleaseBearers(w, n)| == |DeleteSessions(w, n)| == |PdnNumbers(w.tables.pdns, n)|
    ensures var pdn := w.tables.pdns[PdnNumbers(w.tables.pdns, n)[a]].value;
            && ReleaseBearers(w, n)[a] == ReleaseAccessBearersReq(w.teid, pdn.sgwTeid)
            && DeleteSessions(w, n)[a] == DeleteSessionReq(w.teid, pdn.sgwTeid, pdn.defaultEbi)
  {
    if n > 0 {
      MessagesCounted(w, n - 1);
      if a < |PdnNumbers(w.tables.pdns, n - 1)| {
        MessageAt(w, n - 1, a);
      }
    }
  }

  lemma ReleasesAllPdns(u: Ue, w: Ue)
    requires w.teid == u.teid && w.tables.pdns == u.tables.pdns && |u.tables.pdns| == B.MAX_APN_PER_UE
    ensures ReleasesAll(u, ReleaseBearers(w, B.MAX_APN_PER_UE))
  {
    hide Existing, ReleaseBearers, PdnNumbers, DeleteSessions;
    var ks := PdnNumbers(u.tables.pdns, B.MAX_APN_PER_UE);
    NumbersExist(u.tables.pdns);
    MessagesCounted(w, B.MAX_APN_PER_UE);
    forall a | 0 <= a < |ks|
      ensures ReleaseBearers(w, B.MAX_APN_PER_UE)[a] == ReleaseAccessBearersReq(u.teid, u.tables.pdns[ks[a]].value.sgwTeid)
    {
      MessageAt(w, B.MAX_APN_PER_UE, a);
    }
    assert ReleasesEach(u, ks, ReleaseBearers(w, B.MAX_APN_PER_UE));
  }

  lemma DeletesAllPdns(u: Ue, w: Ue)
    requires w.teid == u.teid && w.tables.pdns == u.tables.pdns && |u.tables.pdns| == B.MAX_APN_PER_UE
    ensures DeletesAll(u, DeleteSessions(w, B.MAX_APN_PER_UE))
  {
    hide Existing, ReleaseBearers, PdnNumbers, DeleteSessions;
    var ks := PdnNumbers(u.tables.pdns, B.MAX_APN_PER_UE);
    NumbersExist(u.tables.pdns);
    MessagesCounted(w, B.MAX_APN_PER_UE);
    forall a | 0 <= a < |ks|
      ensures var pdn := u.tables.pdns[ks[a]].value;
              DeleteSessions(w, B.MAX_APN_PER_UE)[a] == DeleteSessionReq(u.teid, pdn.sgwTeid, pdn.defaultEbi)
    {
      MessageAt(w, B.MAX_APN_PER_UE, a);
    }
    assert DeletesEach(u, ks, DeleteSessions(w, B.MAX_APN_PER_UE));
  }

  lemma {:induction false} AsksForEach(u: Ue, cid: nat, trxn: nat, ms: seq<B.BearerRequest>, n: nat)
    requires B.WellSized(u.tables) && cid < B.MAX_APN_PER_UE && u.tables.pdns[cid].Some? && n <= |ms|
    requires B.WellSized(B.StartProc(u.tables, trxn)) && B.RequestBearers(B.StartProc(u.tables, trxn), cid, ms, n).Some?
    ensures AsksEach(u, cid, Resolved(B.StartProc(u.tables, trxn), cid, ms, n), DedicatedReqs(u, cid, trxn, ms, n))
  {
    hide B.RequestBearer, B.ResolveEbi, B.WellSized, B.StartProc;
    if n > 0 {
      AsksForEach(u, cid, trxn, ms, n - 1);
    }
  }

  lemma EmmStateBecomes(m: Mme, id: UeId, state: MmState)
    requires id in m.ues && m.ues[id].id == id
    ensures var u, e := m.ues[id], EvEmmState(id, state);
            Becomes(m, EmmState(m, id, state), u, u.(mm := state), m.stats.(attached := AttachedAfter(m.stats.attached, u, e)), m.armed, [])
  {
    assert m.ues[id := m.ues[id]] == m.ues;
  }

  lemma EmmStateLaw(m: Mme, id: UeId, state: MmState)
    requires IdsOk(m.ues) && TablesSized(m)
    ensures Law(m, EvEmmState(id, state), EmmState(m, id, state))
  {
    hide TablesSized, B.WellSized, Becomes, Vanishes, SubjectLaw, Law;
    var e, m' := EvEmmState(id, state), EmmState(m, id, state);
    if id in m.ues {
      var u := m.ues[id];
      Sized(m, u.id);
      hide EmmState;
      EmmStateBecomes(m, id, state);
      StayLaw(m, e, m', u, u.(mm := state), m.stats.(attached := AttachedAfter(m.stats.attached, u, e)), m.armed, []);
      IsSubject(m, e, m', u);
    } else {
      NothingHappens(m, e);
    }
  }

  lemma SetImsiBecomes(m: Mme, id: UeId, imsi: nat)
    requires id in m.ues && m.ues[id].id == id
    ensures var u := m.ues[id]; Becomes(m, SetValidImsi(m, id, imsi), u, u.(imsi := imsi), m.stats, m.armed, [])
  {
    hide SameGutiButMnc;
  }

  lemma SetImsiLaw(m: Mme, id: UeId, imsi: nat)
    requires IdsOk(m.ues) && TablesSized(m)
    ensures Law(m, EvSetImsi(id, imsi), SetValidImsi(m, id, imsi))
  {
    hide TablesSized, B.WellSized, Becomes, Vanishes, SubjectLaw, Law;
    var e, m' := EvSetImsi(id, imsi), SetValidImsi(m, id, imsi);
    if id in m.ues {
      var u := m.ues[id];
      Sized(m, u.id);
      hide SetValidImsi;
      SetImsiBecomes(m, id, imsi);
      StayLaw(m, e, m', u, u.(imsi := imsi), m.stats, m.armed, []);
      IsSubject(m, e, m', u);
    } else {
      NothingHappens(m, e);
    }
  }

  lemma ClearBecomes(m: Mme, id: UeId)
    requires id in m.ues && m.ues[id].id == id
    ensures var u := m.ues[id]; Becomes(m, ClearIdentities(m, id), u, u.(imsi := INVALID_IMSI, guti := CLEARED_GUTI), m.stats, m.armed, [])
  {
    hide SameGutiButMnc;
  }

  lemma ClearLaw(m: Mme, id: UeId)
    requires IdsOk(m.ues) && TablesSized(m)
    ensures Law(m, EvClearIdentities(id), ClearIdentities(m, id))
  {
    hide TablesSized, B.WellSized, Becomes, Vanishes, SubjectLaw, Law;
    var e, m' := EvClearIdentities(id), ClearIdentities(m, id);
    if id in m.ues {
      var u := m.ues[id];
      Sized(m, u.id);
      hide ClearIdentities;
      ClearBecomes(m, id);
      StayLaw(m, e, m', u, u.(imsi := INVALID_IMSI, guti := CLEARED_GUTI), m.stats, m.armed, []);
      IsSubject(m, e, m', u);
    } else {
      NothingHappens(m, e);
    }
  }

  lemma NewGutiBecomes(m: Mme, id: UeId, guti: Guti)
    requires id in m.ues && m.ues[id].id == id
    ensures var u := m.ues[id]; Becomes(m, NewGuti(m, id, guti), u, u.(guti := guti), m.stats, m.armed, [])
  {
    hide SameGutiButMnc;
  }

  lemma NewGutiLaw(m: Mme, id: UeId, guti: Guti)
    requires IdsOk(m.ues) && TablesSized(m)
    ensures Law(m, EvNewGuti(id, guti), NewGuti(m, id, guti))
  {
    hide TablesSized, B.WellSized, Becomes, Vanishes, SubjectLaw, Law;
    var e, m' := EvNewGuti(id, guti), NewGuti(m, id, guti);
    if id in m.ues {
      var u := m.ues[id];
      Sized(m, u.id);
      hide NewGuti;
      NewGutiBecomes(m, id, guti);
      StayLaw(m, e, m', u, u.(guti := guti), m.stats, m.armed, []);
      IsSubject(m, e, m', u);
    } else {
      NothingHappens(m, e);
    }
  }

  lemma LocationAnsBecomes(m: Mme, imsi: nat, u: Ue)
    requires LookupImsi(m, imsi) == Some(u)
    ensures Becomes(m, LocationAns(m, imsi), u, u.(reach := INACTIVE, detach := INACTIVE), m.stats, m.armed, [])
  {
  }

  lemma LocationAnsLaw(m: Mme, imsi: nat)
    requires IdsOk(m.ues) && TablesSized(m)
    ensures Law(m, EvLocationAns(imsi), LocationAns(m, imsi))
  {
    hide TablesSized, B.WellSized, Becomes, Vanishes, SubjectLaw, Law;
    var e, m' := EvLocationAns(imsi), LocationAns(m, imsi);
    if LookupImsi(m, imsi).Some? {
      var u := LookupImsi(m, imsi).value;
      Sized(m, u.id);
      hide LocationAns;
      LocationAnsBecomes(m, imsi, u);
      StayLaw(m, e, m', u, u.(reach := INACTIVE, detach := INACTIVE), m.stats, m.armed, []);
      IsSubject(m, e, m', u);
    } else {
      NothingHappens(m, e);
    }
  }

  lemma ContextSetupRspBecomes(m: Mme, id: UeId)
    requires id in m.ues && m.ues[id].id == id
    ensures var u := m.ues[id]; Becomes(m, ContextSetupRsp(m, id), u, u.(setup := INACTIVE), m.stats, Stopped(m.armed, {u.setup}), [])
  {
  }

  lemma ContextSetupRspLaw(m: Mme, id: UeId)
    requires IdsOk(m.ues) && TablesSized(m)
    ensures Law(m, EvContextSetupRsp(id), ContextSetupRsp(m, id))
  {
    hide TablesSized, B.WellSized, Becomes, Vanishes, SubjectLaw, Law;
    var e, m' := EvContextSetupRsp(id), ContextSetupRsp(m, id);
    if id in m.ues {
      var u := m.ues[id];
      Sized(m, u.id);
      hide ContextSetupRsp, Stopped;
      ContextSetupRspBecomes(m, id);
      StayLaw(m, e, m', u, u.(setup := INACTIVE), m.stats, Stopped(m.armed, {u.setup}), []);
      IsSubject(m, e, m', u);
    } else {
      NothingHappens(m, e);
    }
  }

  /** What AbortProcedure sends. */
  function AbortMessages(u: Ue): (msgs: seq<Message>)
    requires |u.tables.pdns| == B.MAX_APN_PER_UE
  {
    if u.mm == Unregistered then [ImplicitDetachInd(u.id)] else ReleaseBearers(u.(setup := INACTIVE), B.MAX_APN_PER_UE)
  }

  lemma AbortSays(u: Ue, e: Event)
    requires B.WellSized(u.tables) && SetupFails(u, e)
    ensures Says(u, e, AbortMessages(u))
  {
    hide ReleaseBearers, ReleasesAll, B.Erabs, DeletesAll, AsksNas;
    ReleasesAllPdns(u, u.(setup := INACTIVE));
  }

  lemma ContextSetupFailureBecomes(m: Mme, id: UeId)
    requires TablesSized(m) && id in m.ues && m.ues[id].id == id && B.WellSized(m.ues[id].tables)
    ensures var u := m.ues[id];
            Becomes(m, ContextSetupFailure(m, id), u, u.(setup := INACTIVE, relCause := InitialContextSetupFailed), m.stats,
                    Stopped(m.armed, {u.setup}), AbortMessages(u))
  {
    hide ReleaseBearers, TablesSized;
  }

  lemma ContextSetupFailureLaw(m: Mme, id: UeId)
    requires IdsOk(m.ues) && TablesSized(m)
    ensures Law(m, EvContextSetupFailure(id), ContextSetupFailure(m, id))
  {
    hide TablesSized, B.WellSized, Becomes, Vanishes, SubjectLaw, Law;
    var e, m' := EvContextSetupFailure(id), ContextSetupFailure(m, id);
    if id in m.ues {
      var u := m.ues[id];
      Sized(m, u.id);
      hide ContextSetupFailure, Stopped;
      Pdns(u.tables);
      ContextSetupFailureBecomes(m, id);
      AbortSays(u, e);
      hide Says, AbortMessages;
      StayLaw(m, e, m', u, u.(setup := INACTIVE, relCause := InitialContextSetupFailed), m.stats, Stopped(m.armed, {u.setup}), AbortMessages(u));
      IsSubject(m, e, m', u);
    } else {
      NothingHappens(m, e);
    }
  }

  lemma Pdns(t: B.Tables)
    requires B.WellSized(t)
    ensures |t.pdns| == B.MAX_APN_PER_UE && |t.bearers| == B.BEARERS_PER_UE
  {
  }

  /** The context after an expiry. */
  function AfterExpiry(u: Ue, e: Event): (v: Ue)
    requires e.EvTimerExpired?
  {
    if ReachExpires(u, e) then u.(reach := INACTIVE, detach := Number(e.setup))
    else if DetachExpires(u, e) then u.(detach := INACTIVE)
    else if SetupExpires(u, e) then u.(setup := INACTIVE, relCause := InitialContextSetupFailed)
    else u
  }

  function ExpiryMessages(u: Ue, e: Event): (msgs: seq<Message>)
    requires e.EvTimerExpired? && |u.tables.pdns| == B.MAX_APN_PER_UE
  {
    if DetachExpires(u, e) then [ImplicitDetachInd(u.id)] else if SetupExpires(u, e) then AbortMessages(u) else []
  }

  lemma TimerExpiredBecomes(m: Mme, timer: TimerId, id: UeId, t: TimerSetup)
    requires TablesSized(m) && id in m.ues && m.ues[id].id == id && B.WellSized(m.ues[id].tables)
    ensures var u, e := m.ues[id], EvTimerExpired(timer, id, t);
            Becomes(m, TimerExpired(m, timer, id, t), u, AfterExpiry(u, e), m.stats,
                    if ReachExpires(u, e) then m.armed + StartedOf(t) else m.armed, ExpiryMessages(u, e))
  {
    hide ReleaseBearers, TablesSized;
    assert m.ues[id := m.ues[id]] == m.ues;
  }

  lemma ExpirySays(u: Ue, e: Event)
    requires B.WellSized(u.tables) && e.EvTimerExpired?
    ensures Says(u, e, ExpiryMessages(u, e))
  {
    hide AbortMessages, ReleasesAll, B.Erabs, DeletesAll, AsksNas;
    if SetupExpires(u, e) {
      AbortSays(u, e);
    }
  }

  lemma TimerExpiredLaw(m: Mme, timer: TimerId, id: UeId, t: TimerSetup)
    requires IdsOk(m.ues) && TablesSized(m)
    ensures Law(m, EvTimerExpired(timer, id, t), TimerExpired(m, timer, id, t))
  {
    hide TablesSized, B.WellSized, Becomes, Vanishes, SubjectLaw, Law;
    var e, m' := EvTimerExpired(timer, id, t), TimerExpired(m, timer, id, t);
    if id in m.ues {
      var u := m.ues[id];
      Sized(m, u.id);
      hide TimerExpired;
      Pdns(u.tables);
      TimerExpiredBecomes(m, timer, id, t);
      ExpirySays(u, e);
      hide Says, ExpiryMessages;
      StayLaw(m, e, m', u, AfterExpiry(u, e), m.stats, if ReachExpires(u, e) then m.armed + StartedOf(t) else m.armed, ExpiryMessages(u, e));
      IsSubject(m, e, m', u);
    } else {
      NothingHappens(m, e);
    }
  }

  /** The command of a context whose session is gone. */
  function EndCommand(u: Ue): (msg: Message) {
    if u.ecm == Idle then S1ReleaseCommand(u.id, u.enbUeId, ImplicitRelease) else DetachCommand(u)
  }

  function SessionGone(s: Stats): (s': Stats) { s.(defaultBearers := Less(s.defaultBearers), s1uBearers := Less(s.s1uBearers)) }

  lemma DeleteSessionEnds(m: Mme, teid: nat, u: Ue)
    requires LookupTeid(m, teid) == Some(u) && u.id in m.ues && m.ues[u.id] == u
    ensures u.ecm == Connected ==>
              Becomes(m, DeleteSessionRsp(m, teid), u, u.(teid := NO_TEID, relCause := InvalidCause), SessionGone(m.stats), m.armed, [EndCommand(u)])
    ensures u.ecm == Idle ==>
              Vanishes(m, DeleteSessionRsp(m, teid), u, SessionGone(m.stats), Stopped(m.armed, {u.reach, u.detach, u.setup}), [EndCommand(u)])
  {
    PutAgain(m.ues, u.id, u.(teid := NO_TEID), u.(teid := NO_TEID, relCause := InvalidCause));
  }

  lemma DeleteSessionRspLaw(m: Mme, teid: nat)
    requires IdsOk(m.ues) && TablesSized(m)
    ensures Law(m, EvDeleteSessionRsp(teid), DeleteSessionRsp(m, teid))
  {
    hide TablesSized, B.WellSized, Becomes, Vanishes, SubjectLaw, Law;
    var e, m' := EvDeleteSessionRsp(teid), DeleteSessionRsp(m, teid);
    if LookupTeid(m, teid).Some? {
      var u := LookupTeid(m, teid).value;
      Sized(m, u.id);
      hide DeleteSessionRsp, Stopped, LookupTeid;
      DeleteSessionEnds(m, teid, u);
      if u.ecm == Connected {
        StayLaw(m, e, m', u, u.(teid := NO_TEID, relCause := InvalidCause), SessionGone(m.stats), m.armed, [EndCommand(u)]);
      } else {
        GoneLaw(m, e, m', u, SessionGone(m.stats), Stopped(m.armed, {u.reach, u.detach, u.setup}), [EndCommand(u)]);
      }
      IsSubject(m, e, m', u);
    } else {
      NothingHappens(m, e);
    }
  }

  /** Going idle, in the same terms. */
  function IdleUe(u: Ue, periodicTau: bool, t: TimerSetup): (v: Ue) {
    u.(ecm := Idle, enbKey := INVALID_ENB_KEY, reach := if periodicTau then Number(t) else u.reach)
  }

  function IdleStats(s: Stats, u: Ue): (s': Stats) { if u.ecm == Connected then s.(connected := Less(s.connected)) else s }

  function IdleArmed(armed: set<TimerId>, periodicTau: bool, t: TimerSetup): (armed': set<TimerId>) {
    if periodicTau then armed + StartedOf(t) else armed
  }

  lemma SigIdleBecomes(m: Mme, u: Ue, t: TimerSetup)
    ensures Becomes(m, SigIdle(m, u, t), u, IdleUe(u, m.periodicTau, t), IdleStats(m.stats, u), IdleArmed(m.armed, m.periodicTau, t), [])
  {
  }

  lemma ReleaseAccessBearersRspBecomes(m: Mme, teid: nat, t: TimerSetup, u: Ue)
    requires LookupTeid(m, teid) == Some(u) && u.id in m.ues && m.ues[u.id] == u && u.relCause != SctpReset
    ensures Becomes(m, ReleaseAccessBearersRsp(m, teid, t), u, u, m.stats.(s1uBearers := Less(m.stats.s1uBearers)), m.armed,
                    [S1ReleaseCommand(u.id, u.enbUeId, u.relCause)])
  {
    hide SigIdle, LookupTeid;
    assert m.ues[u.id := u] == m.ues;
  }

  lemma ReleaseAccessBearersRspIdles(m: Mme, teid: nat, t: TimerSetup, u: Ue)
    requires LookupTeid(m, teid) == Some(u) && u.relCause == SctpReset
    ensures Becomes(m, ReleaseAccessBearersRsp(m, teid, t), u, IdleUe(u, m.periodicTau, t),
                    IdleStats(m.stats.(s1uBearers := Less(m.stats.s1uBearers)), u), IdleArmed(m.armed, m.periodicTau, t),
                    [S1ReleaseCommand(u.id, u.enbUeId, SctpReset)])
  {
    hide SigIdle, IdleUe, IdleStats, IdleArmed, LookupTeid;
    SigIdleBecomes(Send(SubS1u(m), [S1ReleaseCommand(u.id, u.enbUeId, u.relCause)]), u, t);
  }

  lemma ReleaseAccessBearersRspMoves(m: Mme, e: Event, m': Mme, u: Ue)
    requires B.WellSized(u.tables) && e.EvReleaseAccessBearersRsp? && LookupTeid(m, e.teid) == Some(u)
    requires u.id in m.ues && m.ues[u.id] == u && m' == ReleaseAccessBearersRsp(m, e.teid, e.setup)
    ensures SubjectLaw(m, e, m', u)
  {
    hide B.WellSized, Becomes, SubjectLaw, ReleaseAccessBearersRsp, LookupTeid;
    var stats := m.stats.(s1uBearers := Less(m.stats.s1uBearers));
    if u.relCause == SctpReset {
      ReleaseAccessBearersRspIdles(m, e.teid, e.setup, u);
      StayLaw(m, e, m', u, IdleUe(u, m.periodicTau, e.setup), IdleStats(stats, u), IdleArmed(m.armed, m.periodicTau, e.setup),
              [S1ReleaseCommand(u.id, u.enbUeId, SctpReset)]);
    } else {
      ReleaseAccessBearersRspBecomes(m, e.teid, e.setup, u);
      StayLaw(m, e, m', u, u, stats, m.armed, [S1ReleaseCommand(u.id, u.enbUeId, u.relCause)]);
    }
  }

  lemma ReleaseAccessBearersRspLaw(m: Mme, teid: nat, t: TimerSetup)
    requires IdsOk(m.ues) && TablesSized(m)
    ensures Law(m, EvReleaseAccessBearersRsp(teid, t), ReleaseAccessBearersRsp(m, teid, t))
  {
    hide TablesSized, B.WellSized, SubjectLaw, Law;
    var e, m' := EvReleaseAccessBearersRsp(teid, t), ReleaseAccessBearersRsp(m, teid, t);
    if LookupTeid(m, teid).Some? {
      var u := LookupTeid(m, teid).value;
      Sized(m, u.id);
      hide ReleaseAccessBearersRsp, LookupTeid;
      ReleaseAccessBearersRspMoves(m, e, m', u);
      IsSubject(m, e, m', u);
    } else {
      NothingHappens(m, e);
    }
  }

  /** The tables without their newest create-bearer procedure. */
  function OlderProcs(t: B.Tables): (t': B.Tables) { if t.procs == [] then t else t.(procs := t.procs[1..]) }

  lemma ReleaseCompleteEnds(m: Mme, id: UeId, t: TimerSetup)
    requires TablesSized(m) && id in m.ues && m.ues[id].id == id && Ends(m.ues[id], EvReleaseComplete(id, t))
    ensures var u := m.ues[id];
            Vanishes(m, ReleaseComplete(m, id, t), u, m.stats.(connected := Less(m.stats.connected)),
                     Stopped(m.armed, {u.reach, u.detach, u.setup}), [])
  {
    hide DeleteSessions, TablesSized, SigIdle, B.DeleteProc;
    var u := m.ues[id];
    PutAgain(m.ues, id, u.(tables := B.DeleteProc(u.tables)), u);
  }

  lemma ReleaseCompleteBecomes(m: Mme, id: UeId, t: TimerSetup)
    requires TablesSized(m) && id in m.ues && m.ues[id].id == id && |m.ues[id].tables.pdns| == B.MAX_APN_PER_UE
    requires !Ends(m.ues[id], EvReleaseComplete(id, t))
    ensures var u := m.ues[id];
            var w := u.(tables := OlderProcs(u.tables));
            Becomes(m, ReleaseComplete(m, id, t), u, IdleUe(w, m.periodicTau, t), IdleStats(m.stats, u), IdleArmed(m.armed, m.periodicTau, t),
                    if u.mm == Unregistered then DeleteSessions(w, B.MAX_APN_PER_UE) else [])
  {
    hide DeleteSessions, TablesSized, SigIdle, Remove, IdleArmed, IdleStats;
    var u := m.ues[id];
    var w := u.(tables := OlderProcs(u.tables));
    var m1 := PutUe(m, w);
    var m2 := if u.mm == Unregistered then Send(m1, DeleteSessions(w, B.MAX_APN_PER_UE)) else m1;
    SigIdleBecomes(m2, w, t);
    SameIdle(m.stats, u, w);
    PutAgain(m.ues, id, w, IdleUe(w, m.periodicTau, t));
  }

  lemma SameIdle(s: Stats, u: Ue, w: Ue)
    requires w.ecm == u.ecm
    ensures IdleStats(s, u) == IdleStats(s, w)
  {
  }

  lemma ReleaseCompleteSays(u: Ue, e: Event, w: Ue)
    requires B.WellSized(u.tables) && e.EvReleaseComplete? && !Ends(u, e) && w == u.(tables := OlderProcs(u.tables))
    ensures Says(u, e, if u.mm == Unregistered then DeleteSessions(w, B.MAX_APN_PER_UE) else [])
  {
    hide DeleteSessions, DeletesAll, ReleasesAll, AsksNas, B.Erabs;
    DeletesAllPdns(u, w);
  }

  lemma ReleaseCompleteStays(m: Mme, e: Event, m': Mme, u: Ue)
    requires IdsOk(m.ues) && TablesSized(m) && e.EvReleaseComplete? && e.id in m.ues && m.ues[e.id] == u && !Ends(u, e)
    requires m' == ReleaseComplete(m, e.id, e.setup)
    ensures SubjectLaw(m, e, m', u)
  {
    hide TablesSized, B.WellSized, Becomes, SubjectLaw, ReleaseComplete, DeleteSessions;
    Sized(m, u.id);
    Pdns(u.tables);
    var w := u.(tables := OlderProcs(u.tables));
    ReleaseCompleteBecomes(m, e.id, e.setup);
    ReleaseCompleteSays(u, e, w);
    hide Says;
    StayLaw(m, e, m', u, IdleUe(w, m.periodicTau, e.setup), IdleStats(m.stats, u), IdleArmed(m.armed, m.periodicTau, e.setup),
            if u.mm == Unregistered then DeleteSessions(w, B.MAX_APN_PER_UE) else []);
  }

  lemma ReleaseCompleteLaw(m: Mme, id: UeId, t: TimerSetup)
    requires IdsOk(m.ues) && TablesSized(m)
    ensures Law(m, EvReleaseComplete(id, t), ReleaseComplete(m, id, t))
  {
    hide TablesSized, B.WellSized, Vanishes, SubjectLaw, Law;
    var e, m' := EvReleaseComplete(id, t), ReleaseComplete(m, id, t);
    if id in m.ues {
      var u := m.ues[id];
      Sized(m, u.id);
      hide ReleaseComplete, Stopped;
      if Ends(u, e) {
        ReleaseCompleteEnds(m, id, t);
        GoneLaw(m, e, m', u, m.stats.(connected := Less(m.stats.connected)), Stopped(m.armed, {u.reach, u.detach, u.setup}), []);
      } else {
        ReleaseCompleteStays(m, e, m', u);
      }
      IsSubject(m, e, m', u);
    } else {
      NothingHappens(m, e);
    }
  }

  function ReleasedUe(u: Ue, cause: Cause, periodicTau: bool, t: TimerSetup): (v: Ue) {
    if u.ecm == Idle then
      if cause == SctpReset then IdleUe(u.(relCause := cause), periodicTau, t) else u.(relCause := cause)
    else u.(setup := INACTIVE, relCause := if u.setup != INACTIVE then InitialContextSetupFailed else cause)
  }

  function ReleasedArmed(armed: set<TimerId>, u: Ue, cause: Cause, periodicTau: bool, t: TimerSetup): (armed': set<TimerId>) {
    if u.ecm == Connected then Stopped(armed, {u.setup}) else if cause == SctpReset then IdleArmed(armed, periodicTau, t) else armed
  }

  function ReleaseMessages(u: Ue, cause: Cause): (msgs: seq<Message>)
    requires |u.tables.pdns| == B.MAX_APN_PER_UE
  {
    if u.ecm == Idle then if cause == SctpReset then [S1ReleaseCommand(u.id, u.enbUeId, SctpReset)] else []
    else if u.mm == Unregistered then [ImplicitDetachInd(u.id)]
    else ReleaseBearers(ReleasedUe(u, cause, false, TimerSetup.Failed), B.MAX_APN_PER_UE)
  }

  lemma ReleaseIdleBecomes(m: Mme, id: UeId, enbUeId: nat, enbId: nat, cause: Cause, t: TimerSetup, u: Ue)
    requires TablesSized(m) && FindForRelease(m, id, enbUeId, enbId) == Some(u) && u.ecm == Idle && |u.tables.pdns| == B.MAX_APN_PER_UE
    ensures Becomes(m, ReleaseReq(m, id, enbUeId, enbId, cause, t), u, ReleasedUe(u, cause, m.periodicTau, t), m.stats,
                    ReleasedArmed(m.armed, u, cause, m.periodicTau, t), ReleaseMessages(u, cause))
  {
    hide ReleaseBearers, FindForRelease, TablesSized, SigIdle, IdleUe, IdleArmed;
    var u1 := u.(relCause := cause);
    if cause == SctpReset {
      SigIdleBecomes(PutUe(m, u1), u1, t);
      PutAgain(m.ues, u.id, u1, IdleUe(u1, m.periodicTau, t));
      SameId(u1, m.periodicTau, t);
    }
  }

  lemma SameId(u: Ue, periodicTau: bool, t: TimerSetup)
    ensures IdleUe(u, periodicTau, t).id == u.id
  {
  }

  lemma ReleaseConnectedBecomes(m: Mme, id: UeId, enbUeId: nat, enbId: nat, cause: Cause, t: TimerSetup, u: Ue)
    requires TablesSized(m) && FindForRelease(m, id, enbUeId, enbId) == Some(u) && u.ecm == Connected && |u.tables.pdns| == B.MAX_APN_PER_UE
    ensures Becomes(m, ReleaseReq(m, id, enbUeId, enbId, cause, t), u, ReleasedUe(u, cause, m.periodicTau, t), m.stats,
                    ReleasedArmed(m.armed, u, cause, m.periodicTau, t), ReleaseMessages(u, cause))
  {
    hide ReleaseBearers, FindForRelease, TablesSized, SigIdle;
    PutAgain(m.ues, u.id, u.(relCause := cause), ReleasedUe(u, cause, m.periodicTau, t));
  }

  lemma ReleaseSays(u: Ue, e: Event)
    requires B.WellSized(u.tables) && e.EvReleaseReq?
    ensures Says(u, e, ReleaseMessages(u, e.cause))
  {
    hide ReleaseBearers, ReleasesAll, B.Erabs, DeletesAll, AsksNas;
    ReleasesAllPdns(u, ReleasedUe(u, e.cause, false, TimerSetup.Failed));
  }

  lemma FoundIsLive(m: Mme, id: UeId, enbUeId: nat, enbId: nat)
    requires IdsOk(m.ues) && FindForRelease(m, id, enbUeId, enbId).Some?
    ensures var u := FindForRelease(m, id, enbUeId, enbId).value; u.id in m.ues && m.ues[u.id] == u
  {
    hide EnbKey.Pack;
  }

  lemma ReleaseReqLaw(m: Mme, id: UeId, enbUeId: nat, enbId: nat, cause: Cause, t: TimerSetup)
    requires IdsOk(m.ues) && TablesSized(m)
    ensures Law(m, EvReleaseReq(id, enbUeId, enbId, cause, t), ReleaseReq(m, id, enbUeId, enbId, cause, t))
  {
    hide TablesSized, B.WellSized, Becomes, Vanishes, SubjectLaw, Law, FindForRelease;
    var e, m' := EvReleaseReq(id, enbUeId, enbId, cause, t), ReleaseReq(m, id, enbUeId, enbId, cause, t);
    if FindForRelease(m, id, enbUeId, enbId).Some? {
      var u := FindForRelease(m, id, enbUeId, enbId).value;
      FoundIsLive(m, id, enbUeId, enbId);
      Sized(m, u.id);
      hide ReleaseReq, Stopped;
      Pdns(u.tables);
      if u.ecm == Idle {
        ReleaseIdleBecomes(m, id, enbUeId, enbId, cause, t, u);
      } else {
        ReleaseConnectedBecomes(m, id, enbUeId, enbId, cause, t, u);
      }
      ReleaseSays(u, e);
      hide Says, ReleaseMessages;
      StayLaw(m, e, m', u, ReleasedUe(u, cause, m.periodicTau, t), m.stats, ReleasedArmed(m.armed, u, cause, m.periodicTau, t), ReleaseMessages(u, cause));
      IsSubject(m, e, m', u);
    } else {
      NothingFound(m, e);
    }
  }

  lemma NothingFound(m: Mme, e: Event)
    requires IdsOk(m.ues) && TablesSized(m) && e.EvReleaseReq? && FindForRelease(m, e.id, e.enbUeId, e.enbId).None?
    ensures Law(m, e, m)
  {
    hide SubjectLaw, TablesSized, FindForRelease;
  }

  lemma DetachIdleMoves(m: Mme, id: UeId, t: TimerSetup)
    requires TablesSized(m) && id in m.ues && m.ues[id].id == id && B.WellSized(m.ues[id].tables)
    requires !NoSession(m.ues[id]) || m.ues[id].ecm == Idle
    ensures var u, m' := m.ues[id], DetachReq(m, id, t);
            if !NoSession(u) then Becomes(m, m', u, u, m.stats, m.armed, DeleteSessions(u, B.MAX_APN_PER_UE))
            else Vanishes(m, m', u, m.stats, Stopped(m.armed, {u.reach, u.detach, u.setup}), [EndCommand(u)])
  {
    hide DeleteSessions, TablesSized, B.WellSized, DetachConnected;
    assert m.ues[id := m.ues[id]] == m.ues;
  }

  lemma DetachResetMoves(m: Mme, u: Ue, t: TimerSetup)
    requires u.id in m.ues && m.ues[u.id] == u && u.ecm == Connected && u.relCause == SctpReset
    ensures Vanishes(m, DetachConnected(m, u, t), u, m.stats.(connected := Less(m.stats.connected)),
                     if m.periodicTau then Stopped(m.armed + StartedOf(t), {Number(t), u.detach, u.setup})
                     else Stopped(m.armed, {u.reach, u.detach, u.setup}), [EndCommand(u)])
  {
    PutAgain(m.ues, u.id, u, IdleUe(u, m.periodicTau, t));
    PutAgain(m.ues, u.id, IdleUe(u, m.periodicTau, t), u);
    assert m.ues[u.id := u] == m.ues;
  }

  lemma DetachConnectedBecomes(m: Mme, u: Ue, t: TimerSetup)
    requires u.id in m.ues && m.ues[u.id] == u && u.ecm == Connected && u.relCause != SctpReset
    ensures Becomes(m, DetachConnected(m, u, t), u, u.(relCause := InvalidCause), m.stats, m.armed, [EndCommand(u)])
  {
    PutAgain(m.ues, u.id, u.(relCause := if u.relCause == InvalidCause then NasDetach else u.relCause), u.(relCause := InvalidCause));
  }

  lemma DetachIsConnected(m: Mme, id: UeId, t: TimerSetup)
    requires TablesSized(m) && id in m.ues && NoSession(m.ues[id]) && m.ues[id].ecm == Connected
    ensures DetachReq(m, id, t) == DetachConnected(m, m.ues[id], t)
  {
    hide DetachConnected, TablesSized;
  }

  lemma DetachSays(u: Ue, e: Event)
    requires B.WellSized(u.tables) && e.EvDetachReq? && !NoSession(u)
    ensures Says(u, e, DeleteSessions(u, B.MAX_APN_PER_UE))
  {
    hide DeleteSessions, DeletesAll, ReleasesAll, AsksNas, B.Erabs;
    DeletesAllPdns(u, u);
  }

  lemma DetachConnectedLaw(m: Mme, e: Event, m': Mme, u: Ue)
    requires B.WellSized(u.tables) && u.id in m.ues && m.ues[u.id] == u && e.EvDetachReq? && NoSession(u) && u.ecm == Connected
    requires m' == DetachConnected(m, u, e.setup)
    ensures SubjectLaw(m, e, m', u)
  {
    hide B.WellSized, Becomes, Vanishes, SubjectLaw, DetachConnected, Stopped;
    if u.relCause != SctpReset {
      DetachConnectedBecomes(m, u, e.setup);
      StayLaw(m, e, m', u, u.(relCause := InvalidCause), m.stats, m.armed, [EndCommand(u)]);
    } else {
      DetachResetMoves(m, u, e.setup);
      GoneLaw(m, e, m', u, m.stats.(connected := Less(m.stats.connected)),
              if m.periodicTau then Stopped(m.armed + StartedOf(e.setup), {Number(e.setup), u.detach, u.setup})
              else Stopped(m.armed, {u.reach, u.detach, u.setup}), [EndCommand(u)]);
    }
  }

  lemma DetachIdleLaw(m: Mme, e: Event, m': Mme, u: Ue)
    requires TablesSized(m) && e.EvDetachReq? && e.id in m.ues && m.ues[e.id] == u && u.id == e.id
    requires (u.ecm == Idle || !NoSession(u)) && m' == DetachReq(m, e.id, e.setup)
    ensures SubjectLaw(m, e, m', u)
  {
    hide TablesSized, B.WellSized, Becomes, Vanishes, SubjectLaw, DetachReq, Stopped, DeleteSessions;
    Sized(m, u.id);
    Pdns(u.tables);
    DetachIdleMoves(m, e.id, e.setup);
    if NoSession(u) {
      GoneLaw(m, e, m', u, m.stats, Stopped(m.armed, {u.reach, u.detach, u.setup}), [EndCommand(u)]);
    } else {
      DetachSays(u, e);
      hide Says;
      StayLaw(m, e, m', u, u, m.stats, m.armed, DeleteSessions(u, B.MAX_APN_PER_UE));
    }
  }

  lemma DetachReqLaw(m: Mme, id: UeId, t: TimerSetup)
    requires IdsOk(m.ues) && TablesSized(m)
    ensures Law(m, EvDetachReq(id, t), DetachReq(m, id, t))
  {
    hide TablesSized, B.WellSized, SubjectLaw, Law, DetachConnected, NoSession;
    var e, m' := EvDetachReq(id, t), DetachReq(m, id, t);
    if id in m.ues {
      var u := m.ues[id];
      Sized(m, u.id);
      hide DetachReq;
      if u.ecm == Idle || !NoSession(u) {
        DetachIdleLaw(m, e, m', u);
      } else {
        DetachIsConnected(m, id, t);
        DetachConnectedLaw(m, e, m', u);
      }
      IsSubject(m, e, m', u);
    } else {
      NothingHappens(m, e);
    }
  }

  /** A step that changes nothing but the tables of a context and what it counts and sends. */
  ghost predicate OnlyTables(m: Mme, m': Mme, u: Ue, stats: Stats, msgs: seq<Message>) {
    && u.id in m'.ues
    && Becomes(m, m', u, u.(tables := m'.ues[u.id].tables), stats, m.armed, msgs)
  }

  lemma TablesLaw(m: Mme, e: Event, m': Mme, u: Ue, stats: Stats, msgs: seq<Message>)
    requires TablesSized(m) && B.WellSized(u.tables) && u.id in m.ues && m.ues[u.id] == u && Target(m, e) == u.id
    requires TableStep(e) && OnlyTables(m, m', u, stats, msgs) && TablesAfter(u.tables, e) == Some(m'.ues[u.id].tables)
    requires CountersLaw(m.stats, u, e, stats) && Says(u, e, msgs)
    ensures Law(m, e, m')
  {
    hide TablesSized, B.WellSized, SubjectLaw, Law, Target, CountersLaw, Says, Becomes, TablesAfter;
    StayLaw(m, e, m', u, u.(tables := m'.ues[u.id].tables), stats, m.armed, msgs);
    IsSubject(m, e, m', u);
  }

  lemma PdnCreatedOnlyTables(m: Mme, id: UeId, cid: nat, apn: Option<(nat, B.Arp)>, u: Ue)
    requires TablesSized(m) && id in m.ues && u == m.ues[id] && u.id in m.ues && m.ues[u.id] == u && B.WellSized(u.tables) && PdnCreated(m, id, cid, apn).Done?
    ensures OnlyTables(m, PdnCreated(m, id, cid, apn).mme, u, m.stats, [])
    ensures TablesAfter(u.tables, EvPdnCreated(id, cid, apn)) == Some(PdnCreated(m, id, cid, apn).mme.ues[u.id].tables)
  {
    hide TablesSized, B.WellSized, B.CreatePdn;
  }

  lemma PdnCreatedLaw(m: Mme, id: UeId, cid: nat, apn: Option<(nat, B.Arp)>)
    requires IdsOk(m.ues) && TablesSized(m) && PdnCreated(m, id, cid, apn).Done?
    ensures Law(m, EvPdnCreated(id, cid, apn), PdnCreated(m, id, cid, apn).mme)
  {
    hide TablesSized, B.WellSized, TablesAfter, Law, PdnCreated;
    var e, m' := EvPdnCreated(id, cid, apn), PdnCreated(m, id, cid, apn).mme;
    if id in m.ues {
      var u := m.ues[id];
      Sized(m, u.id);
      PdnCreatedOnlyTables(m, id, cid, apn, u);
      TablesLaw(m, e, m', u, m.stats, []);
    } else {
      PdnCreatedIgnored(m, id, cid, apn);
      NothingHappens(m, e);
    }
  }

  lemma PdnCreatedIgnored(m: Mme, id: UeId, cid: nat, apn: Option<(nat, B.Arp)>)
    requires TablesSized(m) && !(id in m.ues)
    ensures PdnCreated(m, id, cid, apn) == Done(m)
  {
    hide TablesSized;
  }

  lemma BearerCreatedOnlyTables(m: Mme, id: UeId, cid: nat, ebi: nat, isDefault: bool, qci: nat, u: Ue)
    requires TablesSized(m) && id in m.ues && u == m.ues[id] && u.id in m.ues && m.ues[u.id] == u && B.WellSized(u.tables) && BearerCreated(m, id, cid, ebi, isDefault, qci).Done?
    ensures OnlyTables(m, BearerCreated(m, id, cid, ebi, isDefault, qci).mme, u, m.stats, [])
    ensures TablesAfter(u.tables, EvBearerCreated(id, cid, ebi, isDefault, qci)) == Some(BearerCreated(m, id, cid, ebi, isDefault, qci).mme.ues[u.id].tables)
  {
    hide TablesSized, B.WellSized, B.NasCreateBearer;
  }

  lemma BearerCreatedLaw(m: Mme, id: UeId, cid: nat, ebi: nat, isDefault: bool, qci: nat)
    requires IdsOk(m.ues) && TablesSized(m) && BearerCreated(m, id, cid, ebi, isDefault, qci).Done?
    ensures Law(m, EvBearerCreated(id, cid, ebi, isDefault, qci), BearerCreated(m, id, cid, ebi, isDefault, qci).mme)
  {
    hide TablesSized, B.WellSized, TablesAfter, Law, BearerCreated;
    var e, m' := EvBearerCreated(id, cid, ebi, isDefault, qci), BearerCreated(m, id, cid, ebi, isDefault, qci).mme;
    if id in m.ues {
      var u := m.ues[id];
      Sized(m, u.id);
      BearerCreatedOnlyTables(m, id, cid, ebi, isDefault, qci, u);
      TablesLaw(m, e, m', u, m.stats, []);
    } else {
      BearerCreatedIgnored(m, id, cid, ebi, isDefault, qci);
      NothingHappens(m, e);
    }
  }

  lemma BearerCreatedIgnored(m: Mme, id: UeId, cid: nat, ebi: nat, isDefault: bool, qci: nat)
    requires TablesSized(m) && !(id in m.ues)
    ensures BearerCreated(m, id, cid, ebi, isDefault, qci) == Done(m)
  {
    hide TablesSized;
  }

  lemma EsmStatusOnlyTables(m: Mme, id: UeId, ebi: nat, status: B.EsmState, u: Ue)
    requires TablesSized(m) && id in m.ues && u == m.ues[id] && u.id in m.ues && m.ues[u.id] == u && B.WellSized(u.tables)
    ensures OnlyTables(m, EsmStatus(m, id, ebi, status), u, m.stats, [])
    ensures TablesAfter(u.tables, EvEsmStatus(id, ebi, status)) == Some(EsmStatus(m, id, ebi, status).ues[u.id].tables)
  {
    hide TablesSized, B.WellSized, B.SetEsmStatus;
  }

  lemma EsmStatusLaw(m: Mme, id: UeId, ebi: nat, status: B.EsmState)
    requires IdsOk(m.ues) && TablesSized(m)
    ensures Law(m, EvEsmStatus(id, ebi, status), EsmStatus(m, id, ebi, status))
  {
    hide TablesSized, B.WellSized, TablesAfter, Law, EsmStatus;
    var e, m' := EvEsmStatus(id, ebi, status), EsmStatus(m, id, ebi, status);
    if id in m.ues {
      var u := m.ues[id];
      Sized(m, u.id);
      EsmStatusOnlyTables(m, id, ebi, status, u);
      TablesLaw(m, e, m', u, m.stats, []);
    } else {
      EsmStatusIgnored(m, id, ebi, status);
      NothingHappens(m, e);
    }
  }

  lemma EsmStatusIgnored(m: Mme, id: UeId, ebi: nat, status: B.EsmState)
    requires TablesSized(m) && !(id in m.ues)
    ensures EsmStatus(m, id, ebi, status) == m
  {
    hide TablesSized;
  }

  lemma BearerS1ReleasedOnlyTables(m: Mme, id: UeId, ebi: nat, u: Ue)
    requires TablesSized(m) && id in m.ues && u == m.ues[id] && u.id in m.ues && m.ues[u.id] == u && B.WellSized(u.tables)
    ensures OnlyTables(m, BearerS1Released(m, id, ebi), u, m.stats, [])
    ensures TablesAfter(u.tables, EvBearerS1Released(id, ebi)) == Some(BearerS1Released(m, id, ebi).ues[u.id].tables)
  {
    hide TablesSized, B.WellSized, B.S1Release;
  }

  lemma BearerS1ReleasedLaw(m: Mme, id: UeId, ebi: nat)
    requires IdsOk(m.ues) && TablesSized(m)
    ensures Law(m, EvBearerS1Released(id, ebi), BearerS1Released(m, id, ebi))
  {
    hide TablesSized, B.WellSized, TablesAfter, Law, BearerS1Released;
    var e, m' := EvBearerS1Released(id, ebi), BearerS1Released(m, id, ebi);
    if id in m.ues {
      var u := m.ues[id];
      Sized(m, u.id);
      BearerS1ReleasedOnlyTables(m, id, ebi, u);
      TablesLaw(m, e, m', u, m.stats, []);
    } else {
      BearerS1ReleasedIgnored(m, id, ebi);
      NothingHappens(m, e);
    }
  }

  lemma BearerS1ReleasedIgnored(m: Mme, id: UeId, ebi: nat)
    requires TablesSized(m) && !(id in m.ues)
    ensures BearerS1Released(m, id, ebi) == m
  {
    hide TablesSized;
  }

  function SessionMessages(u: Ue, accepted: bool, ms: seq<B.SessionBearer>): (msgs: seq<Message>)
    requires |u.tables.bearers| == B.BEARERS_PER_UE
  {
    if !accepted || ms == [] || B.GetBearer(u.tables, ms[0].ebi).None? then [PdnConnectivityFail(u.id)]
    else [PdnConnectivityRsp(u.id, B.GetBearer(u.tables, ms[0].ebi).value.pdnCxId, ms[|ms| - 1].ebi)]
  }

  function SessionStats(s: Stats, accepted: bool, n: nat): (s': Stats) {
    if accepted then s.(defaultBearers := s.defaultBearers + n) else s
  }

  lemma {:induction false} FirstBearerThere(t: B.Tables, sgwTeid: nat, ms: seq<B.SessionBearer>, n: nat)
    requires B.WellSized(t) && 0 < n <= |ms| && B.SessionsCreated(t, sgwTeid, ms, n).Some?
    ensures B.GetBearer(t, ms[0].ebi).Some?
  {
    hide B.WellSized;
    if n > 1 {
      hide B.SessionCreated;
      FirstBearerThere(t, sgwTeid, ms, n - 1);
    } else {
      assert B.SessionsCreated(t, sgwTeid, ms, 0) == Some(t);
    }
  }

  lemma CreateSessionRspOnlyTables(m: Mme, teid: nat, accepted: bool, sgwTeid: nat, ms: seq<B.SessionBearer>, u: Ue)
    requires TablesSized(m) && LookupTeid(m, teid).Some? && u == LookupTeid(m, teid).value && u.id in m.ues && m.ues[u.id] == u && B.WellSized(u.tables) && CreateSessionRsp(m, teid, accepted, sgwTeid, ms).Done? && (accepted ==> ms != [] && B.GetBearer(u.tables, ms[0].ebi).Some?)
    ensures OnlyTables(m, CreateSessionRsp(m, teid, accepted, sgwTeid, ms).mme, u, SessionStats(m.stats, accepted, |ms|), SessionMessages(u, accepted, ms))
    ensures TablesAfter(u.tables, EvCreateSessionRsp(teid, accepted, sgwTeid, ms)) == Some(CreateSessionRsp(m, teid, accepted, sgwTeid, ms).mme.ues[u.id].tables)
  {
    hide TablesSized, B.WellSized, B.SessionsCreated, B.GetBearer;
  }

  lemma CreateSessionRspLaw(m: Mme, teid: nat, accepted: bool, sgwTeid: nat, ms: seq<B.SessionBearer>)
    requires IdsOk(m.ues) && TablesSized(m) && CreateSessionRsp(m, teid, accepted, sgwTeid, ms).Done?
    ensures Law(m, EvCreateSessionRsp(teid, accepted, sgwTeid, ms), CreateSessionRsp(m, teid, accepted, sgwTeid, ms).mme)
  {
    hide TablesSized, B.WellSized, TablesAfter, Law, CreateSessionRsp;
    var e, m' := EvCreateSessionRsp(teid, accepted, sgwTeid, ms), CreateSessionRsp(m, teid, accepted, sgwTeid, ms).mme;
    if LookupTeid(m, teid).Some? {
      var u := LookupTeid(m, teid).value;
      Sized(m, u.id);
      Pdns(u.tables);
      SessionBearerThere(m, teid, accepted, sgwTeid, ms, u);
      CreateSessionRspOnlyTables(m, teid, accepted, sgwTeid, ms, u);
      TablesLaw(m, e, m', u, SessionStats(m.stats, accepted, |ms|), SessionMessages(u, accepted, ms));
    } else {
      CreateSessionRspIgnored(m, teid, accepted, sgwTeid, ms);
      NothingHappens(m, e);
    }
  }

  lemma CreateSessionRspIgnored(m: Mme, teid: nat, accepted: bool, sgwTeid: nat, ms: seq<B.SessionBearer>)
    requires TablesSized(m) && !(LookupTeid(m, teid).Some?)
    ensures CreateSessionRsp(m, teid, accepted, sgwTeid, ms) == Done(m)
  {
    hide TablesSized;
  }

  lemma CreateBearerReqOnlyTables(m: Mme, teid: nat, ebi: nat, trxn: nat, ms: seq<B.BearerRequest>, u: Ue)
    requires TablesSized(m) && LookupTeid(m, teid).Some? && u == LookupTeid(m, teid).value && u.id in m.ues && m.ues[u.id] == u && B.WellSized(u.tables) && CreateBearerReq(m, teid, ebi, trxn, ms).Done?
    ensures OnlyTables(m, CreateBearerReq(m, teid, ebi, trxn, ms).mme, u, m.stats, RequestMessages(u, ebi, trxn, ms))
    ensures TablesAfter(u.tables, EvCreateBearerReq(teid, ebi, trxn, ms)) == Some(CreateBearerReq(m, teid, ebi, trxn, ms).mme.ues[u.id].tables)
  {
    hide TablesSized, B.RequestBearers, DedicatedReqs;
    var linked := B.GetBearer(u.tables, ebi);
    hide B.GetBearer, B.WellSized;
    if linked.None? {
      assert m.ues[u.id := u] == m.ues;
    } else {
      assert LinkedPdn(u.tables, ebi) == Some(linked.value.pdnCxId);
    }
  }

  lemma CreateBearerReqLaw(m: Mme, teid: nat, ebi: nat, trxn: nat, ms: seq<B.BearerRequest>)
    requires IdsOk(m.ues) && TablesSized(m) && CreateBearerReq(m, teid, ebi, trxn, ms).Done?
    ensures Law(m, EvCreateBearerReq(teid, ebi, trxn, ms), CreateBearerReq(m, teid, ebi, trxn, ms).mme)
  {
    hide TablesSized, B.WellSized, TablesAfter, Law, CreateBearerReq;
    var e, m' := EvCreateBearerReq(teid, ebi, trxn, ms), CreateBearerReq(m, teid, ebi, trxn, ms).mme;
    if LookupTeid(m, teid).Some? {
      var u := LookupTeid(m, teid).value;
      Sized(m, u.id);
      CreateBearerReqOnlyTables(m, teid, ebi, trxn, ms, u);
      RequestSays(m, e, u);
      TablesLaw(m, e, m', u, m.stats, RequestMessages(u, ebi, trxn, ms));
    } else {
      CreateBearerReqIgnored(m, teid, ebi, trxn, ms);
      NothingHappens(m, e);
    }
  }

  lemma CreateBearerReqIgnored(m: Mme, teid: nat, ebi: nat, trxn: nat, ms: seq<B.BearerRequest>)
    requires TablesSized(m) && !(LookupTeid(m, teid).Some?)
    ensures CreateBearerReq(m, teid, ebi, trxn, ms) == Done(m)
  {
    hide TablesSized;
  }

  function RequestMessages(u: Ue, ebi: nat, trxn: nat, ms: seq<B.BearerRequest>): (msgs: seq<Message>)
    requires B.WellSized(u.tables)
  {
    var linked := B.GetBearer(u.tables, ebi);
    if linked.None? || !(0 <= linked.value.pdnCxId < B.MAX_APN_PER_UE) || u.tables.pdns[linked.value.pdnCxId].None? then []
    else DedicatedReqs(u, linked.value.pdnCxId, trxn, ms, |ms|)
  }

  lemma RequestSays(m: Mme, e: Event, u: Ue)
    requires TablesSized(m) && e.EvCreateBearerReq? && LookupTeid(m, e.teid) == Some(u) && B.WellSized(u.tables)
    requires CreateBearerReq(m, e.teid, e.ebi, e.trxn, e.requests).Done?
    ensures Says(u, e, RequestMessages(u, e.ebi, e.trxn, e.requests))
  {
    hide TablesSized, B.RequestBearers, DedicatedReqs, ReleasesAll, DeletesAll, B.Erabs, B.GetBearer, Resolved, AsksEach;
    var linked := B.GetBearer(u.tables, e.ebi);
    if linked.Some? {
      BP.StartSized(u.tables, e.trxn);
      AsksForEach(u, linked.value.pdnCxId, e.trxn, e.requests, |e.requests|);
    }
  }

  function AnswerMessages(u: Ue, ebi: nat, success: bool): (msgs: seq<Message>)
    requires B.WellSized(u.tables)
  {
    var a := B.Answer(u.tables, ebi, success);
    if a.Some? && a.value.sent.Some? then [CreateBearerRsp(u.teid, a.value.sent.value)] else []
  }

  lemma DedicatedAnswerOnlyTables(m: Mme, id: UeId, ebi: nat, success: bool, u: Ue)
    requires TablesSized(m) && id in m.ues && u == m.ues[id] && u.id in m.ues && m.ues[u.id] == u && B.WellSized(u.tables) && DedicatedAnswer(m, id, ebi, success).Done?
    ensures OnlyTables(m, DedicatedAnswer(m, id, ebi, success).mme, u, m.stats, AnswerMessages(u, ebi, success))
    ensures TablesAfter(u.tables, EvDedicatedAnswer(id, ebi, success)) == Some(DedicatedAnswer(m, id, ebi, success).mme.ues[u.id].tables)
  {
    hide TablesSized, B.WellSized, B.Answer;
  }

  lemma DedicatedAnswerLaw(m: Mme, id: UeId, ebi: nat, success: bool)
    requires IdsOk(m.ues) && TablesSized(m) && DedicatedAnswer(m, id, ebi, success).Done?
    ensures Law(m, EvDedicatedAnswer(id, ebi, success), DedicatedAnswer(m, id, ebi, success).mme)
  {
    hide TablesSized, B.WellSized, TablesAfter, Law, DedicatedAnswer;
    var e, m' := EvDedicatedAnswer(id, ebi, success), DedicatedAnswer(m, id, ebi, success).mme;
    if id in m.ues {
      var u := m.ues[id];
      Sized(m, u.id);
      DedicatedAnswerOnlyTables(m, id, ebi, success, u);
      TablesLaw(m, e, m', u, m.stats, AnswerMessages(u, ebi, success));
    } else {
      DedicatedAnswerIgnored(m, id, ebi, success);
      NothingHappens(m, e);
    }
  }

  lemma DedicatedAnswerIgnored(m: Mme, id: UeId, ebi: nat, success: bool)
    requires TablesSized(m) && !(id in m.ues)
    ensures DedicatedAnswer(m, id, ebi, success) == Done(m)
  {
    hide TablesSized;
  }

  function ErabMessages(u: Ue, ups: seq<B.ErabSetup>, downs: seq<nat>): (msgs: seq<Message>)
    requires |u.tables.bearers| == B.BEARERS_PER_UE
  {
    var r := B.ErabSetupRsp(u.tables, ups, downs);
    if r.Some? && r.value.1.Some? then [CreateBearerRsp(u.teid, r.value.1.value)] else []
  }

  lemma ErabSetupRspOnlyTables(m: Mme, id: UeId, ups: seq<B.ErabSetup>, downs: seq<nat>, u: Ue)
    requires TablesSized(m) && id in m.ues && u == m.ues[id] && u.id in m.ues && m.ues[u.id] == u && B.WellSized(u.tables) && ErabSetupRsp(m, id, ups, downs).Done?
    ensures OnlyTables(m, ErabSetupRsp(m, id, ups, downs).mme, u, m.stats, ErabMessages(u, ups, downs))
    ensures TablesAfter(u.tables, EvErabSetupRsp(id, ups, downs)) == Some(ErabSetupRsp(m, id, ups, downs).mme.ues[u.id].tables)
  {
    hide TablesSized, B.WellSized, B.ErabSetupRsp;
  }

  lemma ErabSetupRspLaw(m: Mme, id: UeId, ups: seq<B.ErabSetup>, downs: seq<nat>)
    requires IdsOk(m.ues) && TablesSized(m) && ErabSetupRsp(m, id, ups, downs).Done?
    ensures Law(m, EvErabSetupRsp(id, ups, downs), ErabSetupRsp(m, id, ups, downs).mme)
  {
    hide TablesSized, B.WellSized, TablesAfter, Law, ErabSetupRsp;
    var e, m' := EvErabSetupRsp(id, ups, downs), ErabSetupRsp(m, id, ups, downs).mme;
    if id in m.ues {
      var u := m.ues[id];
      Sized(m, u.id);
      Pdns(u.tables);
      ErabSetupRspOnlyTables(m, id, ups, downs, u);
      TablesLaw(m, e, m', u, m.stats, ErabMessages(u, ups, downs));
    } else {
      ErabSetupRspIgnored(m, id, ups, downs);
      NothingHappens(m, e);
    }
  }

  lemma ErabSetupRspIgnored(m: Mme, id: UeId, ups: seq<B.ErabSetup>, downs: seq<nat>)
    requires TablesSized(m) && !(id in m.ues)
    ensures ErabSetupRsp(m, id, ups, downs) == Done(m)
  {
    hide TablesSized;
  }

  lemma SessionBearerThere(m: Mme, teid: nat, accepted: bool, sgwTeid: nat, ms: seq<B.SessionBearer>, u: Ue)
    requires TablesSized(m) && LookupTeid(m, teid) == Some(u) && B.WellSized(u.tables) && CreateSessionRsp(m, teid, accepted, sgwTeid, ms).Done?
    ensures accepted ==> ms != [] && B.GetBearer(u.tables, ms[0].ebi).Some?
  {
    hide TablesSized, B.SessionsCreated, B.GetBearer, B.WellSized;
    if accepted {
      FirstBearerThere(u.tables, sgwTeid, ms, |ms|);
    }
  }

  // ---------------------------------------------------------------- signalling

  /** Becoming connected, in the same terms. */
  function ConnectedUe(u: Ue): (v: Ue) { if u.ecm == Idle then u.(ecm := Connected, reach := INACTIVE, detach := INACTIVE) else u }

  function ConnectedStats(s: Stats, u: Ue): (s': Stats) { if u.ecm == Idle then s.(connected := s.connected + 1) else s }

  function ConnectedArmed(armed: set<TimerId>, u: Ue): (armed': set<TimerId>) {
    if u.ecm == Idle then Stopped(armed, {u.reach, u.detach}) else armed
  }

  lemma SigConnectedBecomes(m: Mme, u: Ue)
    requires u.id in m.ues && m.ues[u.id] == u
    ensures Becomes(m, SigConnected(m, u), u, ConnectedUe(u), ConnectedStats(m.stats, u), ConnectedArmed(m.armed, u), [])
    ensures ToConnected(u) == ConnectedUe(u)
  {
    assert m.ues[u.id := u] == m.ues;
  }

  lemma NasDownlinkBecomes(m: Mme, id: UeId, success: bool)
    requires id in m.ues && m.ues[id].id == id
    ensures var u := m.ues[id];
            && NasDownlinkReq(m, id, success).Done?
            && Becomes(m, NasDownlinkReq(m, id, success).mme, u, if success then ConnectedUe(u) else ConnectedUe(u).(relCause := NasNormalRelease),
                       ConnectedStats(m.stats, u), ConnectedArmed(m.armed, u), DownlinkMessages(u, success))
  {
    hide SigConnected, ToConnected, ConnectedStats, ConnectedArmed;
    var u := m.ues[id];
    var m1 := Send(m, [NasDownlink(id, u.enbUeId)]);
    SigConnectedBecomes(m1, u);
    PutAgain(m.ues, id, ConnectedUe(u), ConnectedUe(u).(relCause := NasNormalRelease));
  }

  function DownlinkMessages(u: Ue, success: bool): (msgs: seq<Message>) {
    [NasDownlink(u.id, u.enbUeId)] + if success then [] else [S1ReleaseCommand(u.id, u.enbUeId, NasNormalRelease)]
  }

  lemma NasDownlinkLaw(m: Mme, id: UeId, success: bool)
    requires IdsOk(m.ues) && TablesSized(m) && NasDownlinkReq(m, id, success).Done?
    ensures Law(m, EvNasDownlink(id, success), NasDownlinkReq(m, id, success).mme)
  {
    hide TablesSized, B.WellSized, Becomes, Vanishes, SubjectLaw, Law;
    var e, m' := EvNasDownlink(id, success), NasDownlinkReq(m, id, success).mme;
    var u := m.ues[id];
    hide NasDownlinkReq, Stopped;
    Sized(m, id);
    NasDownlinkBecomes(m, id, success);
    StayLaw(m, e, m', u, if success then ConnectedUe(u) else ConnectedUe(u).(relCause := NasNormalRelease),
            ConnectedStats(m.stats, u), ConnectedArmed(m.armed, u), DownlinkMessages(u, success));
    IsSubject(m, e, m', u);
  }

  function EstablishMessages(u: Ue, nas: B.NasPdu): (msgs: seq<Message>)
    requires |u.tables.bearers| == B.BEARERS_PER_UE
  {
    var es := B.Erabs(u.tables.bearers, B.BEARERS_PER_UE);
    [ConnectionEstablishment(u.id, es, if es == [] then None else Some(nas))]
  }

  lemma ConnEstCnfBecomes(m: Mme, id: UeId, nas: B.NasPdu, t: TimerSetup)
    requires TablesSized(m) && id in m.ues && m.ues[id].id == id && |m.ues[id].tables.bearers| == B.BEARERS_PER_UE
    ensures var u := m.ues[id];
            Becomes(m, ConnEstCnf(m, id, nas, t), u, ConnectedUe(u).(setup := Number(t)), ConnectedStats(m.stats, u),
                    ConnectedArmed(m.armed, u) + StartedOf(t), EstablishMessages(u, nas))
  {
    hide SigConnected, ToConnected, ConnectedStats, ConnectedArmed, B.Erabs, TablesSized;
    var u := m.ues[id];
    var m1 := Send(m, EstablishMessages(u, nas));
    SigConnectedBecomes(m1, u);
    PutAgain(m.ues, id, ConnectedUe(u), ConnectedUe(u).(setup := Number(t)));
  }

  lemma ConnEstCnfLaw(m: Mme, id: UeId, nas: B.NasPdu, t: TimerSetup)
    requires IdsOk(m.ues) && TablesSized(m)
    ensures Law(m, EvConnEstCnf(id, nas, t), ConnEstCnf(m, id, nas, t))
  {
    hide TablesSized, B.WellSized, Becomes, Vanishes, SubjectLaw, Law, B.Erabs;
    var e, m' := EvConnEstCnf(id, nas, t), ConnEstCnf(m, id, nas, t);
    if id in m.ues {
      var u := m.ues[id];
      Sized(m, id);
      Pdns(u.tables);
      hide ConnEstCnf, Stopped;
      ConnEstCnfBecomes(m, id, nas, t);
      StayLaw(m, e, m', u, ConnectedUe(u).(setup := Number(t)), ConnectedStats(m.stats, u), ConnectedArmed(m.armed, u) + StartedOf(t), EstablishMessages(u, nas));
      IsSubject(m, e, m', u);
    } else {
      NothingHappens(m, e);
    }
  }

  // ---------------------------------------------------------------- attach and sessions

  function ReturnedUe(u: Ue, enbId: nat, enbUeId: nat, guti: Guti): (v: Ue) {
    u.(enbKey := EnbKey.Pack(enbId, enbUeId), enbUeId := enbUeId, guti := if SameGutiButMnc(guti, u.guti) then u.guti else guti,
       reach := INACTIVE, detach := INACTIVE, setup := INACTIVE)
  }

  lemma ReconnectBecomes(m: Mme, u: Ue, enbId: nat, enbUeId: nat, guti: Guti)
    requires u.id in m.ues && m.ues[u.id] == u
    ensures Becomes(m, Reconnect(m, u, enbId, enbUeId, guti), u, ReturnedUe(u, enbId, enbUeId, guti), m.stats, m.armed, [UeIdNotification(u.id, enbUeId)])
  {
    hide EnbKey.Pack, SameGutiButMnc;
  }

  lemma AttachLaw(m: Mme, e: Event)
    requires IdsOk(m.ues) && e.EvInitialUe? && Attach(m, e.enbId, e.enbUeId).Done?
    ensures NobodyLaw(m, e, Attach(m, e.enbId, e.enbUeId).mme)
  {
    hide EnbKey.Pack;
    assert m.generator == INVALID_UE_ID ==> m.ues - {m.generator} == m.ues;
  }

  lemma InitialUeLaw(m: Mme, enbId: nat, enbUeId: nat, served: Option<Guti>)
    requires IdsOk(m.ues) && TablesSized(m) && InitialUe(m, enbId, enbUeId, served).Done?
    ensures Law(m, EvInitialUe(enbId, enbUeId, served), InitialUe(m, enbId, enbUeId, served).mme)
  {
    hide TablesSized, B.WellSized, Becomes, Vanishes, SubjectLaw, NobodyLaw, Reconnect, Attach, EnbKey.Pack, LookupGuti;
    var e := EvInitialUe(enbId, enbUeId, served);
    if served.Some? && LookupGuti(m, served.value).Some? {
      KnownLaw(m, enbId, enbUeId, served.value);
    } else {
      AttachLaw(m, e);
      NewIsNobody(m, enbId, enbUeId);
    }
  }

  lemma KnownLaw(m: Mme, enbId: nat, enbUeId: nat, guti: Guti)
    requires IdsOk(m.ues) && TablesSized(m) && LookupGuti(m, guti).Some?
    ensures Law(m, EvInitialUe(enbId, enbUeId, Some(guti)), Reconnect(m, LookupGuti(m, guti).value, enbId, enbUeId, guti))
  {
    hide TablesSized, B.WellSized, Becomes, Vanishes, SubjectLaw, Law, Reconnect, EnbKey.Pack;
    var e, u := EvInitialUe(enbId, enbUeId, Some(guti)), LookupGuti(m, guti).value;
    var m' := Reconnect(m, u, enbId, enbUeId, guti);
    Sized(m, u.id);
    ReconnectBecomes(m, u, enbId, enbUeId, guti);
    StayLaw(m, e, m', u, ReturnedUe(u, enbId, enbUeId, guti), m.stats, m.armed, [UeIdNotification(u.id, enbUeId)]);
    IsSubject(m, e, m', u);
  }

  lemma NewIsNobody(m: Mme, enbId: nat, enbUeId: nat)
    requires Attach(m, enbId, enbUeId).Done? && IdsOk(m.ues)
    ensures m.generator !in m.ues
  {
    hide EnbKey.Pack;
  }

  lemma PdnConnectivityBecomes(m: Mme, imsi: nat, cid: nat, teid: nat, u: Ue)
    requires TablesSized(m) && LookupImsi(m, imsi) == Some(u) && u.id in m.ues && m.ues[u.id] == u && B.WellSized(u.tables)
    requires PdnConnectivity(m, imsi, cid, teid).Done?
    ensures B.StartSession(u.tables, cid).Some? && cid < B.MAX_APN_PER_UE && u.tables.pdns[cid].Some?
    ensures Becomes(m, PdnConnectivity(m, imsi, cid, teid).mme, u, u.(teid := teid, tables := B.StartSession(u.tables, cid).value), m.stats, m.armed,
                    [CreateSessionReq(u.imsi, teid, u.tables.pdns[cid].value.defaultEbi)])
  {
    hide TablesSized, SameGutiButMnc;
  }

  lemma PdnConnectivityLaw(m: Mme, imsi: nat, cid: nat, teid: nat)
    requires IdsOk(m.ues) && TablesSized(m) && PdnConnectivity(m, imsi, cid, teid).Done?
    ensures Law(m, EvPdnConnectivity(imsi, cid, teid), PdnConnectivity(m, imsi, cid, teid).mme)
  {
    hide TablesSized, B.WellSized, Becomes, Vanishes, SubjectLaw, Law, B.StartSession;
    var e, m' := EvPdnConnectivity(imsi, cid, teid), PdnConnectivity(m, imsi, cid, teid).mme;
    if LookupImsi(m, imsi).Some? {
      var u := LookupImsi(m, imsi).value;
      Sized(m, u.id);
      Pdns(u.tables);
      PdnConnectivityBecomes(m, imsi, cid, teid, u);
      hide PdnConnectivity;
      StayLaw(m, e, m', u, u.(teid := teid, tables := B.StartSession(u.tables, cid).value), m.stats, m.armed,
              [CreateSessionReq(u.imsi, teid, u.tables.pdns[cid].value.defaultEbi)]);
      IsSubject(m, e, m', u);
    } else {
      NothingHappens(m, e);
    }
  }

  lemma CountedLaw(m: Mme, teid: nat, timer: TimerId)
    requires IdsOk(m.ues) && TablesSized(m)
    ensures Law(m, EvModifyBearerRsp(teid), ModifyBearerRsp(m, teid))
    ensures Law(m, EvTimerFires(timer), TimerFires(m, timer))
  {
    hide SubjectLaw, TablesSized;
  }

  // ---------------------------------------------------------------- all steps

  lemma KeysStepObeys(m: Mme, e: Event)
    requires IdsOk(m.ues) && TablesSized(m) && KeysStep(e) && Step(m, e).Done?
    ensures Law(m, e, Step(m, e).mme)
  {
    hide IdsOk, TablesSized, Law, InitialUe, SetValidImsi, ClearIdentities, NewGuti, EmmState, PdnConnectivity, LocationAns;
    match e
    case EvInitialUe(enbId, enbUeId, served) => InitialUeLaw(m, enbId, enbUeId, served);
    case EvSetImsi(id, imsi) => SetImsiLaw(m, id, imsi);
    case EvClearIdentities(id) => ClearLaw(m, id);
    case EvNewGuti(id, guti) => NewGutiLaw(m, id, guti);
    case EvEmmState(id, state) => EmmStateLaw(m, id, state);
    case EvPdnConnectivity(imsi, cid, teid) => PdnConnectivityLaw(m, imsi, cid, teid);
    case EvLocationAns(imsi) => LocationAnsLaw(m, imsi);
  }

  lemma TableStepObeys(m: Mme, e: Event)
    requires IdsOk(m.ues) && TablesSized(m) && TableStep(e) && Step(m, e).Done?
    ensures Law(m, e, Step(m, e).mme)
  {
    hide IdsOk, TablesSized, Law;
    hide PdnCreated, BearerCreated, EsmStatus, BearerS1Released, CreateSessionRsp, CreateBearerReq, DedicatedAnswer, ErabSetupRsp;
    match e
    case EvPdnCreated(id, cid, apn) => PdnCreatedLaw(m, id, cid, apn);
    case EvBearerCreated(id, cid, ebi, isDefault, qci) => BearerCreatedLaw(m, id, cid, ebi, isDefault, qci);
    case EvEsmStatus(id, ebi, status) => EsmStatusLaw(m, id, ebi, status);
    case EvBearerS1Released(id, ebi) => BearerS1ReleasedLaw(m, id, ebi);
    case EvCreateSessionRsp(teid, accepted, sgwTeid, sessions) => CreateSessionRspLaw(m, teid, accepted, sgwTeid, sessions);
    case EvCreateBearerReq(teid, ebi, trxn, requests) => CreateBearerReqLaw(m, teid, ebi, trxn, requests);
    case EvDedicatedAnswer(id, ebi, success) => DedicatedAnswerLaw(m, id, ebi, success);
    case EvErabSetupRsp(id, ups, downs) => ErabSetupRspLaw(m, id, ups, downs);
  }

  lemma ConnectionStepObeys(m: Mme, e: Event)
    requires IdsOk(m.ues) && TablesSized(m) && ConnectionStep(e) && Step(m, e).Done?
    ensures Law(m, e, Step(m, e).mme)
  {
    hide IdsOk, TablesSized, Law;
    hide ConnEstCnf, NasDownlinkReq, ContextSetupRsp, ContextSetupFailure, TimerFires, TimerExpired, ModifyBearerRsp;
    match e
    case EvConnEstCnf(id, nas, setup) => ConnEstCnfLaw(m, id, nas, setup);
    case EvNasDownlink(id, success) => NasDownlinkLaw(m, id, success);
    case EvContextSetupRsp(id) => ContextSetupRspLaw(m, id);
    case EvContextSetupFailure(id) => ContextSetupFailureLaw(m, id);
    case EvTimerFires(timer) => CountedLaw(m, NO_TEID, timer);
    case EvTimerExpired(timer, id, setup) => TimerExpiredLaw(m, timer, id, setup);
    case EvModifyBearerRsp(teid) => CountedLaw(m, teid, INACTIVE);
  }

  lemma ReleaseStepObeys(m: Mme, e: Event)
    requires IdsOk(m.ues) && TablesSized(m) && ReleaseStep(e) && Step(m, e).Done?
    ensures Law(m, e, Step(m, e).mme)
  {
    hide IdsOk, TablesSized, Law, DeleteSessionRsp, ReleaseAccessBearersRsp, ReleaseReq, ReleaseComplete, DetachReq;
    match e
    case EvDeleteSessionRsp(teid) => DeleteSessionRspLaw(m, teid);
    case EvReleaseAccessBearersRsp(teid, setup) => ReleaseAccessBearersRspLaw(m, teid, setup);
    case EvReleaseReq(id, enbUeId, enbId, cause, setup) => ReleaseReqLaw(m, id, enbUeId, enbId, cause, setup);
    case EvReleaseComplete(id, setup) => ReleaseCompleteLaw(m, id, setup);
    case EvDetachReq(id, setup) => DetachReqLaw(m, id, setup);
  }

  /** Every step obeys the tables: what is sent, counted, started and stopped, which context comes or
      goes, and what becomes of every field. */
  lemma StepObeys(m: Mme, e: Event)
    requires IdsOk(m.ues) && TablesSized(m) && Step(m, e).Done?
    ensures Law(m, e, Step(m, e).mme)
  {
    hide IdsOk, TablesSized, Law, Step;
    if KeysStep(e) {
      KeysStepObeys(m, e);
    } else if TableStep(e) {
      TableStepObeys(m, e);
    } else if ConnectionStep(e) {
      ConnectionStepObeys(m, e);
    } else {
      ReleaseStepObeys(m, e);
    }
  }

  // ---------------------------------------------------------------- what ends the process

  lemma PdnCreatedDiesIff(m: Mme, id: UeId, cid: nat, apn: Option<(nat, B.Arp)>)
    requires IdsOk(m.ues) && TablesSized(m)
    ensures PdnCreated(m, id, cid, apn).Abort? <==> Dies(m, EvPdnCreated(id, cid, apn))
  {
    hide TablesSized, B.CreatePdn;
  }

  lemma BearerCreatedDiesIff(m: Mme, id: UeId, cid: nat, ebi: nat, isDefault: bool, qci: nat)
    requires IdsOk(m.ues) && TablesSized(m)
    ensures BearerCreated(m, id, cid, ebi, isDefault, qci).Abort? <==> Dies(m, EvBearerCreated(id, cid, ebi, isDefault, qci))
  {
    hide TablesSized, B.NasCreateBearer;
  }

  lemma PdnConnectivityDiesIff(m: Mme, imsi: nat, cid: nat, teid: nat)
    requires IdsOk(m.ues) && TablesSized(m)
    ensures PdnConnectivity(m, imsi, cid, teid).Abort? <==> Dies(m, EvPdnConnectivity(imsi, cid, teid))
  {
    hide TablesSized, B.StartSession;
  }

  lemma CreateSessionRspDiesIff(m: Mme, teid: nat, accepted: bool, sgwTeid: nat, ms: seq<B.SessionBearer>)
    requires IdsOk(m.ues) && TablesSized(m)
    ensures CreateSessionRsp(m, teid, accepted, sgwTeid, ms).Abort? <==> Dies(m, EvCreateSessionRsp(teid, accepted, sgwTeid, ms))
  {
    hide TablesSized, B.SessionsCreated, B.GetBearer;
  }

  lemma CreateBearerReqDiesIff(m: Mme, teid: nat, ebi: nat, trxn: nat, ms: seq<B.BearerRequest>)
    requires IdsOk(m.ues) && TablesSized(m)
    ensures CreateBearerReq(m, teid, ebi, trxn, ms).Abort? <==> Dies(m, EvCreateBearerReq(teid, ebi, trxn, ms))
  {
    hide TablesSized, B.RequestBearers, DedicatedReqs;
    if LookupTeid(m, teid).Some? {
      var u := LookupTeid(m, teid).value;
      Sized(m, u.id);
      BP.StartSized(u.tables, trxn);
      hide B.StartProc;
      if B.GetBearer(u.tables, ebi).Some? {
        assert LinkedPdn(u.tables, ebi) == Some(B.GetBearer(u.tables, ebi).value.pdnCxId);
      }
    }
  }

  lemma DedicatedAnswerDiesIff(m: Mme, id: UeId, ebi: nat, success: bool)
    requires IdsOk(m.ues) && TablesSized(m)
    ensures DedicatedAnswer(m, id, ebi, success).Abort? <==> Dies(m, EvDedicatedAnswer(id, ebi, success))
  {
    hide TablesSized, B.Answer;
  }

  lemma ErabSetupRspDiesIff(m: Mme, id: UeId, ups: seq<B.ErabSetup>, downs: seq<nat>)
    requires IdsOk(m.ues) && TablesSized(m)
    ensures ErabSetupRsp(m, id, ups, downs).Abort? <==> Dies(m, EvErabSetupRsp(id, ups, downs))
  {
    hide TablesSized, B.ErabSetupRsp;
  }

  lemma NasDownlinkDiesIff(m: Mme, id: UeId, success: bool)
    requires IdsOk(m.ues) && TablesSized(m)
    ensures NasDownlinkReq(m, id, success).Abort? <==> Dies(m, EvNasDownlink(id, success))
  {
    hide TablesSized;
  }

  lemma InitialUeDiesIff(m: Mme, enbId: nat, enbUeId: nat, served: Option<Guti>)
    requires IdsOk(m.ues) && TablesSized(m)
    ensures InitialUe(m, enbId, enbUeId, served).Abort? <==> Dies(m, EvInitialUe(enbId, enbUeId, served))
  {
    hide TablesSized, EnbKey.Pack, Reconnect;
  }

  lemma OthersSurvive(m: Mme, e: Event)
    requires TablesSized(m) && (ReleaseStep(e) || (ConnectionStep(e) && !e.EvNasDownlink?))
    ensures !Dies(m, e)
  {
    hide Target, TablesAfter, B.WellSized;
    if Target(m, e) in m.ues {
      ReleaseTablesTaken(m.ues[Target(m, e)].tables, e);
    }
  }

  lemma ReleaseTablesTaken(t: B.Tables, e: Event)
    requires B.WellSized(t) && (ReleaseStep(e) || ConnectionStep(e))
    ensures TablesAfter(t, e).Some?
  {
    hide B.WellSized;
  }

  /** A step ends the process if and only if it is one of those. */
  lemma StepDiesIff(m: Mme, e: Event)
    requires IdsOk(m.ues) && TablesSized(m)
    ensures Step(m, e).Abort? <==> Dies(m, e)
  {
    hide IdsOk, TablesSized, Dies;
    hide PdnCreated, BearerCreated, PdnConnectivity, CreateSessionRsp, CreateBearerReq, DedicatedAnswer, ErabSetupRsp, NasDownlinkReq, InitialUe;
    if ReleaseStep(e) || (ConnectionStep(e) && !e.EvNasDownlink?) {
      OthersSurvive(m, e);
    } else {
      match e
      case EvInitialUe(enbId, enbUeId, served) => InitialUeDiesIff(m, enbId, enbUeId, served);
      case EvPdnCreated(id, cid, apn) => PdnCreatedDiesIff(m, id, cid, apn);
      case EvBearerCreated(id, cid, ebi, isDefault, qci) => BearerCreatedDiesIff(m, id, cid, ebi, isDefault, qci);
      case EvPdnConnectivity(imsi, cid, teid) => PdnConnectivityDiesIff(m, imsi, cid, teid);
      case EvCreateSessionRsp(teid, accepted, sgwTeid, sessions) => CreateSessionRspDiesIff(m, teid, accepted, sgwTeid, sessions);
      case EvCreateBearerReq(teid, ebi, trxn, requests) => CreateBearerReqDiesIff(m, teid, ebi, trxn, requests);
      case EvDedicatedAnswer(id, ebi, success) => DedicatedAnswerDiesIff(m, id, ebi, success);
      case EvErabSetupRsp(id, ups, downs) => ErabSetupRspDiesIff(m, id, ups, downs);
      case EvNasDownlink(id, success) => NasDownlinkDiesIff(m, id, success);
      case EvSetImsi(_, _) => QuietSurvive(m, e);
      case EvClearIdentities(_) => QuietSurvive(m, e);
      case EvNewGuti(_, _) => QuietSurvive(m, e);
      case EvEmmState(_, _) => QuietSurvive(m, e);
      case EvEsmStatus(_, _, _) => QuietSurvive(m, e);
      case EvBearerS1Released(_, _) => QuietSurvive(m, e);
      case EvLocationAns(_) => QuietSurvive(m, e);
    }
  }

  lemma QuietSurvive(m: Mme, e: Event)
    requires TablesSized(m)
    requires e.EvSetImsi? || e.EvClearIdentities? || e.EvNewGuti? || e.EvEmmState? || e.EvEsmStatus? || e.EvBearerS1Released? || e.EvLocationAns?
    ensures !Dies(m, e)
  {
    hide TablesSized, Target;
  }
}
