/** What every run of the MME application task guarantees, whatever the order of the messages. */
module RunTheorems {
  import opened Common
  import opened UeModel
  import opened Registry
  import opened Handlers
  import opened Invariant
  import opened HandlerProofs
  import opened Runs
  import opened StaleEntries
  import opened GutiHistories
  import opened Confluence
  import EnbKey
  import B = Bearers
  import BP = BearerProofs

  // ---------------------------------------------------------------- lookups

  /** In every reachable state the lookups by identifier, TEID and eNB key, on a valid key, are exactly
      searches through all live contexts. That by IMSI is if and only if no live context has lost the key
      to NAS with nobody having taken it since, that by GUTI if and only if besides no step has lost a
      live context that has it. */
  lemma RunLookupsAreSearches(periodicTau: bool, states: seq<Mme>, events: seq<Event>, i: nat,
                              id: UeId, imsi: nat, teid: nat, enbKey: nat, guti: Guti)
    requires IsRun(periodicTau, states, events) && i < |states|
    ensures var m := states[i];
            && SearchFinds(m.ues, IdOf, id, Lookup(m, id))
            && (ValidTeid(teid) ==> SearchFinds(m.ues, TeidOf, teid, LookupTeid(m, teid)))
            && (ValidEnbKey(enbKey) ==> SearchFinds(m.ues, EnbKeyOf, enbKey, LookupEnb(m, enbKey)))
            && (ValidImsi(imsi) ==>
                  (SearchFinds(m.ues, ImsiOf, imsi, LookupImsi(m, imsi)) <==>
                   forall j :: j in m.ues ==> !ImsiLeftBehind(states, events, i, imsi, j)))
            && (ValidGuti(guti) ==>
                  (SearchFinds(m.ues, GutiOf, guti, LookupGuti(m, guti)) <==>
                   forall j :: j in m.ues ==> !GutiLeftBehind(states, events, i, guti, j) && !GutiLost(states, events, i, guti, j)))
  {
    hide Step, TablesSized, Admissible, SearchFinds, Stale, ImsiLeftBehind, GutiLeftBehind, GutiLost, Leads, Owns, Start;
    RunInv(periodicTau, states, events, i);
    LookupsAreSearches(states[i], id, imsi, teid, enbKey, guti);
    forall j | j in states[i].ues
      ensures ValidImsi(imsi) ==> (StaleImsi(states[i], imsi, j) <==> ImsiLeftBehind(states, events, i, imsi, j))
      ensures ValidGuti(guti) ==>
                ((Owns(states[i].ues, GutiOf, j, guti) <==> Leads(states[i].byGuti, guti, j)) <==>
                 !GutiLeftBehind(states, events, i, guti, j) && !GutiLost(states, events, i, guti, j))
    {
      if ValidImsi(imsi) {
        RunStaleIff(periodicTau, states, events, i, imsi, j);
      }
      if ValidGuti(guti) {
        RunStaleGutiIff(periodicTau, states, events, i, guti, j);
        StaleOrLost(states[i], guti, j);
      }
    }
  }

  lemma StaleOrLost(m: Mme, guti: Guti, id: UeId)
    ensures (Owns(m.ues, GutiOf, id, guti) <==> Leads(m.byGuti, guti, id)) <==> !StaleGuti(m, guti, id) && !Lost(m, guti, id)
  {
  }

  /** In a run in which all GUTIs have been given out well and none was cleared so far, every lookup by a
      valid GUTI is a search, and no valid GUTI leads to an identifier without a context. */
  lemma RunGutiLookupsExact(periodicTau: bool, states: seq<Mme>, events: seq<Event>, i: nat, guti: Guti, id: UeId)
    requires IsRun(periodicTau, states, events) && i < |states|
    requires forall k :: 0 <= k < i ==> KeepsGutis(states[k], events[k])
    ensures ValidGuti(guti) ==> SearchFinds(states[i].ues, GutiOf, guti, LookupGuti(states[i], guti))
    ensures id !in states[i].ues ==> Unreached(states[i].byGuti, id, ValidGuti)
  {
    hide Step, TablesSized, Admissible, Start, KeepsGutis, SearchFinds;
    RunGutisExactIff(periodicTau, states, events, i);
    if ValidGuti(guti) {
      IndexIsSearchIff(states[i].byGuti, states[i].ues, GutiOf, ValidGuti, guti);
    }
  }

  /** In every reachable state whoever has a valid IMSI is found by it. Whoever has a valid GUTI is if and
      only if the context was entered under it and the entry has not been replaced or taken out since,
      that is if no step has lost it; in a run in which all GUTIs have been given out well that is always
      so. */
  lemma RunOwnersAreFound(periodicTau: bool, states: seq<Mme>, events: seq<Event>, i: nat, u: Ue)
    requires IsRun(periodicTau, states, events) && i < |states| && u.id in states[i].ues && states[i].ues[u.id] == u
    ensures ValidImsi(u.imsi) ==> LookupImsi(states[i], u.imsi) == Some(u)
    ensures ValidGuti(u.guti) ==> (LookupGuti(states[i], u.guti) == Some(u) <==> GutiEntered(states, events, i, u.guti, u.id))
    ensures ValidGuti(u.guti) ==> (LookupGuti(states[i], u.guti) == Some(u) <==> !GutiLost(states, events, i, u.guti, u.id))
    ensures ValidGuti(u.guti) && (forall k :: 0 <= k < i ==> GivenWell(states[k], events[k])) ==> LookupGuti(states[i], u.guti) == Some(u)
  {
    hide Step, TablesSized, Admissible, Start, UesOk, StatsOk, HistoryOk, Indexed, GutiEntered, GutiLost, GivenWell;
    RunInv(periodicTau, states, events, i);
    if ValidGuti(u.guti) {
      RunGutiEntryIff(periodicTau, states, events, i, u.guti, u.id);
      RunStaleGutiIff(periodicTau, states, events, i, u.guti, u.id);
      RunGutisFoundIff(periodicTau, states, events, i);
      OwnerFound(states[i], u);
    }
  }

  lemma OwnerFound(m: Mme, u: Ue)
    requires IdsOk(m.ues) && u.id in m.ues && m.ues[u.id] == u && ValidGuti(u.guti)
    ensures LookupGuti(m, u.guti) == Some(u) <==> Leads(m.byGuti, u.guti, u.id)
    ensures GutisFound(m) ==> Leads(m.byGuti, u.guti, u.id)
  {
  }

  /** A lookup by the pair of eNB and eNB UE identity leads to the context that was registered under
      exactly this pair, and to no other. */
  lemma RunEnbPairFindsOwner(periodicTau: bool, states: seq<Mme>, events: seq<Event>, i: nat,
                             enbId: nat, enbUeId: nat, enbId': nat, enbUeId': nat, u: Ue)
    requires IsRun(periodicTau, states, events) && i < |states|
    requires enbId < UINT32 && enbUeId <= EnbKey.ENB_UE_S1AP_ID_MASK
    requires enbId' < UINT32 && enbUeId' <= EnbKey.ENB_UE_S1AP_ID_MASK
    requires u.id in states[i].ues && states[i].ues[u.id] == u && u.enbKey == EnbKey.Pack(enbId, enbUeId)
    ensures u.enbUeId == enbUeId
    ensures LookupEnb(states[i], EnbKey.Pack(enbId', enbUeId')) == Some(u) <==> enbId == enbId' && enbUeId == enbUeId'
  {
    hide Step, TablesSized, Admissible, EnbKey.Pack, EnbKey.UnpackUeId, SearchFinds, B.TablesOk;
    RunInv(periodicTau, states, events, i);
    var m := states[i];
    EnbKey.PackUnpacks(enbId, enbUeId);
    EnbKey.PackUnpacks(enbId', enbUeId');
    InvUe(m, u.id, NOTHING);
    if EnbKey.Pack(enbId, enbUeId) == EnbKey.Pack(enbId', enbUeId') {
      EnbKey.PackInjective(enbId, enbUeId, enbId', enbUeId');
    }
    EnbLookup(m, u, EnbKey.Pack(enbId', enbUeId'));
  }

  lemma EnbLookup(m: Mme, u: Ue, key: nat)
    requires IndexOk(m) && u.id in m.ues && m.ues[u.id] == u && ValidEnbKey(u.enbKey) && ValidEnbKey(key)
    ensures LookupEnb(m, key) == Some(u) <==> u.enbKey == key
  {
  }

  // ---------------------------------------------------------------- removal

  /** Between any two states of a run contexts are only added to the list of removed ones. Each was
      removed once, without S11 tunnel, and is not live again. */
  lemma RunRemovedForGood(periodicTau: bool, states: seq<Mme>, events: seq<Event>, i: nat, j: nat)
    requires IsRun(periodicTau, states, events) && i <= j < |states|
    ensures states[i].freed <= states[j].freed
    ensures forall k :: 0 <= k < |states[j].freed| ==> states[j].freed[k].teid == NO_TEID
    ensures forall k, l :: 0 <= k < l < |states[j].freed| ==> states[j].freed[k].serial != states[j].freed[l].serial
    ensures forall k, id :: 0 <= k < |states[j].freed| && id in states[j].ues ==>
                              states[j].ues[id].serial != states[j].freed[k].serial
  {
    hide Step, TablesSized, Admissible, IndexOk, UesOk, StatsOk;
    RunInv(periodicTau, states, events, i);
    var w := NOTHING.(past := states[i].freed);
    assert Inv(states[i], w);
    WatchFrom(periodicTau, states, events, i, j, w);
  }

  /** The entries that can still name an identifier without a context: none in the indexes of TEIDs and
      eNB keys, and in those of IMSIs and GUTIs exactly the keys that were taken from it behind the back of
      the index and have not been entered again, taken out or given back since. */
  lemma RunRemovedEntries(periodicTau: bool, states: seq<Mme>, events: seq<Event>, i: nat, id: UeId, imsi: nat, guti: Guti)
    requires IsRun(periodicTau, states, events) && i < |states| && id !in states[i].ues
    ensures Unreached(states[i].byTeid, id, ValidTeid) && Unreached(states[i].byEnb, id, ValidEnbKey)
    ensures ValidImsi(imsi) ==> (Leads(states[i].byImsi, imsi, id) <==> ImsiLeftBehind(states, events, i, imsi, id))
    ensures ValidGuti(guti) ==> (Leads(states[i].byGuti, guti, id) <==> GutiLeftBehind(states, events, i, guti, id))
  {
    hide Step, TablesSized, Admissible, ImsiLeftBehind, GutiLeftBehind, GutiLost, Start, Indexed, Covered;
    RunInv(periodicTau, states, events, i);
    DeadIsUnreachable(states[i], id);
    if ValidImsi(imsi) {
      RunStaleIff(periodicTau, states, events, i, imsi, id);
    }
    if ValidGuti(guti) {
      RunStaleGutiIff(periodicTau, states, events, i, guti, id);
    }
  }

  /** In m' no valid TEID or eNB key leads to id, and no valid IMSI or GUTI if and only if none was taken
      from it before state i behind the back of its index and not reclaimed since. */
  ghost predicate OnlyLeftBehind(states: seq<Mme>, events: seq<Event>, i: nat, m': Mme, id: UeId)
    requires i < |states| == |events| + 1
  {
    && id !in m'.ues
    && Unreached(m'.byTeid, id, ValidTeid)
    && Unreached(m'.byEnb, id, ValidEnbKey)
    && (Unreached(m'.byImsi, id, ValidImsi) <==> forall imsi :: ValidImsi(imsi) ==> !ImsiLeftBehind(states, events, i, imsi, id))
    && (Unreached(m'.byGuti, id, ValidGuti) <==> forall guti :: ValidGuti(guti) ==> !GutiLeftBehind(states, events, i, guti, id))
  }

  /** The race of the two answers that end a connection, met in any run and won by either. */
  lemma RunEitherOrderUnreachable(periodicTau: bool, states: seq<Mme>, events: seq<Event>, i: nat, u: Ue, t: TimerSetup)
    requires IsRun(periodicTau, states, events) && i < |states| && Live(states[i], u)
    requires u.mm == Unregistered && ValidTeid(u.teid) && FreshTimer(states[i], t)
    ensures Inv(states[i], NOTHING)
    ensures OnlyLeftBehind(states, events, i, DeleteThenRelease(states[i], u.teid, u.id, t, NOTHING), u.id)
    ensures OnlyLeftBehind(states, events, i, ReleaseThenDelete(states[i], u.teid, u.id, t, NOTHING), u.id)
  {
    hide Step, TablesSized, Admissible, ImsiLeftBehind, GutiLeftBehind, GutiLost, Start, Inv, Unreached, Stale;
    hide DeleteThenRelease, ReleaseThenDelete;
    RunInv(periodicTau, states, events, i);
    EitherOrderUnreachable(states[i], u, t, NOTHING);
    forall imsi | ValidImsi(imsi)
      ensures StaleImsi(states[i], imsi, u.id) <==> ImsiLeftBehind(states, events, i, imsi, u.id)
    {
      RunStaleIff(periodicTau, states, events, i, imsi, u.id);
    }
    forall guti | ValidGuti(guti)
      ensures StaleGuti(states[i], guti, u.id) <==> GutiLeftBehind(states, events, i, guti, u.id)
    {
      RunStaleGutiIff(periodicTau, states, events, i, guti, u.id);
    }
  }

  /** The same race in a run in which all GUTIs have been given out well and none was cleared so far: no
      valid GUTI leads to the context afterwards. */
  lemma RunEitherOrderNoGuti(periodicTau: bool, states: seq<Mme>, events: seq<Event>, i: nat, u: Ue, t: TimerSetup)
    requires IsRun(periodicTau, states, events) && i < |states| && Live(states[i], u)
    requires u.mm == Unregistered && ValidTeid(u.teid) && FreshTimer(states[i], t)
    requires forall k :: 0 <= k < i ==> KeepsGutis(states[k], events[k])
    ensures Inv(states[i], NOTHING)
    ensures Unreached(DeleteThenRelease(states[i], u.teid, u.id, t, NOTHING).byGuti, u.id, ValidGuti)
    ensures Unreached(ReleaseThenDelete(states[i], u.teid, u.id, t, NOTHING).byGuti, u.id, ValidGuti)
  {
    hide Step, TablesSized, Admissible, Start, Inv, Unreached, Stale, KeepsGutis, GutisFound;
    hide DeleteThenRelease, ReleaseThenDelete;
    RunInv(periodicTau, states, events, i);
    EitherOrderUnreachable(states[i], u, t, NOTHING);
    RunGutisExactIff(periodicTau, states, events, i);
    ExactIff(states[i]);
  }

  /** The messages of the S11 interface, by the TEID they carry. */
  ghost predicate OnTeid(e: Event, teid: nat) {
    match e
    case EvCreateSessionRsp(t, _, _, _) => t == teid
    case EvModifyBearerRsp(t) => t == teid
    case EvDeleteSessionRsp(t) => t == teid
    case EvReleaseAccessBearersRsp(t, _) => t == teid
    case EvCreateBearerReq(t, _, _, _) => t == teid
    case _ => false
  }

  /** No step from state i up to state j gives the TEID out. */
  ghost predicate NotGivenOut(events: seq<Event>, i: nat, j: nat, teid: nat)
    requires i <= j <= |events|
  {
    forall k :: i <= k < j && events[k].EvPdnConnectivity? ==> events[k].teid != teid
  }

  lemma NobodyHas(m: Mme, teid: nat)
    requires IndexOk(m) && ValidTeid(teid) && forall id :: id in m.ues ==> m.ues[id].teid != teid
    ensures LookupTeid(m, teid).None?
  {
  }

  lemma DeadTeidIgnored(m: Mme, teid: nat, e: Event)
    requires TablesSized(m) && LookupTeid(m, teid).None? && OnTeid(e, teid)
    ensures Step(m, e) == Done(m)
  {
  }

  /** Once the S11 tunnel of a context is gone, every S11 message on it is ignored until the number
      is given out again. */
  lemma RunClosedTunnelIgnored(periodicTau: bool, states: seq<Mme>, events: seq<Event>, i: nat, j: nat, teid: nat, e: Event)
    requires IsRun(periodicTau, states, events) && i < j < |states| && ValidTeid(teid)
    requires events[i] == EvDeleteSessionRsp(teid) && NotGivenOut(events, i + 1, j, teid) && OnTeid(e, teid)
    ensures LookupTeid(states[j], teid).None?
    ensures TablesSized(states[j]) && Step(states[j], e) == Done(states[j])
  {
    hide TablesSized, Admissible, Inv, OnTeid, Start;
    RunInv(periodicTau, states, events, i);
    RunInv(periodicTau, states, events, i + 1);
    RunStep(periodicTau, states, events, i);
    TunnelClosed(states[i], teid);
    FollowTeid(periodicTau, states, events, i + 1, j, teid, None);
    InvTeid(states[j], teid);
    DeadTeidIgnored(states[j], teid, e);
  }

  lemma InvTeid(m: Mme, teid: nat)
    requires Inv(m, NOTHING.(teid := teid)) && ValidTeid(teid)
    ensures LookupTeid(m, teid).None? && TablesSized(m)
  {
    InvSized(m, NOTHING.(teid := teid));
    NobodyHas(m, teid);
  }

  lemma TunnelClosed(m: Mme, teid: nat)
    requires Inv(m, NOTHING) && ValidTeid(teid)
    ensures TeidOk(DeleteSessionRsp(m, teid).ues, teid, None)
  {
    hide UesOk, StatsOk, HistoryOk;
    if LookupTeid(m, teid).None? {
      NobodyHas'(m, teid);
    } else {
      IndexIsSearchIff(m.byTeid, m.ues, TeidOf, ValidTeid, teid);
    }
  }

  lemma NobodyHas'(m: Mme, teid: nat)
    requires IndexOk(m) && ValidTeid(teid) && LookupTeid(m, teid).None?
    ensures forall id :: id in m.ues ==> m.ues[id].teid != teid
  {
  }

  lemma FollowTeid(periodicTau: bool, states: seq<Mme>, events: seq<Event>, i: nat, j: nat, teid: nat, owner: Option<nat>)
    requires IsRun(periodicTau, states, events) && i <= j < |states| && NotGivenOut(events, i, j, teid)
    requires TeidOk(states[i].ues, teid, owner)
    ensures Inv(states[j], NOTHING.(teid := teid, owner := owner))
  {
    hide Step, TablesSized, Admissible, IndexOk, UesOk, StatsOk, HistoryOk, Start;
    RunInv(periodicTau, states, events, i);
    WatchFrom(periodicTau, states, events, i, j, NOTHING.(teid := teid, owner := owner));
  }

  /** S11 messages on the TEID a removed context once had change nothing, as long as the number has
      not been given out again. */
  lemma RunOldTeidIgnored(periodicTau: bool, states: seq<Mme>, events: seq<Event>, i: nat, j: nat, u: Ue, e: Event)
    requires IsRun(periodicTau, states, events) && i <= j < |states|
    requires u.id in states[i].ues && states[i].ues[u.id] == u && ValidTeid(u.teid)
    requires exists k :: 0 <= k < |states[j].freed| && states[j].freed[k].serial == u.serial
    requires NotGivenOut(events, i, j, u.teid) && OnTeid(e, u.teid)
    ensures LookupTeid(states[j], u.teid).None?
    ensures TablesSized(states[j]) && Step(states[j], e) == Done(states[j])
  {
    hide Step, TablesSized, Admissible, Inv, OnTeid, Start, NotGivenOut;
    RunInv(periodicTau, states, events, i);
    OnlyOwner(states[i], u);
    FollowTeid(periodicTau, states, events, i, j, u.teid, Some(u.serial));
    OwnerGone(states[j], u.teid, u.serial);
    DeadTeidIgnored(states[j], u.teid, e);
  }

  lemma OnlyOwner(m: Mme, u: Ue)
    requires Inv(m, NOTHING) && u.id in m.ues && m.ues[u.id] == u && ValidTeid(u.teid)
    ensures TeidOk(m.ues, u.teid, Some(u.serial))
  {
    hide UesOk, StatsOk, HistoryOk, FreedOk;
  }

  lemma OwnerGone(m: Mme, teid: nat, serial: nat)
    requires Inv(m, NOTHING.(teid := teid, owner := Some(serial))) && ValidTeid(teid)
    requires exists k :: 0 <= k < |m.freed| && m.freed[k].serial == serial
    ensures LookupTeid(m, teid).None? && TablesSized(m)
  {
    InvSized(m, NOTHING.(teid := teid, owner := Some(serial)));
    hide UesOk, StatsOk;
    var k :| 0 <= k < |m.freed| && m.freed[k].serial == serial;
    NobodyHas(m, teid);
  }

  // ---------------------------------------------------------------- counters

  /** In every reachable state the connected counter is at most the number of connected UEs, and the
      attached counter exceeds the number of registered UEs by those removed while registered. */
  lemma RunCounters(periodicTau: bool, states: seq<Mme>, events: seq<Event>, i: nat)
    requires IsRun(periodicTau, states, events) && i < |states|
    ensures states[i].stats.connected <= |ConnectedIds(states[i].ues)|
    ensures states[i].stats.attached == |RegisteredIds(states[i].ues)| + RegisteredIn(states[i].freed)
  {
    hide Step, TablesSized, Admissible, IndexOk, UesOk, HistoryOk;
    RunInv(periodicTau, states, events, i);
  }

  /** As long as release-complete messages remove connected UEs only, or nobody is connected, the
      connected counter is exactly the number of connected UEs. */
  lemma RunConnectedExact(periodicTau: bool, states: seq<Mme>, events: seq<Event>, i: nat)
    requires IsRun(periodicTau, states, events) && i < |states|
    requires forall k :: 0 <= k < i && events[k].EvReleaseComplete? && RemovedByRelease(states[k], events[k].id) ==>
                           states[k].ues[events[k].id].ecm == Connected || ConnectedIds(states[k].ues) == {}
    ensures states[i].stats.connected == |ConnectedIds(states[i].ues)|
  {
    hide Step, TablesSized, Admissible, IndexOk, UesOk, HistoryOk, ConnectedIds;
    StartOk(periodicTau);
    WatchFrom(periodicTau, states, events, 0, i, NOTHING.(exact := true));
  }

  /** And no weaker condition will do: a release-complete message that removes a context keeps an
      exact counter exact if and only if the UE is connected or none is. */
  lemma ReleaseCompleteExactIff(m: Mme, id: UeId, t: TimerSetup)
    requires Inv(m, NOTHING.(exact := true)) && TablesSized(m) && RemovedByRelease(m, id)
    ensures ReleaseComplete(m, id, t).stats.connected == |ConnectedIds(ReleaseComplete(m, id, t).ues)|
            <==> m.ues[id].ecm == Connected || ConnectedIds(m.ues) == {}
  {
    hide UesOk, HistoryOk, TablesSized, Indexed;
    var u1 := m.ues[id].(tables := B.DeleteProc(m.ues[id].tables));
    SameConnected(m.ues, u1);
    DropHaving(m.ues[id := u1], IsConnected, id);
    if IsConnected(m.ues[id]) {
      assert id in ConnectedIds(m.ues);
    }
  }

  /** All contexts removed after the first n were idle. */
  ghost predicate IdleSince(freed: seq<Ue>, n: nat) {
    forall k :: n <= k < |freed| ==> freed[k].ecm == Idle
  }

  /** Every context that is removed by anything but a release-complete message is idle. */
  lemma RunOtherRemovalsAreIdle(periodicTau: bool, states: seq<Mme>, events: seq<Event>, i: nat)
    requires IsRun(periodicTau, states, events) && i < |events| && !events[i].EvReleaseComplete?
    ensures states[i].freed <= states[i + 1].freed
    ensures IdleSince(states[i + 1].freed, |states[i].freed|)
  {
    hide Step, TablesSized, Admissible, IndexOk, UesOk, HistoryOk, StatsOk, Start;
    RunInv(periodicTau, states, events, i);
    var w := NOTHING.(past := states[i].freed, idleOnly := true);
    assert Respects(states[i], events[i], w);
    WatchFrom(periodicTau, states, events, i, i + 1, w);
  }

  /** There are fewer live contexts than 32-bit numbers, so the 32-bit connected counter never wraps. */
  lemma RunConnectedFits(periodicTau: bool, states: seq<Mme>, events: seq<Event>, i: nat)
    requires IsRun(periodicTau, states, events) && i < |states|
    ensures |states[i].ues| < UINT32 && states[i].stats.connected < UINT32
  {
    hide Step, TablesSized, Admissible, UesOk, HistoryOk, Indexed;
    RunInv(periodicTau, states, events, i);
    var m := states[i];
    NumbersCount(UINT32);
    assert m.ues.Keys <= Numbers(UINT32);
    Subset(m.ues.Keys, Numbers(UINT32));
    Subset(ConnectedIds(m.ues), m.ues.Keys);
  }

  /** The non-zero numbers below n. */
  ghost function Numbers(n: nat): set<UeId> {
    if n <= 1 then {} else Numbers(n - 1) + {n - 1}
  }

  lemma {:induction false} NumbersCount(n: nat)
    requires n > 0
    ensures |Numbers(n)| == n - 1
    ensures forall id: UeId :: id in Numbers(n) <==> 0 < id < n
  {
    if n > 1 {
      NumbersCount(n - 1);
    }
  }

  lemma {:induction false} Subset(a: set<UeId>, b: set<UeId>)
    requires a <= b
    ensures |a| <= |b|
  {
    if a != {} {
      var x :| x in a;
      Subset(a - {x}, b - {x});
    }
  }

  // ---------------------------------------------------------------- timers

  /** A connected UE has no idle timer, so of all expiries only that of its context-setup timer
      changes anything. */
  lemma RunConnectedHasNoIdleTimer(periodicTau: bool, states: seq<Mme>, events: seq<Event>, i: nat,
                                   id: UeId, timer: TimerId, setup: TimerSetup)
    requires IsRun(periodicTau, states, events) && i < |states| && id in states[i].ues && timer != INACTIVE
    requires states[i].ues[id].ecm == Connected
    ensures states[i].ues[id].reach == INACTIVE && states[i].ues[id].detach == INACTIVE
    ensures timer != states[i].ues[id].setup ==>
              Step(states[i], EvTimerExpired(timer, id, setup)) == Done(states[i])
  {
    hide Admissible, Inv, B.TablesOk, Start, AbortProcedure, TablesSized;
    RunInv(periodicTau, states, events, i);
    InvUe(states[i], id, NOTHING);
  }

  /** An expiry that matches no recorded timer of the UE, or comes for a UE that is gone, changes
      nothing. */
  lemma UnmatchedExpiryIgnored(m: Mme, timer: TimerId, id: UeId, t: TimerSetup)
    requires TablesSized(m)
    requires id in m.ues ==> timer != m.ues[id].reach && timer != m.ues[id].detach && timer != m.ues[id].setup
    ensures Step(m, EvTimerExpired(timer, id, t)) == Done(m)
  {
  }

  /** The step from m to m' changes no context but that of id, and adds and removes none. */
  ghost predicate OnlyTouches(m: Mme, m': Mme, id: UeId) {
    m'.ues.Keys == m.ues.Keys && forall j :: j in m.ues && j != id ==> m'.ues[j] == m.ues[j]
  }

  /** An idle timer only ever expires for an idle UE. The first one makes the MME send nothing and starts the
      second one, the second one makes it detach the UE. */
  lemma IdleTimerExpires(m: Mme, timer: TimerId, id: UeId, t: TimerSetup, w: Watch)
    requires Inv(m, w) && TablesSized(m) && timer != INACTIVE && id in m.ues
    requires timer == m.ues[id].reach || timer == m.ues[id].detach
    ensures m.ues[id].ecm == Idle
    ensures var m' := TimerExpired(m, timer, id, t);
            && OnlyTouches(m, m', id)
            && m'.ues[id].ecm == Idle
            && m'.sent == m.sent + (if timer == m.ues[id].reach then [] else [ImplicitDetachInd(id)])
            && (timer == m.ues[id].reach ==>
                  && m'.ues[id].reach == INACTIVE
                  && (t.Started? ==> m'.ues[id].detach == t.id && m'.armed == m.armed + {t.id})
                  && (t.Failed? ==> m'.ues[id].detach == INACTIVE && m'.armed == m.armed))
            && (timer != m.ues[id].reach ==>
                  m'.ues[id].detach == INACTIVE && m'.ues[id].reach == m.ues[id].reach && m'.armed == m.armed)
  {
    hide Inv, B.TablesOk, AbortProcedure, TablesSized;
    InvUe(m, id, w);
  }

  /** In every run a UE whose idle timer expires is idle, also when the MME then detaches it, and no
      other context is touched. */
  lemma RunImplicitDetachIsIdle(periodicTau: bool, states: seq<Mme>, events: seq<Event>, i: nat,
                                timer: TimerId, id: UeId, setup: TimerSetup)
    requires IsRun(periodicTau, states, events) && i < |events| && events[i] == EvTimerExpired(timer, id, setup)
    requires id in states[i].ues && (timer == states[i].ues[id].reach || timer == states[i].ues[id].detach)
    ensures OnlyTouches(states[i], states[i + 1], id) && states[i].ues[id].ecm == Idle
    ensures states[i + 1].sent == states[i].sent + (if timer == states[i].ues[id].reach then [] else [ImplicitDetachInd(id)])
  {
    hide Inv, Start, TimerExpired, TablesSized, OnlyTouches;
    RunInv(periodicTau, states, events, i);
    RunStep(periodicTau, states, events, i);
    IdleTimerExpires(states[i], timer, id, setup, NOTHING);
  }

  // ---------------------------------------------------------------- bearers

  /** In every reachable state the two bearer tables of every UE refer to each other consistently,
      slot i holds a bearer exactly when exactly one PDN connection lists it, and a bearer whose radio
      side is up has its gateway side and its MME side up. */
  lemma RunBearers(periodicTau: bool, states: seq<Mme>, events: seq<Event>, i: nat, id: UeId, slot: nat)
    requires IsRun(periodicTau, states, events) && i < |states| && id in states[i].ues && slot < B.BEARERS_PER_UE
    ensures var t := states[i].ues[id].tables;
            && B.WellSized(t)
            && (t.bearers[slot].Some? <==> exists c :: B.Lists(t, c, slot))
            && (forall c, c' :: B.Lists(t, c, slot) && B.Lists(t, c', slot) ==> c == c')
            && (t.bearers[slot].Some? ==>
                  && t.bearers[slot].value.ebi == slot + B.EBI_FIRST
                  && B.Lists(t, t.bearers[slot].value.pdnCxId, slot)
                  && (t.bearers[slot].value.state.enb ==> t.bearers[slot].value.state.sgw && t.bearers[slot].value.state.mme))
  {
    hide Inv, Step, Admissible, TablesSized, Start;
    RunInv(periodicTau, states, events, i);
    InvUe(states[i], id, NOTHING);
    BP.SlotListedOnce(states[i].ues[id].tables, slot);
  }

  /** Whenever a connection is established, the list of E-RABs sent to the eNB holds exactly the
      bearers of the UE that the gateway has created, at most 11, in strictly increasing EBI order;
      the NAS message goes with it unless the list is empty. */
  lemma RunErabList(periodicTau: bool, states: seq<Mme>, events: seq<Event>, i: nat, id: UeId, nas: B.NasPdu, setup: TimerSetup)
    requires IsRun(periodicTau, states, events) && i < |events| && events[i] == EvConnEstCnf(id, nas, setup) && id in states[i].ues
    ensures B.WellSized(states[i].ues[id].tables)
    ensures var bs := states[i].ues[id].tables.bearers;
            var es := B.Erabs(bs, B.BEARERS_PER_UE);
            && states[i + 1].sent == states[i].sent + [ConnectionEstablishment(id, es, if es == [] then None else Some(nas))]
            && |bs| == B.BEARERS_PER_UE
            && BP.ExactErabs(bs, es, B.BEARERS_PER_UE)
  {
    hide Inv, B.TablesOk, TablesSized, Start, Admissible, B.Erabs, BP.ExactErabs, SigConnected, StartSetup, B.WellSized;
    RunInv(periodicTau, states, events, i);
    InvUe(states[i], id, NOTHING);
    RunStep(periodicTau, states, events, i);
    EstablishmentSends(states[i], id, nas, setup);
    Listed(states[i].ues[id].tables);
  }

  lemma Listed(t: B.Tables)
    requires B.TablesOk(t)
    ensures |t.bearers| == B.BEARERS_PER_UE && BP.ExactErabs(t.bearers, B.Erabs(t.bearers, B.BEARERS_PER_UE), B.BEARERS_PER_UE)
  {
    hide B.Erabs, BP.ExactErabs;
    BP.ErabsExact(t, B.BEARERS_PER_UE);
  }

  lemma EstablishmentSends(m: Mme, id: UeId, nas: B.NasPdu, t: TimerSetup)
    requires TablesSized(m) && id in m.ues
    ensures var es := B.Erabs(m.ues[id].tables.bearers, B.BEARERS_PER_UE);
            ConnEstCnf(m, id, nas, t).sent == m.sent + [ConnectionEstablishment(id, es, if es == [] then None else Some(nas))]
  {
    hide B.Erabs;
  }
}
