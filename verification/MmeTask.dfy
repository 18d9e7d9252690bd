/** The MME application task as it runs: one object that holds the tables, the contexts they lead to
    and the counters, and one method per message. The ghost field `model` is the state as a value;
    every method changes it by the function of the same name in Handlers. */
module MmeTask {
  import opened Common
  import opened UeModel
  import opened UeContexts
  import B = Bearers
  import BP = BearerProofs
  import R = Registry
  import H = Handlers
  import EnbKey

  class MmeApp {
    var ues: map<UeId, UeContext>
    var byImsi: map<nat, UeId>
    var byTeid: map<nat, UeId>
    var byEnb: map<nat, UeId>
    var byGuti: map<Guti, UeId>
    var generator: UeId
    var armed: set<TimerId>
    const periodicTau: bool
    var stats: Stats
    var sent: seq<Message>
    ghost var model: Mme

    // ------------------------------------------------------------- the state as a value

    ghost predicate FieldsOk()
      reads this
    {
      model == Mme(model.ues, byImsi, byTeid, byEnb, byGuti, generator, model.created, armed, periodicTau, stats, sent, model.freed)
    }

    /** Every context stands under its own identifier and is what the model says. */
    ghost predicate ContextsOk()
      reads this, ues.Values
    {
      model.ues.Keys == ues.Keys && forall id :: id in ues ==> ues[id].id == id && ues[id].Value() == model.ues[id]
    }

    ghost predicate Valid()
      reads this, ues.Values
    {
      FieldsOk() && ContextsOk()
    }

    ghost predicate Has(u: UeContext)
      reads this
    {
      u.id in ues && ues[u.id] == u
    }

    twostate lemma OneChanged(u: UeContext)
      requires old(ContextsOk()) && old(Has(u)) && ues == old(ues) && model.ues == old(model.ues)[u.id := u.Value()]
      requires forall o :: o in ues.Values && o != u ==> unchanged(o)
      ensures ContextsOk()
    {
      assert forall id :: id in ues && id != u.id ==> ues[id] in ues.Values && ues[id] != u;
    }

    twostate lemma OneRemoved(id: UeId)
      requires old(ContextsOk()) && ues == old(ues) - {id} && model.ues == old(model.ues) - {id}
      requires forall o :: o in ues.Values ==> unchanged(o)
      ensures ContextsOk()
    {
      assert forall i :: i in ues ==> ues[i] in ues.Values;
    }

    twostate lemma OneAdded(new u: UeContext)
      requires old(ContextsOk()) && u.id !in old(ues) && ues == old(ues)[u.id := u]
      requires model.ues == old(model.ues)[u.id := u.Value()]
      requires forall o :: o in old(ues.Values) ==> unchanged(o)
      ensures ContextsOk()
    {
      assert forall i :: i in old(ues) ==> old(ues)[i] in old(ues.Values);
    }

    twostate lemma NoneChanged()
      requires old(ContextsOk()) && ues == old(ues) && model.ues == old(model.ues)
      requires forall o :: o in ues.Values ==> unchanged(o)
      ensures ContextsOk()
    {
      assert forall i :: i in ues ==> ues[i] in ues.Values;
    }

    lemma SameKeys(id: UeId)
      requires ContextsOk()
      ensures id in model.ues <==> id in ues
    {
    }

    lemma ValueOf(u: UeContext)
      requires ContextsOk() && Has(u)
      ensures u.id in model.ues && model.ues[u.id] == u.Value()
    {
    }

    lemma HasSized(u: UeContext)
      requires ContextsOk() && Has(u) && H.TablesSized(model)
      ensures B.WellSized(u.Tables())
    {
      ValueOf(u);
    }

    constructor (periodicTau: bool)
      ensures Valid() && model == H.Start(periodicTau)
    {
      this.periodicTau := periodicTau;
      ues, byImsi, byTeid, byEnb, byGuti := map[], map[], map[], map[], map[];
      generator, armed, sent, stats := 1, {}, [], Stats(0, 0, 0, 0);
      model := H.Start(periodicTau);
    }

    // ------------------------------------------------------------- lookups

    /** `mme_ue_context_exists_mme_ue_s1ap_id`. */
    method Find(id: UeId) returns (u: UeContext?)
      requires Valid()
      ensures u == null ==> R.Lookup(model, id) == None
      ensures u != null ==> Has(u) && u.id == id && R.Lookup(model, id) == Some(u.Value())
    {
      if id in ues {
        u := ues[id];
      } else {
        u := null;
      }
    }

    /** `mme_ue_context_exists_imsi`. */
    method FindImsi(imsi: nat) returns (u: UeContext?)
      requires Valid()
      ensures u == null ==> R.LookupImsi(model, imsi) == None
      ensures u != null ==> Has(u) && R.LookupImsi(model, imsi) == Some(u.Value())
    {
      hide ContextsOk;
      u := null;
      if imsi in byImsi {
        u := Find(byImsi[imsi]);
      }
    }

    /** `mme_ue_context_exists_s11_teid`. */
    method FindTeid(teid: nat) returns (u: UeContext?)
      requires Valid()
      ensures u == null ==> R.LookupTeid(model, teid) == None
      ensures u != null ==> Has(u) && R.LookupTeid(model, teid) == Some(u.Value())
    {
      hide ContextsOk;
      u := null;
      if teid in byTeid {
        u := Find(byTeid[teid]);
      }
    }

    /** `mme_ue_context_exists_enb_ue_s1ap_id`: an absent key leads to identifier 0. */
    method FindEnb(enbKey: nat) returns (u: UeContext?)
      requires Valid()
      ensures u == null ==> R.LookupEnb(model, enbKey) == None
      ensures u != null ==> Has(u) && R.LookupEnb(model, enbKey) == Some(u.Value())
    {
      hide ContextsOk;
      var id := INVALID_UE_ID;
      if enbKey in byEnb {
        id := byEnb[enbKey];
      }
      u := Find(id);
    }

    /** `mme_ue_context_exists_guti`. */
    method FindGuti(guti: Guti) returns (u: UeContext?)
      requires Valid()
      ensures u == null ==> R.LookupGuti(model, guti) == None
      ensures u != null ==> Has(u) && R.LookupGuti(model, guti) == Some(u.Value())
    {
      hide ContextsOk;
      u := null;
      if guti in byGuti {
        u := Find(byGuti[guti]);
      }
    }

    // ------------------------------------------------------------- registry

    /** The table part of `mme_ue_context_update_coll_keys`: an eNB key is only replaced by a different
        valid one, a GUTI only by one that differs in more than the MNC digits. */
    method UpdateTables(u: UeContext, enbKey: nat, imsi: nat, teid: nat, guti: Guti)
      modifies this`byEnb, this`byImsi, this`byTeid, this`byGuti
      ensures byEnb == if ValidEnbKey(enbKey) && u.enbKey != enbKey then (old(byEnb) - {u.enbKey})[enbKey := u.id] else old(byEnb)
      ensures byImsi == (old(byImsi) - {u.imsi})[imsi := u.id]
      ensures byTeid == (old(byTeid) - {u.teid})[teid := u.id]
      ensures byGuti == if SameGutiButMnc(guti, u.guti) then old(byGuti) else (old(byGuti) - {u.guti})[guti := u.id]
    {
      if ValidEnbKey(enbKey) && u.enbKey != enbKey {
        byEnb := byEnb - {u.enbKey};
        byEnb := byEnb[enbKey := u.id];
      }
      byImsi := byImsi - {u.imsi};
      byImsi := byImsi[imsi := u.id];
      byTeid := byTeid - {u.teid};
      byTeid := byTeid[teid := u.id];
      if !SameGutiButMnc(guti, u.guti) {
        byGuti := byGuti - {u.guti};
        byGuti := byGuti[guti := u.id];
      }
    }

    /** `mme_ue_context_update_coll_keys`, with the identifier the context has. */
    method CollKeys(u: UeContext, enbKey: nat, imsi: nat, teid: nat, guti: Guti)
      requires Valid() && Has(u)
      modifies this, u
      ensures Valid() && ues == old(ues) && u.Value() == R.Rekeyed(old(u.Value()), enbKey, imsi, teid, guti)
      ensures model == R.CollKeys(old(model), old(u.Value()), enbKey, imsi, teid, guti)
    {
      hide ContextsOk, SameGutiButMnc;
      ghost var v := u.Value();
      UpdateTables(u, enbKey, imsi, teid, guti);
      u.SetKeys(enbKey, imsi, teid, guti);
      model := R.CollKeys(model, v, enbKey, imsi, teid, guti);
      OneChanged(u);
    }

    method StopTimer(t: TimerId)
      modifies this`armed
      ensures armed == R.StopTimer(old(armed), t)
    {
      if t != INACTIVE {
        armed := armed - {t};
      }
    }

    method StopTimers(a: TimerId, b: TimerId, c: TimerId)
      modifies this`armed
      ensures armed == R.StopTimer(R.StopTimer(R.StopTimer(old(armed), a), b), c)
    {
      StopTimer(a);
      StopTimer(b);
      StopTimer(c);
    }

    /** The table part of `mme_remove_ue_context`. */
    method DropFromTables(u: UeContext)
      modifies this`ues, this`byEnb, this`byImsi, this`byTeid, this`byGuti
      ensures ues == old(ues) - {u.id} && byEnb == old(byEnb) - {u.enbKey}
      ensures byImsi == if u.imsi != INVALID_IMSI then old(byImsi) - {u.imsi} else old(byImsi)
      ensures byTeid == if u.teid != NO_TEID then old(byTeid) - {u.teid} else old(byTeid)
      ensures byGuti == if NonZeroGuti(u.guti) then old(byGuti) - {u.guti} else old(byGuti)
    {
      if u.imsi != INVALID_IMSI {
        byImsi := byImsi - {u.imsi};
      }
      byEnb := byEnb - {u.enbKey};
      if u.teid != NO_TEID {
        byTeid := byTeid - {u.teid};
      }
      if NonZeroGuti(u.guti) {
        byGuti := byGuti - {u.guti};
      }
      ues := ues - {u.id};
    }

    /** `mme_remove_ue_context`, with the release of what the context holds. */
    method Remove(u: UeContext)
      requires Valid()
      modifies this
      ensures Valid() && ues == old(ues) - {u.id}
      ensures model == R.Remove(old(model), u.Value())
    {
      hide ContextsOk, NonZeroGuti, R.StopTimer;
      DropFromTables(u);
      StopTimers(u.reach, u.detach, u.setup);
      model := R.Remove(model, u.Value());
      OneRemoved(u.id);
    }

    /** The table part of `mme_insert_ue_context`: the eNB key is entered before the identifier is
        checked. */
    method AddToTables(u: UeContext) returns (ok: bool)
      modifies this`ues, this`byEnb, this`byImsi, this`byTeid, this`byGuti
      ensures ok <==> u.enbKey !in old(byEnb) && u.id != INVALID_UE_ID && u.id !in old(ues)
      ensures ok ==> ues == old(ues)[u.id := u] && byEnb == old(byEnb)[u.enbKey := u.id]
      ensures ok ==> byImsi == if u.imsi != INVALID_IMSI then old(byImsi)[u.imsi := u.id] else old(byImsi)
      ensures ok ==> byTeid == if u.teid != NO_TEID then old(byTeid)[u.teid := u.id] else old(byTeid)
      ensures ok ==> byGuti == if NonZeroGuti(u.guti) then old(byGuti)[u.guti := u.id] else old(byGuti)
    {
      if u.enbKey in byEnb {
        return false;
      }
      byEnb := byEnb[u.enbKey := u.id];
      if u.id == INVALID_UE_ID || u.id in ues {
        return false;
      }
      ues := ues[u.id := u];
      if u.imsi != INVALID_IMSI {
        byImsi := byImsi[u.imsi := u.id];
      }
      if u.teid != NO_TEID {
        byTeid := byTeid[u.teid := u.id];
      }
      if NonZeroGuti(u.guti) {
        byGuti := byGuti[u.guti := u.id];
      }
      return true;
    }

    /** `mme_insert_ue_context`; false when the process ends. */
    method Insert(u: UeContext) returns (ok: bool)
      requires Valid()
      modifies this
      ensures ok == R.InsertOk(old(model), u.Value())
      ensures ok ==> Valid() && ues == old(ues)[u.id := u] && model == R.Insert(old(model), u.Value())
    {
      hide ContextsOk, NonZeroGuti;
      SameKeys(u.id);
      ok := AddToTables(u);
      if ok {
        model := R.Insert(model, u.Value());
        OneAdded(u);
      }
    }

    // ------------------------------------------------------------- small steps

    method Send(msgs: seq<Message>)
      requires Valid()
      modifies this
      ensures Valid() && ues == old(ues) && model == H.Send(old(model), msgs)
    {
      hide ContextsOk;
      sent := sent + msgs;
      model := H.Send(model, msgs);
      NoneChanged();
    }

    /** `update_mme_app_stats_*`: counters that stop at 0. */
    method Count(s: Stats)
      requires Valid()
      modifies this
      ensures Valid() && ues == old(ues) && model == old(model).(stats := s)
    {
      hide ContextsOk;
      stats := s;
      model := model.(stats := s);
      NoneChanged();
    }

    method SetRelCause(u: UeContext, cause: Cause)
      requires Valid() && Has(u)
      modifies this, u
      ensures Valid() && ues == old(ues) && u.Value() == old(u.Value()).(relCause := cause)
      ensures model == R.PutUe(old(model), u.Value())
    {
      hide ContextsOk;
      u.relCause := cause;
      model := R.PutUe(model, u.Value());
      OneChanged(u);
    }

    method SetTimers(u: UeContext, reach: TimerId, detach: TimerId, setup: TimerId)
      requires Valid() && Has(u)
      modifies this, u
      ensures Valid() && ues == old(ues) && u.Value() == old(u.Value()).(reach := reach, detach := detach, setup := setup)
      ensures model == R.PutUe(old(model), u.Value())
    {
      hide ContextsOk;
      u.reach, u.detach, u.setup := reach, detach, setup;
      model := R.PutUe(model, u.Value());
      OneChanged(u);
    }

    /** The timer service starts a timer, or fails. */
    method Arm(t: TimerSetup) returns (id: TimerId)
      modifies this`armed
      ensures id == H.TimerSet(t) && armed == H.Armed(old(armed), t)
    {
      match t {
        case Started(n) =>
          armed := armed + {n};
          id := n;
        case Failed =>
          id := INACTIVE;
      }
    }

    // ------------------------------------------------------------- signalling connection

    /** `update_mme_app_stats_connected_ue_sub`. */
    method CountOneLess()
      modifies this`stats
      ensures stats == old(stats).(connected := H.Minus(old(stats).connected))
    {
      if stats.connected != 0 {
        stats := stats.(connected := stats.connected - 1);
      }
    }

    /** What going idle does outside the context: the timer, if it is to be started, the table of eNB
        keys and the counter. */
    method LeaveEnb(key: nat, wasConnected: bool, t: TimerSetup) returns (timer: TimerId)
      modifies this`byEnb, this`armed, this`stats
      ensures byEnb == old(byEnb) - {key}
      ensures armed == if periodicTau then H.Armed(old(armed), t) else old(armed)
      ensures periodicTau ==> timer == H.TimerSet(t)
      ensures stats == if wasConnected then old(stats).(connected := H.Minus(old(stats).connected)) else old(stats)
    {
      byEnb := byEnb - {key};
      timer := INACTIVE;
      if periodicTau {
        timer := Arm(t);
      }
      if wasConnected {
        CountOneLess();
      }
    }

    /** `mme_ue_context_update_ue_sig_connection_state` with ECM_IDLE. */
    method SigIdle(u: UeContext, t: TimerSetup)
      requires Valid() && Has(u)
      modifies this, u
      ensures Valid() && ues == old(ues) && u.Value() == H.ToIdle(old(u.Value()), periodicTau, t)
      ensures model == H.SigIdle(old(model), old(u.Value()), t)
    {
      hide ContextsOk, H.TimerSet, H.Armed, H.Minus;
      ghost var v := u.Value();
      var timer := LeaveEnb(u.enbKey, u.ecm == Connected, t);
      u.GoIdle(periodicTau, timer);
      model := H.SigIdle(model, v, t);
      OneChanged(u);
    }

    /** `mme_ue_context_update_ue_sig_connection_state` with ECM_CONNECTED. */
    method SigConnected(u: UeContext)
      requires Valid() && Has(u)
      modifies this, u
      ensures Valid() && ues == old(ues) && u.Value() == H.ToConnected(old(u.Value()))
      ensures model == H.SigConnected(old(model), old(u.Value()))
    {
      hide ContextsOk, R.StopTimer;
      if u.ecm == Idle {
        ghost var v := u.Value();
        StopTimers(u.reach, u.detach, INACTIVE);
        stats := stats.(connected := stats.connected + 1);
        u.GoConnected();
        model := H.SigConnected(model, v);
        Stopped(R.StopTimer(R.StopTimer(old(armed), v.reach), v.detach));
        OneChanged(u);
      }
    }

    // ------------------------------------------------------------- initial UE message

    /** The context of a returning UE loses its old eNB key. */
    method ForgetEnb(u: UeContext, enbUeId: nat)
      requires Valid() && Has(u)
      modifies this, u
      ensures Valid() && ues == old(ues) && u.Value() == old(u.Value()).(enbKey := INVALID_ENB_KEY, enbUeId := enbUeId)
      ensures model == H.Forgotten(old(model), old(u.Value()), enbUeId)
    {
      hide ContextsOk;
      ghost var v := u.Value();
      if ValidEnbKey(u.enbKey) {
        byEnb := byEnb - {u.enbKey};
        u.enbKey := INVALID_ENB_KEY;
      }
      u.enbUeId := enbUeId;
      model := H.Forgotten(model, v, enbUeId);
      OneChanged(u);
    }

    /** A known UE comes back over a new radio connection. */
    method Reconnect(u: UeContext, enbId: nat, enbUeId: nat, guti: Guti)
      requires Valid() && Has(u)
      modifies this, u
      ensures Valid() && model == H.Reconnect(old(model), old(u.Value()), enbId, enbUeId, guti)
    {
      hide ContextsOk, FieldsOk, R.CollKeys, R.Rekeyed, EnbKey.Pack, H.Forgotten;
      ForgetEnb(u, enbUeId);
      var key := EnbKey.Pack(enbId, enbUeId);
      CollKeys(u, key, u.imsi, u.teid, guti);
      SetTimers(u, INACTIVE, INACTIVE, INACTIVE);
      Send([UeIdNotification(u.id, enbUeId)]);
    }

    /** `mme_app_ctx_get_new_ue_id`: 0 means the generator is spent. */
    method NewUeId() returns (id: UeId)
      requires Valid()
      modifies this
      ensures Valid() && ues == old(ues) && id == old(model).generator
      ensures model == old(model).(generator := (old(model).generator + 1) % UINT32, created := old(model).created + 1)
    {
      hide ContextsOk;
      id := generator;
      generator := (generator + 1) % UINT32;
      model := model.(generator := generator, created := model.created + 1);
      NoneChanged();
    }

    method Attach(enbId: nat, enbUeId: nat) returns (ok: bool)
      requires Valid()
      modifies this
      ensures ok == H.Attach(old(model), enbId, enbUeId).Done?
      ensures ok ==> Valid() && model == H.Attach(old(model), enbId, enbUeId).mme
    {
      hide ContextsOk, FieldsOk, R.Insert, R.Remove, R.InsertOk, EnbKey.Pack;
      ghost var serial := model.created;
      var id := NewUeId();
      var u := new UeContext(serial, id);
      if id == INVALID_UE_ID {
        Remove(u);
        return true;
      }
      u.enbUeId, u.enbKey := enbUeId, EnbKey.Pack(enbId, enbUeId);
      ok := Insert(u);
      if ok {
        Send([UeIdNotification(id, enbUeId)]);
      }
    }

    /** `mme_app_handle_initial_ue_message`. */
    method InitialUe(enbId: nat, enbUeId: nat, served: Option<Guti>) returns (ok: bool)
      requires Valid()
      modifies this, ues.Values
      ensures ok == H.InitialUe(old(model), enbId, enbUeId, served).Done?
      ensures ok ==> Valid() && model == H.InitialUe(old(model), enbId, enbUeId, served).mme
    {
      hide ContextsOk, FieldsOk, H.Reconnect, H.Attach, R.LookupGuti;
      var u: UeContext? := null;
      if served.Some? {
        u := FindGuti(served.value);
      }
      if u != null {
        Reconnect(u, enbId, enbUeId, served.value);
        return true;
      }
      ok := Attach(enbId, enbUeId);
    }

    // ------------------------------------------------------------- NAS notifications

    /** `emm_ctx_set_valid_imsi`: the field is written before the registry is told. */
    method SetValidImsi(id: UeId, imsi: nat)
      requires Valid()
      modifies this, ues.Values
      ensures Valid() && model == H.SetValidImsi(old(model), id, imsi)
    {
      hide ContextsOk, FieldsOk, R.CollKeys, R.Rekeyed;
      var u := Find(id);
      if u != null {
        SetImsi(u, imsi);
        CollKeys(u, u.enbKey, imsi, u.teid, u.guti);
      }
    }

    /** `_clear_emm_ctxt`: IMSI and GUTI are cleared in the context, no table is told. */
    method ClearIdentities(id: UeId)
      requires Valid()
      modifies this, ues.Values
      ensures Valid() && model == H.ClearIdentities(old(model), id)
    {
      hide ContextsOk, FieldsOk;
      var u := Find(id);
      if u != null {
        SetNames(u, INVALID_IMSI, CLEARED_GUTI);
      }
    }

    method SetNames(u: UeContext, imsi: nat, guti: Guti)
      requires Valid() && Has(u)
      modifies this, u
      ensures Valid() && ues == old(ues) && u.Value() == old(u.Value()).(imsi := imsi, guti := guti)
      ensures model == R.PutUe(old(model), u.Value())
    {
      hide ContextsOk;
      u.imsi := imsi;
      u.guti := guti;
      model := R.PutUe(model, u.Value());
      OneChanged(u);
    }

    method SetImsi(u: UeContext, imsi: nat)
      requires Valid() && Has(u)
      modifies this, u
      ensures Valid() && ues == old(ues) && u.Value() == old(u.Value()).(imsi := imsi)
      ensures model == R.PutUe(old(model), u.Value())
    {
      hide ContextsOk;
      u.imsi := imsi;
      model := R.PutUe(model, u.Value());
      OneChanged(u);
    }

    /** `mme_api_new_guti`, and the field NAS writes after it. */
    method NewGuti(id: UeId, guti: Guti)
      requires Valid()
      modifies this, ues.Values
      ensures Valid() && model == H.NewGuti(old(model), id, guti)
    {
      hide ContextsOk, FieldsOk, R.CollKeys;
      var u := Find(id);
      if u != null {
        CollKeys(u, u.enbKey, u.imsi, u.teid, guti);
        SetNames(u, u.imsi, guti);
      }
    }

    /** `mme_ue_context_update_ue_emm_state`. */
    method EmmState(id: UeId, state: MmState)
      requires Valid()
      modifies this, ues.Values
      ensures Valid() && model == H.EmmState(old(model), id, state)
    {
      hide ContextsOk, FieldsOk;
      var u := Find(id);
      if u != null && u.mm != state {
        SetMm(u, state);
        var s := stats;
        AttachedIs(s);
        if state == Registered {
          Count(s.(attached := s.attached + 1));
        } else {
          Count(s.(attached := H.Minus(s.attached)));
        }
      }
    }

    lemma AttachedIs(s: Stats)
      requires Valid() && s == stats
      ensures s == model.stats
    {
    }

    method SetMm(u: UeContext, state: MmState)
      requires Valid() && Has(u)
      modifies this, u
      ensures Valid() && ues == old(ues) && u.Value() == old(u.Value()).(mm := state)
      ensures model == R.PutUe(old(model), u.Value())
    {
      hide ContextsOk;
      u.mm := state;
      model := R.PutUe(model, u.Value());
      OneChanged(u);
    }

    method PdnCreated(id: UeId, cid: nat, apn: Option<(nat, B.Arp)>) returns (ok: bool)
      requires Valid()
      modifies this, ues.Values
      ensures ok == H.PdnCreated(old(model), id, cid, apn).Done?
      ensures ok ==> Valid() && model == H.PdnCreated(old(model), id, cid, apn).mme
    {
      hide ContextsOk, B.CreatePdn;
      var u := Find(id);
      if u != null {
        if cid >= |u.pdns| {
          return false;
        }
        u.CreatePdnContext(cid, apn);
        model := R.PutUe(model, u.Value());
        OneChanged(u);
      }
      return true;
    }

    method BearerCreated(id: UeId, cid: nat, ebi: nat, isDefault: bool, qci: nat) returns (ok: bool)
      requires Valid() && H.TablesSized(model)
      modifies this, ues.Values
      ensures ok == H.BearerCreated(old(model), id, cid, ebi, isDefault, qci).Done?
      ensures ok ==> Valid() && model == H.BearerCreated(old(model), id, cid, ebi, isDefault, qci).mme
    {
      hide ContextsOk, H.TablesSized, B.WellSized, B.NasCreateBearer;
      var u := Find(id);
      if u != null {
        HasSized(u);
        ok := u.NasCreateBearer(cid, ebi, isDefault, qci);
        if !ok {
          return;
        }
        model := R.PutUe(model, u.Value());
        OneChanged(u);
      }
      return true;
    }

    method EsmStatus(id: UeId, ebi: nat, status: B.EsmState)
      requires Valid() && H.TablesSized(model)
      modifies this, ues.Values
      ensures Valid() && model == H.EsmStatus(old(model), id, ebi, status)
    {
      hide ContextsOk, H.TablesSized, B.SetEsmStatus;
      var u := Find(id);
      if u != null {
        HasSized(u);
        u.SetEsmStatus(ebi, status);
        model := R.PutUe(model, u.Value());
        OneChanged(u);
      }
    }

    method BearerS1Released(id: UeId, ebi: nat)
      requires Valid() && H.TablesSized(model)
      modifies this, ues.Values
      ensures Valid() && model == H.BearerS1Released(old(model), id, ebi)
    {
      hide ContextsOk, H.TablesSized, B.S1Release;
      var u := Find(id);
      if u != null {
        HasSized(u);
        u.S1Release(ebi);
        model := R.PutUe(model, u.Value());
        OneChanged(u);
      }
    }

    // ------------------------------------------------------------- sessions

    /** The table part of a create-session request; false when the process ends. */
    method StartSession(u: UeContext, cid: nat) returns (ok: bool)
      requires Valid() && Has(u) && B.WellSized(u.Tables())
      modifies this, u
      ensures ok == B.StartSession(old(u.Tables()), cid).Some?
      ensures ok ==> Valid() && ues == old(ues) && u.Value() == old(u.Value()).(tables := B.StartSession(old(u.Tables()), cid).value)
      ensures ok ==> model == R.PutUe(old(model), u.Value())
    {
      hide ContextsOk, B.StartSession, B.WellSized;
      ok := u.StartSession(cid);
      if ok {
        model := R.PutUe(model, u.Value());
        OneChanged(u);
      }
    }

    /** `mme_app_send_s11_create_session_req`, for the UE that NAS names by its IMSI. */
    method PdnConnectivity(imsi: nat, cid: nat, teid: nat) returns (ok: bool)
      requires Valid() && H.TablesSized(model)
      modifies this, ues.Values
      ensures ok == H.PdnConnectivity(old(model), imsi, cid, teid).Done?
      ensures ok ==> Valid() && model == H.PdnConnectivity(old(model), imsi, cid, teid).mme
    {
      hide ContextsOk, FieldsOk, H.TablesSized, R.CollKeys, R.Rekeyed;
      var u := FindImsi(imsi);
      if u == null {
        return true;
      }
      HasSized(u);
      if cid >= B.MAX_APN_PER_UE || u.pdns[cid].None? {
        return false;
      }
      var imsiOfUe, ebi := u.imsi, u.pdns[cid].value.defaultEbi;
      hide B.WellSized;
      ok := StartSession(u, cid);
      hide B.StartSession;
      if ok {
        CollKeys(u, u.enbKey, u.imsi, teid, u.guti);
        Send([CreateSessionReq(imsiOfUe, teid, ebi)]);
      }
    }

    /** The table part of an accepted create-session response. */
    method SessionsCreated(u: UeContext, sgwTeid: nat, ms: seq<B.SessionBearer>) returns (ok: bool)
      requires Valid() && Has(u) && B.WellSized(u.Tables())
      modifies this, u
      ensures ok == B.SessionsCreated(old(u.Tables()), sgwTeid, ms, |ms|).Some?
      ensures ok ==> Valid() && ues == old(ues) && u.Value() == old(u.Value()).(tables := B.SessionsCreated(old(u.Tables()), sgwTeid, ms, |ms|).value)
      ensures ok ==> model == R.PutUe(old(model), u.Value())
    {
      hide ContextsOk, B.SessionsCreated, B.WellSized;
      ok := u.SessionsCreated(sgwTeid, ms);
      if ok {
        model := R.PutUe(model, u.Value());
        OneChanged(u);
      }
    }

    /** `mme_app_handle_create_sess_resp`. */
    method CreateSessionRsp(teid: nat, accepted: bool, sgwTeid: nat, ms: seq<B.SessionBearer>) returns (ok: bool)
      requires Valid() && H.TablesSized(model)
      modifies this, ues.Values
      ensures ok == H.CreateSessionRsp(old(model), teid, accepted, sgwTeid, ms).Done?
      ensures ok ==> Valid() && model == H.CreateSessionRsp(old(model), teid, accepted, sgwTeid, ms).mme
    {
      hide ContextsOk, FieldsOk, H.TablesSized, B.SessionsCreated, B.GetBearer, R.LookupTeid;
      var u := FindTeid(teid);
      if u == null {
        return true;
      }
      if !accepted {
        Send([PdnConnectivityFail(u.id)]);
        return true;
      }
      HasSized(u);
      var first := None;
      if ms != [] {
        first := u.BearerContext(ms[0].ebi);
      }
      hide B.WellSized;
      ok := SessionsCreated(u, sgwTeid, ms);
      if !ok || ms == [] {
        return false;
      }
      var s := stats;
      AttachedIs(s);
      Count(s.(defaultBearers := s.defaultBearers + |ms|));
      Send([PdnConnectivityRsp(u.id, if first.Some? then first.value.pdnCxId else 0, ms[|ms| - 1].ebi)]);
    }

    method ModifyBearerRsp(teid: nat)
      requires Valid()
      modifies this
      ensures Valid() && model == H.ModifyBearerRsp(old(model), teid)
    {
      hide ContextsOk, FieldsOk, R.LookupTeid;
      var u := FindTeid(teid);
      if u != null {
        var s := stats;
        AttachedIs(s);
        Count(s.(s1uBearers := s.s1uBearers + 1));
      }
    }

    /** The context gives up its S11 tunnel. */
    method DropTeid(u: UeContext)
      requires Valid() && Has(u)
      modifies this, u
      ensures Valid() && ues == old(ues) && u.Value() == old(u.Value()).(teid := NO_TEID)
      ensures model == H.DropTeid(old(model), old(u.Value()))
    {
      hide ContextsOk;
      ghost var v := u.Value();
      byTeid := byTeid - {u.teid};
      u.teid := NO_TEID;
      model := H.DropTeid(model, v);
      OneChanged(u);
    }

    /** `mme_app_handle_delete_session_rsp`. */
    method DeleteSessionRsp(teid: nat)
      requires Valid()
      modifies this, ues.Values
      ensures Valid() && model == H.DeleteSessionRsp(old(model), teid)
    {
      hide ContextsOk, FieldsOk, H.DropTeid, R.Remove, R.LookupTeid, H.Minus;
      var u := FindTeid(teid);
      if u == null {
        return;
      }
      DropTeid(u);
      CountSessionGone();
      if u.ecm == Idle {
        SetRelCauseAndRemove(u);
      } else {
        var cause := if u.relCause == InvalidCause then NasDetach else u.relCause;
        SetRelCause(u, InvalidCause);
        Send([S1ReleaseCommand(u.id, u.enbUeId, cause)]);
      }
    }

    method CountSessionGone()
      requires Valid()
      modifies this
      ensures Valid() && ues == old(ues) && model == H.SubDefault(H.SubS1u(old(model)))
    {
      hide ContextsOk, FieldsOk;
      var s := stats;
      AttachedIs(s);
      Count(s.(s1uBearers := H.Minus(s.s1uBearers), defaultBearers := H.Minus(s.defaultBearers)));
    }

    /** An idle UE is told to the eNB as released and its context goes. */
    method SetRelCauseAndRemove(u: UeContext)
      requires Valid() && Has(u)
      modifies this, u
      ensures Valid()
      ensures model == R.Remove(H.Send(old(model), [S1ReleaseCommand(u.id, old(u.enbUeId), ImplicitRelease)]), old(u.Value()).(relCause := ImplicitRelease))
    {
      hide ContextsOk, FieldsOk;
      SetRelCause(u, ImplicitRelease);
      Send([S1ReleaseCommand(u.id, u.enbUeId, ImplicitRelease)]);
      Remove(u);
    }

    /** `mme_app_handle_release_access_bearers_resp`. */
    method ReleaseAccessBearersRsp(teid: nat, t: TimerSetup)
      requires Valid()
      modifies this, ues.Values
      ensures Valid() && model == H.ReleaseAccessBearersRsp(old(model), teid, t)
    {
      hide ContextsOk, FieldsOk, H.SigIdle, R.LookupTeid, H.Minus;
      var u := FindTeid(teid);
      if u != null {
        var s := stats;
        AttachedIs(s);
        Count(s.(s1uBearers := H.Minus(s.s1uBearers)));
        Send([S1ReleaseCommand(u.id, u.enbUeId, u.relCause)]);
        if u.relCause == SctpReset {
          SigIdle(u, t);
        }
      }
    }

    // ------------------------------------------------------------- dedicated bearers

    /** The table part of a create-bearer request, and the requests to NAS. */
    method RequestBearers(u: UeContext, cid: nat, trxn: nat, ms: seq<B.BearerRequest>) returns (ok: bool, msgs: seq<Message>)
      requires Valid() && Has(u) && B.WellSized(u.Tables()) && cid < B.MAX_APN_PER_UE && u.pdns[cid].Some?
      requires B.WellSized(B.StartProc(u.Tables(), trxn))
      modifies this, u
      ensures ok == B.RequestBearers(B.StartProc(old(u.Tables()), trxn), cid, ms, |ms|).Some?
      ensures ok ==> Valid() && ues == old(ues)
      ensures ok ==> model == R.PutUe(old(model), old(u.Value()).(tables := B.RequestBearers(B.StartProc(old(u.Tables()), trxn), cid, ms, |ms|).value))
      ensures ok ==> msgs == H.DedicatedReqs(old(u.Value()), cid, trxn, ms, |ms|)
    {
      hide ContextsOk, B.RequestBearers, B.WellSized, B.StartProc, H.DedicatedReqs;
      ok, msgs := u.RequestBearers(cid, trxn, ms);
      if ok {
        model := R.PutUe(model, u.Value());
        OneChanged(u);
      }
    }

    /** `mme_app_handle_s11_create_bearer_req`. */
    method CreateBearerReq(teid: nat, linkedEbi: nat, trxn: nat, ms: seq<B.BearerRequest>) returns (ok: bool)
      requires Valid() && H.TablesSized(model)
      modifies this, ues.Values
      ensures ok == H.CreateBearerReq(old(model), teid, linkedEbi, trxn, ms).Done?
      ensures ok ==> Valid() && model == H.CreateBearerReq(old(model), teid, linkedEbi, trxn, ms).mme
    {
      hide ContextsOk, FieldsOk, H.TablesSized, B.RequestBearers, B.StartProc, B.GetBearer, R.LookupTeid, H.DedicatedReqs;
      var u := FindTeid(teid);
      if u == null {
        return true;
      }
      HasSized(u);
      var linked := u.BearerContext(linkedEbi);
      if linked.None? {
        return true;
      }
      var cid := linked.value.pdnCxId;
      if !(0 <= cid < B.MAX_APN_PER_UE) || u.pdns[cid].None? {
        return false;
      }
      BP.StartSized(u.Tables(), trxn);
      hide B.WellSized;
      var msgs;
      ok, msgs := RequestBearers(u, cid, trxn, ms);
      if ok {
        Send(msgs);
      }
    }

    method AnswerBearer(u: UeContext, ebi: nat, success: bool) returns (ok: bool, rsp: Option<B.Response>)
      requires Valid() && Has(u) && B.WellSized(u.Tables())
      modifies this, u
      ensures ok == B.Answer(old(u.Tables()), ebi, success).Some?
      ensures ok ==> Valid() && ues == old(ues) && u.teid == old(u.teid) && rsp == B.Answer(old(u.Tables()), ebi, success).value.sent
      ensures ok ==> model == R.PutUe(old(model), old(u.Value()).(tables := B.Answer(old(u.Tables()), ebi, success).value.t))
    {
      hide ContextsOk, B.Answer, B.WellSized;
      ok, rsp := u.Answer(ebi, success);
      if ok {
        model := R.PutUe(model, u.Value());
        OneChanged(u);
      }
    }

    /** `mme_app_handle_create_dedicated_bearer_rsp` and `..._rej`. */
    method DedicatedAnswer(id: UeId, ebi: nat, success: bool) returns (ok: bool)
      requires Valid() && H.TablesSized(model)
      modifies this, ues.Values
      ensures ok == H.DedicatedAnswer(old(model), id, ebi, success).Done?
      ensures ok ==> Valid() && model == H.DedicatedAnswer(old(model), id, ebi, success).mme
    {
      hide ContextsOk, FieldsOk, H.TablesSized, B.Answer, B.WellSized;
      var u := Find(id);
      if u == null {
        return true;
      }
      HasSized(u);
      var rsp;
      ok, rsp := AnswerBearer(u, ebi, success);
      if ok {
        Send(if rsp.Some? then [CreateBearerRsp(u.teid, rsp.value)] else []);
      }
    }

    method SetUpErabs(u: UeContext, ups: seq<B.ErabSetup>, downs: seq<nat>) returns (ok: bool, answer: Option<B.Response>)
      requires Valid() && Has(u) && |u.bearers| == B.BEARERS_PER_UE
      modifies this, u
      ensures ok == B.ErabSetupRsp(old(u.Tables()), ups, downs).Some?
      ensures ok ==> Valid() && ues == old(ues) && u.teid == old(u.teid) && answer == B.ErabSetupRsp(old(u.Tables()), ups, downs).value.1
      ensures ok ==> model == R.PutUe(old(model), old(u.Value()).(tables := B.ErabSetupRsp(old(u.Tables()), ups, downs).value.0))
    {
      hide ContextsOk, B.ErabSetupRsp;
      ok, answer := u.ErabSetupRsp(ups, downs);
      if ok {
        model := R.PutUe(model, u.Value());
        OneChanged(u);
      }
    }

    /** `mme_app_handle_e_rab_setup_rsp`. */
    method ErabSetupRsp(id: UeId, ups: seq<B.ErabSetup>, downs: seq<nat>) returns (ok: bool)
      requires Valid() && H.TablesSized(model)
      modifies this, ues.Values
      ensures ok == H.ErabSetupRsp(old(model), id, ups, downs).Done?
      ensures ok ==> Valid() && model == H.ErabSetupRsp(old(model), id, ups, downs).mme
    {
      hide ContextsOk, FieldsOk, H.TablesSized, B.ErabSetupRsp;
      var u := Find(id);
      if u == null {
        return true;
      }
      HasSized(u);
      hide B.WellSized;
      var answer;
      ok, answer := SetUpErabs(u, ups, downs);
      if ok {
        Send(if answer.Some? then [CreateBearerRsp(u.teid, answer.value)] else []);
      }
    }

    // ------------------------------------------------------------- connection

    /** Start the timer that guards the initial context setup. */
    method StartSetup(u: UeContext, t: TimerSetup)
      requires Valid() && Has(u)
      modifies this, u
      ensures Valid() && model == H.StartSetup(old(model), old(u.Value()), t)
    {
      hide ContextsOk, H.TimerSet, H.Armed;
      ghost var v := u.Value();
      var timer := Arm(t);
      u.setup := timer;
      model := H.StartSetup(model, v, t);
      OneChanged(u);
    }

    /** `mme_app_handle_conn_est_cnf`. */
    method ConnEstCnf(id: UeId, nas: B.NasPdu, t: TimerSetup)
      requires Valid() && H.TablesSized(model)
      modifies this, ues.Values
      ensures Valid() && model == H.ConnEstCnf(old(model), id, nas, t)
    {
      hide ContextsOk, FieldsOk, H.TablesSized, B.Erabs, H.SigConnected, H.StartSetup, H.ToConnected;
      var u := Find(id);
      if u != null {
        HasSized(u);
        var erabs := u.CollectErabs();
        Send([ConnectionEstablishment(id, erabs, if erabs == [] then None else Some(nas))]);
        SigConnected(u);
        StartSetup(u, t);
      }
    }

    /** `mme_app_handle_nas_dl_req`; false when the UE is not known. */
    method NasDownlinkReq(id: UeId, success: bool) returns (ok: bool)
      requires Valid()
      modifies this, ues.Values
      ensures ok == H.NasDownlinkReq(old(model), id, success).Done?
      ensures ok ==> Valid() && model == H.NasDownlinkReq(old(model), id, success).mme
    {
      hide ContextsOk, FieldsOk, H.SigConnected;
      var u := Find(id);
      if u == null {
        return false;
      }
      var enbUeId := u.enbUeId;
      Send([NasDownlink(id, enbUeId)]);
      SigConnected(u);
      if !success {
        SetRelCause(u, NasNormalRelease);
        Send([S1ReleaseCommand(u.id, enbUeId, NasNormalRelease)]);
      }
      return true;
    }

    method StopSetup(u: UeContext)
      requires Valid() && Has(u)
      modifies this, u
      ensures Valid() && ues == old(ues) && u.Value() == old(u.Value()).(setup := INACTIVE)
      ensures model == H.StopSetup(old(model), old(u.Value()))
    {
      hide ContextsOk, R.StopTimer;
      ghost var v := u.Value();
      StopTimer(u.setup);
      u.setup := INACTIVE;
      model := H.StopSetup(model, v);
      OneChanged(u);
    }

    /** `mme_app_handle_initial_context_setup_rsp`. */
    method ContextSetupRsp(id: UeId)
      requires Valid()
      modifies this, ues.Values
      ensures Valid() && model == H.ContextSetupRsp(old(model), id)
    {
      hide ContextsOk, FieldsOk, H.StopSetup;
      var u := Find(id);
      if u != null {
        StopSetup(u);
      }
    }

    /** Detach a UE that is not registered, otherwise release its bearers. */
    method AbortProcedure(u: UeContext)
      requires Valid() && Has(u) && |u.pdns| == B.MAX_APN_PER_UE
      modifies this, u
      ensures Valid() && model == H.AbortProcedure(old(model), old(u.Value()))
    {
      hide ContextsOk, FieldsOk, H.ReleaseBearers;
      ghost var v := u.Value();
      var msgs: seq<Message>;
      if u.mm == Unregistered {
        msgs := [ImplicitDetachInd(u.id)];
      } else {
        msgs := u.ReleaseBearersReqs();
      }
      SetRelCause(u, InitialContextSetupFailed);
      Send(msgs);
    }

    /** `mme_app_handle_initial_context_setup_failure`. */
    method ContextSetupFailure(id: UeId)
      requires Valid() && H.TablesSized(model)
      modifies this, ues.Values
      ensures Valid() && model == H.ContextSetupFailure(old(model), id)
    {
      hide ContextsOk, FieldsOk, H.TablesSized, H.StopSetup, H.AbortProcedure;
      var u := Find(id);
      if u != null {
        HasSized(u);
        StopSetup(u);
        AbortProcedure(u);
      }
    }

    // ------------------------------------------------------------- release

    method FindForRelease(id: UeId, enbUeId: nat, enbId: nat) returns (u: UeContext?)
      requires Valid()
      ensures u == null ==> H.FindForRelease(model, id, enbUeId, enbId) == None
      ensures u != null ==> Has(u) && H.FindForRelease(model, id, enbUeId, enbId) == Some(u.Value())
    {
      hide ContextsOk, FieldsOk, R.LookupEnb, EnbKey.Pack;
      u := Find(id);
      if u == null {
        u := FindEnb(EnbKey.Pack(enbId, enbUeId));
      }
    }

    /** What a release request does to a connected UE. */
    method ReleaseConnected(u: UeContext)
      requires Valid() && Has(u) && |u.pdns| == B.MAX_APN_PER_UE
      modifies this, u
      ensures var v := old(u.Value());
              var v' := if v.setup != INACTIVE then v.(setup := INACTIVE, relCause := InitialContextSetupFailed) else v;
              && Valid()
              && model == H.Send(old(model).(ues := old(model).ues[v.id := v'], armed := R.StopTimer(old(model).armed, v.setup)),
                                 if v.mm == Unregistered then [ImplicitDetachInd(v.id)] else H.ReleaseBearers(v', B.MAX_APN_PER_UE))
    {
      hide ContextsOk, FieldsOk, H.ReleaseBearers, R.StopTimer;
      ghost var v := u.Value();
      ghost var m := model;
      if u.setup != INACTIVE {
        StopSetup(u);
        SetRelCause(u, InitialContextSetupFailed);
      } else {
        ValueOf(u);
        assert m.ues[v.id := v] == m.ues;
        Stopped(m.armed);
      }
      var msgs: seq<Message>;
      if u.mm == Unregistered {
        msgs := [ImplicitDetachInd(u.id)];
      } else {
        msgs := u.ReleaseBearersReqs();
      }
      Send(msgs);
    }

    lemma Stopped(armed: set<TimerId>)
      ensures R.StopTimer(armed, INACTIVE) == armed
    {
    }

    /** `_mme_app_handle_s1ap_ue_context_release`. */
    method ReleaseReq(id: UeId, enbUeId: nat, enbId: nat, cause: Cause, t: TimerSetup)
      requires Valid() && H.TablesSized(model)
      modifies this, ues.Values
      ensures Valid() && model == H.ReleaseReq(old(model), id, enbUeId, enbId, cause, t)
    {
      hide ContextsOk, FieldsOk, H.TablesSized, H.SigIdle, H.ReleaseBearers, R.StopTimer, H.FindForRelease;
      var u := FindForRelease(id, enbUeId, enbId);
      if u == null {
        return;
      }
      HasSized(u);
      var enbUe := u.enbUeId;
      SetRelCause(u, cause);
      if u.ecm == Idle {
        if cause == SctpReset {
          SigIdle(u, t);
          Send([S1ReleaseCommand(u.id, enbUe, cause)]);
        }
      } else {
        ReleaseConnected(u);
      }
    }

    method EndProcedure(u: UeContext)
      requires Valid() && Has(u)
      modifies this, u
      ensures Valid() && ues == old(ues) && u.Value() == old(u.Value()).(tables := B.DeleteProc(old(u.Tables())))
      ensures model == R.PutUe(old(model), u.Value())
    {
      hide ContextsOk, B.DeleteProc;
      u.DeleteProc();
      model := R.PutUe(model, u.Value());
      OneChanged(u);
    }

    /** `mme_app_handle_s1ap_ue_context_release_complete`. */
    method ReleaseComplete(id: UeId, t: TimerSetup)
      requires Valid() && H.TablesSized(model)
      modifies this, ues.Values
      ensures Valid() && model == H.ReleaseComplete(old(model), id, t)
    {
      hide ContextsOk, FieldsOk, H.TablesSized, H.SigIdle, H.DeleteSessions, R.Remove, H.Minus;
      var u := Find(id);
      if u == null {
        return;
      }
      HasSized(u);
      EndProcedure(u);
      if u.mm == Unregistered {
        if u.teid == NO_TEID && u.activePdns == 0 {
          Remove(u);
          var s := stats;
          AttachedIs(s);
          Count(s.(connected := H.Minus(s.connected)));
        } else {
          var msgs := u.DeleteSessionReqs();
          Send(msgs);
          SigIdle(u, t);
        }
      } else {
        SigIdle(u, t);
      }
    }

    /** A connected UE without session asks to be detached, or is detached. */
    method DetachConnected(u: UeContext, t: TimerSetup)
      requires Valid() && Has(u)
      modifies this, u
      ensures Valid() && model == H.DetachConnected(old(model), old(u.Value()), t)
    {
      hide ContextsOk, FieldsOk, H.SigIdle, R.Remove;
      var cause := if u.relCause == InvalidCause then NasDetach else u.relCause;
      SetRelCause(u, cause);
      Send([S1ReleaseCommand(u.id, u.enbUeId, cause)]);
      if cause == SctpReset {
        TauIs();
        SigIdle(u, t);
        Remove(u);
      } else {
        SetRelCause(u, InvalidCause);
      }
    }

    lemma TauIs()
      requires Valid()
      ensures periodicTau == model.periodicTau
    {
    }

    /** `mme_app_handle_detach_req`. */
    method DetachReq(id: UeId, t: TimerSetup)
      requires Valid() && H.TablesSized(model)
      modifies this, ues.Values
      ensures Valid() && model == H.DetachReq(old(model), id, t)
    {
      hide ContextsOk, FieldsOk, H.TablesSized, H.DeleteSessions, R.Remove, H.DetachConnected;
      var u := Find(id);
      if u == null {
        return;
      }
      if u.teid == NO_TEID && u.activePdns == 0 {
        if u.ecm == Idle {
          SetRelCauseAndRemove(u);
        } else {
          DetachConnected(u, t);
        }
      } else {
        HasSized(u);
        var msgs := u.DeleteSessionReqs();
        Send(msgs);
      }
    }

    // ------------------------------------------------------------- timers

    /** The timer service fires a one-shot timer; the notice is delivered later. */
    method TimerFires(timer: TimerId)
      requires Valid()
      modifies this
      ensures Valid() && model == H.TimerFires(old(model), timer)
    {
      hide ContextsOk;
      armed := armed - {timer};
      model := H.TimerFires(model, timer);
      NoneChanged();
    }

    /** The mobile reachability timer has expired: start the implicit-detach timer. */
    method ReachExpired(u: UeContext, t: TimerSetup)
      requires Valid() && Has(u)
      modifies this, u
      ensures Valid()
      ensures model == old(model).(ues := old(model).ues[u.id := old(u.Value()).(reach := INACTIVE, detach := H.TimerSet(t))],
                                   armed := H.Armed(old(model).armed, t))
    {
      hide ContextsOk, H.TimerSet, H.Armed;
      u.reach := INACTIVE;
      var timer := Arm(t);
      u.detach := timer;
      model := model.(ues := model.ues[u.id := u.Value()], armed := armed);
      OneChanged(u);
    }

    /** The `TIMER_HAS_EXPIRED` message: the number decides which timer it was. */
    method TimerExpired(timer: TimerId, id: UeId, t: TimerSetup)
      requires Valid() && H.TablesSized(model)
      modifies this, ues.Values
      ensures Valid() && model == H.TimerExpired(old(model), timer, id, t)
    {
      hide ContextsOk, FieldsOk, H.TablesSized, H.ReleaseBearers, H.TimerSet, H.Armed;
      var u := Find(id);
      if u == null {
        return;
      }
      if timer == u.reach {
        ReachExpired(u, t);
      } else if timer == u.detach {
        SetTimers(u, u.reach, INACTIVE, u.setup);
        Send([ImplicitDetachInd(u.id)]);
      } else if timer == u.setup {
        HasSized(u);
        ghost var m := model;
        SetTimers(u, u.reach, u.detach, INACTIVE);
        ghost var v := u.Value();
        AbortProcedure(u);
        assert m.ues[id := v][id := v.(relCause := InitialContextSetupFailed)] == m.ues[id := v.(relCause := InitialContextSetupFailed)];
      }
    }

    /** The subscription has arrived: the idle timers get their durations. */
    method LocationAns(imsi: nat)
      requires Valid()
      modifies this, ues.Values
      ensures Valid() && model == H.LocationAns(old(model), imsi)
    {
      hide ContextsOk, FieldsOk, R.LookupImsi;
      var u := FindImsi(imsi);
      if u != null {
        SetTimers(u, INACTIVE, INACTIVE, u.setup);
      }
    }
  }
}
