/** Entries of the IMSI and GUTI indexes that outlive the identities they were made for: which steps
    leave them behind, which take them over or out, and that nothing else does either. */
module StaleEntries {
  import opened Common
  import opened UeModel
  import opened Registry
  import opened Handlers
  import opened Invariant
  import opened HandlerProofs
  import opened Runs
  import opened StepFrames
  import EnbKey
  import B = Bearers

  // ---------------------------------------------------------------- leaving and taking over

  /** The step takes the IMSI from the context id without telling the index. */
  ghost predicate ShedsImsi(m: Mme, e: Event, imsi: nat, id: UeId) {
    && Owns(m.ues, ImsiOf, id, imsi)
    && ((e.EvClearIdentities? && e.id == id) || (e.EvSetImsi? && e.id == id && e.imsi != imsi))
  }

  /** The step enters a context under the IMSI. */
  ghost predicate ClaimsImsi(m: Mme, e: Event, imsi: nat) {
    e.EvSetImsi? && e.id in m.ues && e.imsi == imsi
  }

  /** The entry a step makes in the GUTI index: for a context that is given another GUTI, or that comes
      back with one it does not have. */
  function GutiEntry(m: Mme, e: Event): (r: Option<(Guti, UeId)>) {
    match e
    case EvNewGuti(id, guti) => if id in m.ues && !SameGutiButMnc(guti, m.ues[id].guti) then Some((guti, id)) else None
    case EvInitialUe(_, _, served) =>
      if served.Some? && LookupGuti(m, served.value).Some? && !SameGutiButMnc(served.value, LookupGuti(m, served.value).value.guti)
      then Some((served.value, LookupGuti(m, served.value).value.id))
      else None
    case _ => None
  }

  /** The GUTI whose entry a step takes out: that of a context that is given another, or that goes. */
  function GutiTaken(m: Mme, e: Event, m': Mme): (r: Option<Guti>) {
    var x := Target(m, e);
    if x in m.ues && (GutiEntry(m, e).Some? || x !in m'.ues) then Some(m.ues[x].guti) else None
  }

  ghost predicate TouchesGuti(m: Mme, e: Event, m': Mme, guti: Guti) {
    (GutiEntry(m, e).Some? && GutiEntry(m, e).value.0 == guti) || GutiTaken(m, e, m') == Some(guti)
  }

  // ---------------------------------------------------------------- steps that do neither

  ghost predicate SameOn<K(!new)>(table: map<K, UeId>, table': map<K, UeId>, valid: K -> bool) {
    forall k, id :: valid(k) ==> (Leads(table', k, id) <==> Leads(table, k, id))
  }

  /** No context comes or goes, and neither the names nor the tables of names change. */
  ghost predicate NamesKept(m: Mme, m': Mme) {
    && SameOn(m.byImsi, m'.byImsi, ValidImsi)
    && SameOn(m.byGuti, m'.byGuti, ValidGuti)
    && m'.ues.Keys == m.ues.Keys
    && (forall id :: id in m.ues ==> SameNames(m.ues[id], m'.ues[id]))
  }

  /** The context id goes, and its names with it. */
  ghost predicate NamesDropped(m: Mme, m': Mme, id: UeId) {
    && id in m.ues
    && SameOn(m.byImsi - {m.ues[id].imsi}, m'.byImsi, ValidImsi)
    && SameOn(m.byGuti - {m.ues[id].guti}, m'.byGuti, ValidGuti)
    && m'.ues.Keys == m.ues.Keys - {id}
    && (forall j :: j in m'.ues ==> SameNames(m.ues[j], m'.ues[j]))
  }

  /** A context without names comes. */
  ghost predicate NamesAdded(m: Mme, m': Mme, id: UeId) {
    && id !in m.ues
    && SameOn(m.byImsi, m'.byImsi, ValidImsi)
    && SameOn(m.byGuti, m'.byGuti, ValidGuti)
    && m'.ues.Keys == m.ues.Keys + {id}
    && !ValidImsi(m'.ues[id].imsi) && !ValidGuti(m'.ues[id].guti)
    && (forall j :: j in m.ues ==> SameNames(m.ues[j], m'.ues[j]))
  }

  ghost predicate Quiet(m: Mme, m': Mme) {
    NamesKept(m, m') || (exists id :: NamesDropped(m, m', id)) || (exists id :: NamesAdded(m, m', id))
  }

  /** Neither creates stale IMSI entries nor takes any away. */
  ghost predicate SameStale(m: Mme, m': Mme) {
    forall imsi, id :: ValidImsi(imsi) ==> (StaleImsi(m', imsi, id) <==> StaleImsi(m, imsi, id))
  }

  lemma QuietKeepsStale(m: Mme, m': Mme)
    requires IndexOk(m) && Quiet(m, m')
    ensures SameStale(m, m')
  {
    hide Indexed, Covered, SameOn, Stale;
    if NamesKept(m, m') {
      KeptKeepsStale(m.byImsi, m'.byImsi, m.ues, m'.ues, ImsiOf, ValidImsi);
    } else if exists id :: NamesDropped(m, m', id) {
      var id :| NamesDropped(m, m', id);
      DroppedKeepsStale(m.byImsi, m'.byImsi, m.ues, m'.ues, ImsiOf, ValidImsi, id);
    } else {
      var id :| NamesAdded(m, m', id);
      AddedKeepsStale(m.byImsi, m'.byImsi, m.ues, m'.ues, ImsiOf, ValidImsi, id);
    }
  }

  lemma KeptKeepsStale<K(!new)>(table: map<K, UeId>, table': map<K, UeId>, ues: map<UeId, Ue>, ues': map<UeId, Ue>,
                                key: Ue -> K, valid: K -> bool)
    requires SameOn(table, table', valid) && ues'.Keys == ues.Keys && forall j :: j in ues ==> key(ues'[j]) == key(ues[j])
    ensures forall k, j :: valid(k) ==> (Stale(table', ues', key, k, j) <==> Stale(table, ues, key, k, j))
  {
  }

  lemma DroppedKeepsStale<K(!new)>(table: map<K, UeId>, table': map<K, UeId>, ues: map<UeId, Ue>, ues': map<UeId, Ue>,
                                   key: Ue -> K, valid: K -> bool, id: UeId)
    requires Covered(table, ues, key, valid) && id in ues && SameOn(table - {key(ues[id])}, table', valid)
    requires ues'.Keys == ues.Keys - {id} && forall j :: j in ues' ==> key(ues'[j]) == key(ues[j])
    ensures forall k, j :: valid(k) ==> (Stale(table', ues', key, k, j) <==> Stale(table, ues, key, k, j))
  {
  }

  lemma AddedKeepsStale<K(!new)>(table: map<K, UeId>, table': map<K, UeId>, ues: map<UeId, Ue>, ues': map<UeId, Ue>,
                                 key: Ue -> K, valid: K -> bool, id: UeId)
    requires id !in ues && SameOn(table, table', valid) && ues'.Keys == ues.Keys + {id} && !valid(key(ues'[id]))
    requires forall j :: j in ues ==> key(ues'[j]) == key(ues[j])
    ensures forall k, j :: valid(k) ==> (Stale(table', ues', key, k, j) <==> Stale(table, ues, key, k, j))
  {
  }

  lemma PutIsQuiet(m: Mme, m': Mme, x: UeId, grows: bool)
    requires Put(m, m', x, grows)
    ensures Quiet(m, m')
  {
    hide Grows;
    assert NamesKept(m, m');
  }

  lemma DropIsQuiet(m: Mme, m': Mme, x: UeId)
    requires Drop(m, m', x)
    ensures Quiet(m, m')
  {
    assert NamesDropped(m, m', x);
  }

  // ---------------------------------------------------------------- steps that change names

  lemma ClearedStale<K(!new)>(table: map<K, UeId>, ues: map<UeId, Ue>, key: Ue -> K, valid: K -> bool, id: UeId, u: Ue)
    requires Covered(table, ues, key, valid) && id in ues && !valid(key(u))
    ensures forall k, j {:trigger Stale(table, ues[id := u], key, k, j)} :: valid(k) ==>
              (Stale(table, ues[id := u], key, k, j) <==> (j == id && Owns(ues, key, id, k)) || Stale(table, ues, key, k, j))
  {
    forall k, j | valid(k)
      ensures Stale(table, ues[id := u], key, k, j) <==> (j == id && Owns(ues, key, id, k)) || Stale(table, ues, key, k, j)
    {
      assert k != key(u);
    }
  }

  lemma OverwrittenStale<K(!new)>(table: map<K, UeId>, ues: map<UeId, Ue>, key: Ue -> K, valid: K -> bool, id: UeId, u: Ue, to: K)
    requires Covered(table, ues, key, valid) && id in ues && key(u) == to
    ensures forall k, j {:trigger Stale(table[to := id], ues[id := u], key, k, j)} :: valid(k) ==>
              (Stale(table[to := id], ues[id := u], key, k, j) <==>
               (j == id && Owns(ues, key, id, k) && k != to) || (Stale(table, ues, key, k, j) && k != to))
  {
  }

  lemma SameKeyStale<K(!new)>(table: map<K, UeId>, ues: map<UeId, Ue>, key: Ue -> K, valid: K -> bool, id: UeId, u: Ue)
    requires Covered(table, ues, key, valid) && id in ues && key(u) == key(ues[id])
    ensures forall k, j {:trigger Stale(table, ues[id := u], key, k, j)} ::
              Stale(table, ues[id := u], key, k, j) <==> Stale(table, ues, key, k, j)
    ensures forall k, j {:trigger Stale((table - {key(u)})[key(u) := id], ues[id := u], key, k, j)} :: valid(k) ==>
              (Stale((table - {key(u)})[key(u) := id], ues[id := u], key, k, j) <==> Stale(table, ues, key, k, j))
  {
  }

  /** What becomes of stale IMSI entries in a step: those it leaves behind are added, those it takes over
      go away. */
  ghost predicate StaleFollows(m: Mme, e: Event, m': Mme) {
    forall imsi, id :: ValidImsi(imsi) ==>
      (StaleImsi(m', imsi, id) <==> ShedsImsi(m, e, imsi, id) || (StaleImsi(m, imsi, id) && !ClaimsImsi(m, e, imsi)))
  }

  lemma QuietFollows(m: Mme, e: Event, m': Mme)
    requires SameStale(m, m')
    requires e.EvPdnConnectivity? || !KeyStep(e)
    ensures StaleFollows(m, e, m')
  {
    hide Stale;
  }

  lemma PdnConnectivityIsQuiet(m: Mme, imsi: nat, cid: nat, teid: nat)
    requires IndexOk(m) && TablesSized(m) && PdnConnectivity(m, imsi, cid, teid).Done?
    ensures Quiet(m, PdnConnectivity(m, imsi, cid, teid).mme)
  {
    hide Indexed, B.StartSession;
    assert NamesKept(m, PdnConnectivity(m, imsi, cid, teid).mme);
  }

  lemma AttachIsQuiet(m: Mme, enbId: nat, enbUeId: nat)
    requires IndexOk(m) && Attach(m, enbId, enbUeId).Done?
    ensures Quiet(m, Attach(m, enbId, enbUeId).mme)
  {
    hide Indexed, Covered;
    if m.generator == INVALID_UE_ID {
      assert NamesKept(m, Attach(m, enbId, enbUeId).mme);
    } else {
      assert NamesAdded(m, Attach(m, enbId, enbUeId).mme, m.generator);
    }
  }

  lemma ClearFollows(m: Mme, id: UeId)
    requires IndexOk(m)
    ensures StaleFollows(m, EvClearIdentities(id), ClearIdentities(m, id))
  {
    hide Indexed, Covered, Stale;
    if id in m.ues {
      var v := m.ues[id].(imsi := INVALID_IMSI, guti := CLEARED_GUTI);
      ClearedStale(m.byImsi, m.ues, ImsiOf, ValidImsi, id, v);
    }
  }

  lemma SetImsiFollows(m: Mme, id: UeId, imsi: nat)
    requires IndexOk(m)
    ensures StaleFollows(m, EvSetImsi(id, imsi), SetValidImsi(m, id, imsi))
  {
    hide Indexed, Covered, Stale;
    if id in m.ues {
      var v, m' := m.ues[id].(imsi := imsi), SetValidImsi(m, id, imsi);
      assert m'.byImsi == m.byImsi[imsi := id] && m'.byGuti == m.byGuti && m'.ues == m.ues[id := v];
      hide SetValidImsi;
      OverwrittenStale(m.byImsi, m.ues, ImsiOf, ValidImsi, id, v, imsi);
    }
  }

  lemma NewGutiFollows(m: Mme, id: UeId, guti: Guti)
    requires IndexOk(m)
    ensures StaleFollows(m, EvNewGuti(id, guti), NewGuti(m, id, guti))
  {
    hide Indexed, Covered, Stale;
    if id in m.ues {
      var u, m' := m.ues[id], NewGuti(m, id, guti);
      assert m'.ues == m.ues[id := u.(guti := guti)] && m'.byImsi == (m.byImsi - {u.imsi})[u.imsi := id];
      hide NewGuti;
      SameKeyStale(m.byImsi, m.ues, ImsiOf, ValidImsi, id, u.(guti := guti));
    }
  }

  /** The context and the tables of names after a UE has come back. */
  lemma ReconnectNames(m: Mme, u: Ue, enbId: nat, enbUeId: nat, guti: Guti) returns (v: Ue)
    requires u.id in m.ues && m.ues[u.id] == u
    ensures var m' := Reconnect(m, u, enbId, enbUeId, guti);
            && m'.ues == m.ues[u.id := v]
            && m'.byImsi == (m.byImsi - {u.imsi})[u.imsi := u.id]
            && m'.byGuti == (if SameGutiButMnc(guti, u.guti) then m.byGuti else (m.byGuti - {u.guti})[guti := u.id])
            && v.imsi == u.imsi
            && v.guti == if SameGutiButMnc(guti, u.guti) then u.guti else guti
  {
    hide EnbKey.Pack;
    v := Reconnect(m, u, enbId, enbUeId, guti).ues[u.id];
  }

  lemma ReconnectFollows(m: Mme, enbId: nat, enbUeId: nat, guti: Guti)
    requires IndexOk(m) && LookupGuti(m, guti).Some?
    ensures StaleFollows(m, EvInitialUe(enbId, enbUeId, Some(guti)), Reconnect(m, LookupGuti(m, guti).value, enbId, enbUeId, guti))
  {
    hide Indexed, Covered, Stale, Reconnect;
    var u := LookupGuti(m, guti).value;
    var v := ReconnectNames(m, u, enbId, enbUeId, guti);
    SameKeyStale(m.byImsi, m.ues, ImsiOf, ValidImsi, u.id, v);
  }

  lemma AttachFollows(m: Mme, e: Event, m': Mme)
    requires SameStale(m, m') && e.EvInitialUe? && (e.served.Some? ==> LookupGuti(m, e.served.value).None?)
    ensures StaleFollows(m, e, m')
  {
    hide Stale;
  }

  lemma InitialUeFollows(m: Mme, enbId: nat, enbUeId: nat, served: Option<Guti>)
    requires IndexOk(m) && InitialUe(m, enbId, enbUeId, served).Done?
    ensures StaleFollows(m, EvInitialUe(enbId, enbUeId, served), InitialUe(m, enbId, enbUeId, served).mme)
  {
    hide Reconnect, Attach, Stale, Indexed, Covered, IdsOk, Quiet, StaleFollows, SameStale;
    var e := EvInitialUe(enbId, enbUeId, served);
    if served.Some? && LookupGuti(m, served.value).Some? {
      ReconnectFollows(m, enbId, enbUeId, served.value);
    } else {
      var m' := Attach(m, enbId, enbUeId).mme;
      AttachIsQuiet(m, enbId, enbUeId);
      QuietKeepsStale(m, m');
      AttachFollows(m, e, m');
    }
  }

  /** Stale entries come and go in these steps and in no others. */
  lemma StepFollows(m: Mme, e: Event)
    requires IndexOk(m) && TablesSized(m) && Step(m, e).Done?
    ensures StaleFollows(m, e, Step(m, e).mme)
  {
    hide Indexed, Covered, IdsOk, TablesSized, StaleFollows, Quiet, SameStale;
    if KeyStep(e) {
      hide InitialUe, SetValidImsi, ClearIdentities, NewGuti, PdnConnectivity;
      match e {
        case EvInitialUe(enbId, enbUeId, served) => InitialUeFollows(m, enbId, enbUeId, served);
        case EvSetImsi(id, imsi) => SetImsiFollows(m, id, imsi);
        case EvClearIdentities(id) => ClearFollows(m, id);
        case EvNewGuti(id, guti) => NewGutiFollows(m, id, guti);
        case EvPdnConnectivity(imsi, cid, teid) =>
          PdnConnectivityIsQuiet(m, imsi, cid, teid);
          QuietKeepsStale(m, Step(m, e).mme);
          QuietFollows(m, e, Step(m, e).mme);
      }
    } else {
      hide Step, Target, Put, Drop;
      MovesAreQuiet(m, e);
      QuietKeepsStale(m, Step(m, e).mme);
      QuietFollows(m, e, Step(m, e).mme);
    }
  }

  lemma MovesAreQuiet(m: Mme, e: Event)
    requires IdsOk(m.ues) && TablesSized(m) && !KeyStep(e) && Step(m, e).Done?
    ensures Quiet(m, Step(m, e).mme)
  {
    hide Step, Target, Put, Drop, IdsOk, TablesSized, Quiet;
    var m' := Step(m, e).mme;
    StepMoves(m, e);
    if Put(m, m', Target(m, e), !ProcedureStep(e)) {
      PutIsQuiet(m, m', Target(m, e), !ProcedureStep(e));
    } else {
      DropIsQuiet(m, m', Target(m, e));
    }
  }

  // ---------------------------------------------------------------- runs

  /** Some step before state i took the IMSI from context id behind the back of the index, and no step
      since has entered a context under it. */
  ghost predicate ImsiLeftBehind(states: seq<Mme>, events: seq<Event>, i: nat, imsi: nat, id: UeId)
    requires i < |states| == |events| + 1
  {
    exists j :: 0 <= j < i && ImsiShedAt(states, events, j, i, imsi, id)
  }

  ghost predicate ImsiShedAt(states: seq<Mme>, events: seq<Event>, j: nat, i: nat, imsi: nat, id: UeId)
    requires j < i < |states| == |events| + 1
  {
    && ShedsImsi(states[j], events[j], imsi, id)
    && (forall l :: j < l < i ==> !ClaimsImsi(states[l], events[l], imsi))
  }

  lemma ImsiLeftStep(states: seq<Mme>, events: seq<Event>, i: nat, imsi: nat, id: UeId)
    requires i + 1 < |states| == |events| + 1
    ensures ImsiLeftBehind(states, events, i + 1, imsi, id) <==>
            ShedsImsi(states[i], events[i], imsi, id) ||
            (ImsiLeftBehind(states, events, i, imsi, id) && !ClaimsImsi(states[i], events[i], imsi))
  {
    hide ShedsImsi, ClaimsImsi;
    if ShedsImsi(states[i], events[i], imsi, id) {
      assert ImsiShedAt(states, events, i, i + 1, imsi, id);
    }
    if ImsiLeftBehind(states, events, i, imsi, id) && !ClaimsImsi(states[i], events[i], imsi) {
      var j :| 0 <= j < i && ImsiShedAt(states, events, j, i, imsi, id);
      assert ImsiShedAt(states, events, j, i + 1, imsi, id);
    }
    if ImsiLeftBehind(states, events, i + 1, imsi, id) && !ShedsImsi(states[i], events[i], imsi, id) {
      var j :| 0 <= j < i + 1 && ImsiShedAt(states, events, j, i + 1, imsi, id);
      assert ImsiShedAt(states, events, j, i, imsi, id);
    }
  }

  lemma NoneLeftAtStart(periodicTau: bool, states: seq<Mme>, events: seq<Event>, imsi: nat, id: UeId)
    requires |states| == |events| + 1 && states[0] == Start(periodicTau)
    ensures !StaleImsi(states[0], imsi, id) && !ImsiLeftBehind(states, events, 0, imsi, id)
  {
  }

  lemma RunFollows(periodicTau: bool, states: seq<Mme>, events: seq<Event>, i: nat)
    requires IsRun(periodicTau, states, events) && i < |events|
    ensures StaleFollows(states[i], events[i], states[i + 1])
    ensures GutiEntriesFollow(states[i], events[i], states[i + 1])
    ensures GutisFound(states[i]) ==> (GutisFound(states[i + 1]) <==> GivenWell(states[i], events[i]))
  {
    hide Step, TablesSized, Admissible, Start, StaleFollows, GutiEntriesFollow, UesOk, StatsOk, HistoryOk, IndexOk, GutisFound;
    RunInv(periodicTau, states, events, i);
    RunStep(periodicTau, states, events, i);
    StepFollows(states[i], events[i]);
    StepEntries(states[i], events[i]);
    StepFound(states[i], events[i]);
  }

  /** In every run a valid IMSI leads to a context that does not have it if and only if it was taken from
      that context behind the back of the index and has not been entered again since. */
  lemma {:induction false} RunStaleIff(periodicTau: bool, states: seq<Mme>, events: seq<Event>, i: nat, imsi: nat, id: UeId)
    requires IsRun(periodicTau, states, events) && i < |states| && ValidImsi(imsi)
    ensures StaleImsi(states[i], imsi, id) <==> ImsiLeftBehind(states, events, i, imsi, id)
  {
    hide ImsiLeftBehind, Stale, Step, TablesSized, Admissible, Start, Inv, ShedsImsi, ClaimsImsi, GutiEntriesFollow, GutisFound;
    if i > 0 {
      RunStaleIff(periodicTau, states, events, i - 1, imsi, id);
      RunFollows(periodicTau, states, events, i - 1);
      ImsiLeftStep(states, events, i - 1, imsi, id);
    } else {
      NoneLeftAtStart(periodicTau, states, events, imsi, id);
    }
  }

  // ---------------------------------------------------------------- GUTI entries

  /** The entries of the GUTI index after a step: the one it makes, and all others but those it takes out. */
  ghost predicate GutiEntriesFollow(m: Mme, e: Event, m': Mme) {
    forall guti: Guti, id: UeId :: ValidGuti(guti) ==>
      (Leads(m'.byGuti, guti, id) <==>
       GutiEntry(m, e) == Some((guti, id)) || (Leads(m.byGuti, guti, id) && !TouchesGuti(m, e, m', guti)))
  }

  lemma PutEntries(m: Mme, e: Event, m': Mme)
    requires m'.byGuti == m.byGuti && GutiEntry(m, e).None? && (Target(m, e) in m.ues ==> Target(m, e) in m'.ues)
    ensures GutiEntriesFollow(m, e, m')
  {
    hide GutiEntry, Target;
  }

  lemma DropEntries(m: Mme, e: Event, m': Mme)
    requires Drop(m, m', Target(m, e)) && GutiEntry(m, e).None?
    ensures GutiEntriesFollow(m, e, m')
  {
    hide GutiEntry, Target;
  }

  lemma RekeyEntries(m: Mme, e: Event, m': Mme, u: Ue, guti: Guti)
    requires Target(m, e) == u.id && u.id in m.ues && m.ues[u.id] == u && u.id in m'.ues
    requires GutiEntry(m, e) == if SameGutiButMnc(guti, u.guti) then None else Some((guti, u.id))
    requires m'.byGuti == if SameGutiButMnc(guti, u.guti) then m.byGuti else (m.byGuti - {u.guti})[guti := u.id]
    ensures GutiEntriesFollow(m, e, m')
  {
    hide GutiEntry, Target, SameGutiButMnc;
  }

  lemma AttachEntries(m: Mme, e: Event)
    requires IdsOk(m.ues) && e.EvInitialUe? && GutiEntry(m, e).None? && Target(m, e) == m.generator
    requires Attach(m, e.enbId, e.enbUeId).Done?
    ensures GutiEntriesFollow(m, e, Attach(m, e.enbId, e.enbUeId).mme)
  {
    hide GutiEntry, Target, EnbKey.Pack, B.EmptyTables;
  }

  lemma InitialUeEntries(m: Mme, enbId: nat, enbUeId: nat, served: Option<Guti>)
    requires IdsOk(m.ues) && InitialUe(m, enbId, enbUeId, served).Done?
    ensures GutiEntriesFollow(m, EvInitialUe(enbId, enbUeId, served), InitialUe(m, enbId, enbUeId, served).mme)
  {
    hide Reconnect, Attach, GutiEntriesFollow;
    var e := EvInitialUe(enbId, enbUeId, served);
    if served.Some? && LookupGuti(m, served.value).Some? {
      var u := LookupGuti(m, served.value).value;
      var v := ReconnectNames(m, u, enbId, enbUeId, served.value);
      RekeyEntries(m, e, Reconnect(m, u, enbId, enbUeId, served.value), u, served.value);
    } else {
      AttachEntries(m, e);
    }
  }

  lemma NewGutiEntries(m: Mme, id: UeId, guti: Guti)
    requires IdsOk(m.ues)
    ensures GutiEntriesFollow(m, EvNewGuti(id, guti), NewGuti(m, id, guti))
  {
    hide GutiEntriesFollow;
    if id in m.ues {
      RekeyEntries(m, EvNewGuti(id, guti), NewGuti(m, id, guti), m.ues[id], guti);
    } else {
      PutEntries(m, EvNewGuti(id, guti), NewGuti(m, id, guti));
    }
  }

  lemma NamesEntries(m: Mme, id: UeId, imsi: nat)
    requires IdsOk(m.ues)
    ensures GutiEntriesFollow(m, EvSetImsi(id, imsi), SetValidImsi(m, id, imsi))
    ensures GutiEntriesFollow(m, EvClearIdentities(id), ClearIdentities(m, id))
  {
    hide GutiEntriesFollow;
    PutEntries(m, EvSetImsi(id, imsi), SetValidImsi(m, id, imsi));
    PutEntries(m, EvClearIdentities(id), ClearIdentities(m, id));
  }

  lemma PdnConnectivityEntries(m: Mme, imsi: nat, cid: nat, teid: nat)
    requires IdsOk(m.ues) && TablesSized(m) && PdnConnectivity(m, imsi, cid, teid).Done?
    ensures GutiEntriesFollow(m, EvPdnConnectivity(imsi, cid, teid), PdnConnectivity(m, imsi, cid, teid).mme)
  {
    hide GutiEntriesFollow, B.StartSession;
    PutEntries(m, EvPdnConnectivity(imsi, cid, teid), PdnConnectivity(m, imsi, cid, teid).mme);
  }

  /** The GUTI index changes in these steps and in no others. */
  lemma StepEntries(m: Mme, e: Event)
    requires IndexOk(m) && TablesSized(m) && Step(m, e).Done?
    ensures GutiEntriesFollow(m, e, Step(m, e).mme)
  {
    hide Indexed, Covered, IdsOk, TablesSized, GutiEntriesFollow;
    if KeyStep(e) {
      hide InitialUe, SetValidImsi, ClearIdentities, NewGuti, PdnConnectivity;
      match e {
        case EvInitialUe(enbId, enbUeId, served) => InitialUeEntries(m, enbId, enbUeId, served);
        case EvSetImsi(id, imsi) => NamesEntries(m, id, imsi);
        case EvClearIdentities(id) => NamesEntries(m, id, INVALID_IMSI);
        case EvNewGuti(id, guti) => NewGutiEntries(m, id, guti);
        case EvPdnConnectivity(imsi, cid, teid) => PdnConnectivityEntries(m, imsi, cid, teid);
      }
    } else {
      hide Step, Target, Grows;
      StepMoves(m, e);
      if Drop(m, Step(m, e).mme, Target(m, e)) {
        DropEntries(m, e, Step(m, e).mme);
      } else {
        PutEntries(m, e, Step(m, e).mme);
      }
    }
  }

  /** Some step before state i has entered context id under the GUTI, and no step since has entered
      another one under it or taken the entry out. */
  ghost predicate GutiEntered(states: seq<Mme>, events: seq<Event>, i: nat, guti: Guti, id: UeId)
    requires i < |states| == |events| + 1
  {
    exists j :: 0 <= j < i && GutiEnteredAt(states, events, j, i, guti, id)
  }

  ghost predicate GutiEnteredAt(states: seq<Mme>, events: seq<Event>, j: nat, i: nat, guti: Guti, id: UeId)
    requires j < i < |states| == |events| + 1
  {
    && GutiEntry(states[j], events[j]) == Some((guti, id))
    && (forall l :: j < l < i ==> !TouchesGuti(states[l], events[l], states[l + 1], guti))
  }

  lemma GutiEnteredStep(states: seq<Mme>, events: seq<Event>, i: nat, guti: Guti, id: UeId)
    requires i + 1 < |states| == |events| + 1
    ensures GutiEntered(states, events, i + 1, guti, id) <==>
            GutiEntry(states[i], events[i]) == Some((guti, id)) ||
            (GutiEntered(states, events, i, guti, id) && !TouchesGuti(states[i], events[i], states[i + 1], guti))
  {
    hide GutiEntry, TouchesGuti;
    if GutiEntry(states[i], events[i]) == Some((guti, id)) {
      assert GutiEnteredAt(states, events, i, i + 1, guti, id);
    }
    if GutiEntered(states, events, i, guti, id) && !TouchesGuti(states[i], events[i], states[i + 1], guti) {
      var j :| 0 <= j < i && GutiEnteredAt(states, events, j, i, guti, id);
      assert GutiEnteredAt(states, events, j, i + 1, guti, id);
    }
    if GutiEntered(states, events, i + 1, guti, id) && GutiEntry(states[i], events[i]) != Some((guti, id)) {
      var j :| 0 <= j < i + 1 && GutiEnteredAt(states, events, j, i + 1, guti, id);
      assert GutiEnteredAt(states, events, j, i, guti, id);
    }
  }

  /** In every run a valid GUTI leads to a context if and only if the context was entered under it and
      the entry has neither been replaced nor taken out since. */
  lemma {:induction false} RunGutiEntryIff(periodicTau: bool, states: seq<Mme>, events: seq<Event>, i: nat, guti: Guti, id: UeId)
    requires IsRun(periodicTau, states, events) && i < |states| && ValidGuti(guti)
    ensures Leads(states[i].byGuti, guti, id) <==> GutiEntered(states, events, i, guti, id)
  {
    hide GutiEntered, Step, TablesSized, Admissible, Inv, GutiEntry, TouchesGuti, StaleFollows, GutisFound;
    if i > 0 {
      RunGutiEntryIff(periodicTau, states, events, i - 1, guti, id);
      RunFollows(periodicTau, states, events, i - 1);
      GutiEnteredStep(states, events, i - 1, guti, id);
    } else {
      NothingEntered(states, events, guti, id);
    }
  }

  lemma NothingEntered(states: seq<Mme>, events: seq<Event>, guti: Guti, id: UeId)
    requires |states| == |events| + 1
    ensures !GutiEntered(states, events, 0, guti, id)
  {
  }

  // ---------------------------------------------------------------- owners of GUTIs

  /** If the step gives a GUTI out, it does so well. */
  ghost predicate GivenWell(m: Mme, e: Event) {
    e.EvNewGuti? ==> GutiGivenWell(m, e.id, e.guti)
  }

  lemma QuietKeepsFound(m: Mme, m': Mme)
    requires GutisFound(m) && Quiet(m, m')
    ensures GutisFound(m')
  {
  }

  lemma ReconnectKeepsFound(m: Mme, enbId: nat, enbUeId: nat, guti: Guti)
    requires IdsOk(m.ues) && GutisFound(m) && LookupGuti(m, guti).Some?
    ensures GutisFound(Reconnect(m, LookupGuti(m, guti).value, enbId, enbUeId, guti))
  {
    hide Reconnect, Covered, Unowned;
    var u := LookupGuti(m, guti).value;
    var v := ReconnectNames(m, u, enbId, enbUeId, guti);
    if SameGutiButMnc(guti, u.guti) {
      SameKey(m.byGuti, m.ues, GutiOf, ValidGuti, u.id, v);
    } else {
      if ValidGuti(guti) {
        NobodyElseHas(m, guti);
      }
      Rekey(m.byGuti, m.ues, GutiOf, ValidGuti, u.id, v);
    }
  }

  /** Also where a GUTI leads to a context that has another one, nobody else has it. */
  lemma NobodyElseHas(m: Mme, guti: Guti)
    requires GutisFound(m) && guti in m.byGuti && ValidGuti(guti)
    ensures Unowned(m.ues, GutiOf, m.byGuti[guti], guti)
  {
  }

  lemma InitialUeKeepsFound(m: Mme, enbId: nat, enbUeId: nat, served: Option<Guti>)
    requires IndexOk(m) && GutisFound(m) && InitialUe(m, enbId, enbUeId, served).Done?
    ensures GutisFound(InitialUe(m, enbId, enbUeId, served).mme)
  {
    hide Reconnect, Attach, Indexed, Covered, Quiet;
    if served.Some? && LookupGuti(m, served.value).Some? {
      ReconnectKeepsFound(m, enbId, enbUeId, served.value);
    } else {
      AttachIsQuiet(m, enbId, enbUeId);
      QuietKeepsFound(m, Attach(m, enbId, enbUeId).mme);
    }
  }

  lemma NamesKeepFound(m: Mme, id: UeId, imsi: nat)
    requires IdsOk(m.ues) && GutisFound(m)
    ensures GutisFound(SetValidImsi(m, id, imsi)) && GutisFound(ClearIdentities(m, id))
  {
    hide Covered;
    if id in m.ues {
      var v := m.ues[id].(imsi := imsi);
      assert SetValidImsi(m, id, imsi).ues == m.ues[id := v] && SetValidImsi(m, id, imsi).byGuti == m.byGuti;
      SameKey(m.byGuti, m.ues, GutiOf, ValidGuti, id, v);
      ClearKey(m.byGuti, m.ues, GutiOf, ValidGuti, id, m.ues[id].(imsi := INVALID_IMSI, guti := CLEARED_GUTI));
    }
  }

  /** The only step that can lose the owner of a GUTI is giving one out. */
  lemma StepFound(m: Mme, e: Event)
    requires IndexOk(m) && TablesSized(m) && Step(m, e).Done?
    ensures GutisFound(m) ==> (GutisFound(Step(m, e).mme) <==> GivenWell(m, e))
  {
    hide Indexed, Covered, IdsOk, TablesSized, Quiet, GutiGivenWell;
    if GutisFound(m) {
      if KeyStep(e) {
        hide InitialUe, SetValidImsi, ClearIdentities, NewGuti, PdnConnectivity;
        match e {
          case EvInitialUe(enbId, enbUeId, served) => InitialUeKeepsFound(m, enbId, enbUeId, served);
          case EvSetImsi(id, imsi) => NamesKeepFound(m, id, imsi);
          case EvClearIdentities(id) => NamesKeepFound(m, id, INVALID_IMSI);
          case EvNewGuti(id, guti) => NewGutiFoundIff(m, id, guti);
          case EvPdnConnectivity(imsi, cid, teid) =>
            PdnConnectivityIsQuiet(m, imsi, cid, teid);
            QuietKeepsFound(m, Step(m, e).mme);
        }
      } else {
        hide Step, Target, Put, Drop;
        MovesAreQuiet(m, e);
        QuietKeepsFound(m, Step(m, e).mme);
      }
    }
  }

  lemma NewGutiFoundIff(m: Mme, id: UeId, guti: Guti)
    requires IndexOk(m) && GutisFound(m)
    ensures GutisFound(NewGuti(m, id, guti)) <==> GutiGivenWell(m, id, guti)
  {
    hide Indexed, Covered;
    if id in m.ues {
      NewGutiKeepsFoundIff(m, id, guti);
    }
  }

  /** In a run every owner of a GUTI has been found by it so far if and only if every GUTI was given out
      well: one that differs from the last in more than the MNC to a UE when no other had it, and one
      that does not only where the index led to the UE already. */
  lemma {:induction false} RunGutisFoundIff(periodicTau: bool, states: seq<Mme>, events: seq<Event>, i: nat)
    requires IsRun(periodicTau, states, events) && i < |states|
    ensures (forall k :: 0 <= k <= i ==> GutisFound(states[k])) <==> (forall k :: 0 <= k < i ==> GivenWell(states[k], events[k]))
  {
    hide Step, TablesSized, Admissible, Inv, GivenWell, StaleFollows, GutiEntriesFollow, Covered;
    if i > 0 {
      RunGutisFoundIff(periodicTau, states, events, i - 1);
      RunFollows(periodicTau, states, events, i - 1);
    } else {
      StartFound(periodicTau);
    }
  }

  lemma StartFound(periodicTau: bool)
    ensures GutisFound(Start(periodicTau))
  {
  }
}
