/** Every handler keeps the invariant of the MME. */
module HandlerProofs {
  import opened Common
  import opened UeModel
  import opened Registry
  import opened Handlers
  import opened Invariant
  import EnbKey
  import B = Bearers
  import BP = BearerProofs

  // ---------------------------------------------------------------- initial UE message

  lemma ReconnectKeeps(m: Mme, id: UeId, enbId: nat, enbUeId: nat, guti: Guti, w: Watch)
    requires Inv(m, w) && id in m.ues
    requires enbId < UINT32 && enbUeId <= EnbKey.ENB_UE_S1AP_ID_MASK
    requires Unowned(m.ues, EnbKeyOf, id, EnbKey.Pack(enbId, enbUeId))
    ensures Inv(Reconnect(m, m.ues[id], enbId, enbUeId, guti), w)
  {
    hide Inv, Unowned, EnbKey.Pack, EnbKey.UnpackUeId, B.TablesOk;
    InvUe(m, id, w);
    ForgetEnb(m, id, enbUeId, w);
    var u := m.ues[id];
    var key := EnbKey.Pack(enbId, enbUeId);
    var m1 := Forgotten(m, u, enbUeId);
    var u1 := m1.ues[id];
    ForgottenFresh(m, id, enbUeId, key, w);
    EnbKey.PackUnpacks(enbId, enbUeId);
    CollKeysKeeps(m1, id, key, u.imsi, u.teid, guti, w);
    var m2 := CollKeys(m1, u1, key, u.imsi, u.teid, guti);
    InvUe(m2, id, w);
    PutKeeps(m2, Reconnect(m, u, enbId, enbUeId, guti), ResetTimers(m2.ues[id]), w);
  }

  lemma ForgottenFresh(m: Mme, id: UeId, enbUeId: nat, key: nat, w: Watch)
    requires Inv(m, w) && id in m.ues && m.ues[id].id == id && Unowned(m.ues, EnbKeyOf, id, key)
    ensures FreshKeys(Forgotten(m, m.ues[id], enbUeId).ues, id, key, m.ues[id].imsi, m.ues[id].teid)
  {
    hide Inv, Unowned;
    OwnKeysFresh(m, id, w);
    var v := m.ues[id].(enbKey := INVALID_ENB_KEY, enbUeId := enbUeId);
    StillUnowned(m.ues, EnbKeyOf, id, v, key);
    StillUnowned(m.ues, ImsiOf, id, v, v.imsi);
    StillUnowned(m.ues, TeidOf, id, v, v.teid);
  }

  lemma StillUnowned(ues: map<UeId, Ue>, key: Ue -> nat, id: UeId, v: Ue, k: nat)
    requires id in ues
    ensures Unowned(ues, key, id, k) ==> Unowned(ues[id := v], key, id, k)
  {
  }

  lemma InvUe(m: Mme, id: UeId, w: Watch)
    requires Inv(m, w) && id in m.ues
    ensures UeOk(m.ues[id]) && m.ues[id].id == id && B.WellSized(m.ues[id].tables)
  {
    hide Indexed, Covered, StatsOk, HistoryOk, TeidOk, FreedOk;
  }

  lemma ForgetEnb(m: Mme, id: UeId, enbUeId: nat, w: Watch)
    requires Inv(m, w) && id in m.ues && m.ues[id].id == id
    ensures Inv(Forgotten(m, m.ues[id], enbUeId), w)
  {
    hide Indexed, Covered, UesOk, StatsOk, HistoryOk, TeidOk, FreedOk, B.TablesOk;
    InvUe(m, id, w);
    AllCovered(m);
    var u := m.ues[id];
    var v := u.(enbKey := INVALID_ENB_KEY, enbUeId := enbUeId);
    if ValidEnbKey(u.enbKey) {
      GiveUpKey(m.byEnb, m.ues, EnbKeyOf, ValidEnbKey, id, v);
    } else {
      SameKey(m.byEnb, m.ues, EnbKeyOf, ValidEnbKey, id, v);
    }
    SameKey(m.byImsi, m.ues, ImsiOf, ValidImsi, id, v);
    SameKey(m.byTeid, m.ues, TeidOf, ValidTeid, id, v);
    UpdateKeeps(m, Forgotten(m, u, enbUeId), v, w);
  }

  lemma AttachKeeps(m: Mme, enbId: nat, enbUeId: nat, w: Watch)
    requires Inv(m, w) && enbId < UINT32 && enbUeId <= EnbKey.ENB_UE_S1AP_ID_MASK
    ensures Attach(m, enbId, enbUeId).Done? ==> Inv(Attach(m, enbId, enbUeId).mme, w)
  {
    hide Inv, B.TablesOk, EnbKey.Pack, EnbKey.UnpackUeId;
    if m.generator == INVALID_UE_ID {
      SpentGeneratorKeeps(m, w);
    } else {
      EnbKey.PackUnpacks(enbId, enbUeId);
      BP.EmptyTablesOk();
      GeneratorFits(m, w);
      var v := NewUe(m.created, m.generator).(enbUeId := enbUeId, enbKey := EnbKey.Pack(enbId, enbUeId));
      if InsertOk(m, v) {
        InsertKeeps(m, Attach(m, enbId, enbUeId).mme, v, w);
      }
    }
  }

  lemma GeneratorFits(m: Mme, w: Watch)
    requires Inv(m, w)
    ensures m.generator < UINT32
  {
    hide IndexOk, UesOk, StatsOk;
  }

  lemma ThrownAwayIndex(m: Mme, m': Mme)
    requires IndexOk(m)
    requires m' == m.(byEnb := m.byEnb - {INVALID_ENB_KEY}, byGuti := m.byGuti - {CLEARED_GUTI}, freed := m'.freed,
                      armed := m'.armed, created := m'.created, generator := m'.generator)
    ensures IndexOk(m')
  {
    hide Indexed, Covered, IdsOk;
    AllCovered(m);
    DropInvalid(m.byEnb, m.ues, EnbKeyOf, ValidEnbKey, INVALID_ENB_KEY);
  }

  lemma NoContextZero(m: Mme)
    requires IndexOk(m)
    ensures m.ues - {INVALID_UE_ID} == m.ues
  {
    hide Indexed, Covered;
  }

  /** When the generator is spent the context is thrown away before it enters any table. */
  lemma SpentGeneratorKeeps(m: Mme, w: Watch)
    requires Inv(m, w) && m.generator == INVALID_UE_ID
    ensures Inv(Remove(m.(generator := (m.generator + 1) % UINT32, created := m.created + 1), NewUe(m.created, m.generator)), w)
  {
    hide IndexOk, UesOk, StatsOk, HistoryOk, FreedOk;
    var u := NewUe(m.created, m.generator);
    NoContextZero(m);
    AddFreed(m.freed, u, w);
    ThrownAwayIndex(m, Remove(m.(generator := (m.generator + 1) % UINT32, created := m.created + 1), u));
    ThrownAwayHistory(m.ues, m.freed, m.created, m.generator, u);
    ThrownAwayStats(m.ues, m.freed, m.stats.connected, m.stats.attached, w.exact, u);
  }

  lemma ThrownAwayHistory(ues: map<UeId, Ue>, freed: seq<Ue>, created: nat, generator: UeId, u: Ue)
    requires HistoryOk(ues, freed, created, generator) && u.serial == created && u.teid == NO_TEID
    ensures HistoryOk(ues, freed + [u], created + 1, (generator + 1) % UINT32)
  {
    NextGenerator(created);
  }

  lemma ThrownAwayStats(ues: map<UeId, Ue>, freed: seq<Ue>, connected: nat, attached: nat, exact: bool, u: Ue)
    requires StatsOk(ues, freed, connected, attached, exact) && u.mm == Unregistered
    ensures StatsOk(ues, freed + [u], connected, attached, exact)
  {
    assert (freed + [u])[..|freed|] == freed;
  }

  lemma InitialUeKeeps(m: Mme, enbId: nat, enbUeId: nat, served: Option<Guti>, w: Watch)
    requires Inv(m, w) && enbId < UINT32 && enbUeId <= EnbKey.ENB_UE_S1AP_ID_MASK
    requires served.Some? && LookupGuti(m, served.value).Some? ==>
               Unowned(m.ues, EnbKeyOf, LookupGuti(m, served.value).value.id, EnbKey.Pack(enbId, enbUeId))
    ensures InitialUe(m, enbId, enbUeId, served).Done? ==> Inv(InitialUe(m, enbId, enbUeId, served).mme, w)
  {
    var found := if served.Some? then LookupGuti(m, served.value) else None;
    if found.Some? {
      InvUe(m, m.byGuti[served.value], w);
      ReconnectKeeps(m, found.value.id, enbId, enbUeId, served.value, w);
    } else {
      AttachKeeps(m, enbId, enbUeId, w);
    }
  }

  // ---------------------------------------------------------------- NAS notifications

  /** The IMSI belongs to no other UE. */
  ghost predicate ImsiMayBeSet(m: Mme, id: UeId, imsi: nat) {
    ValidImsi(imsi) ==> Unowned(m.ues, ImsiOf, id, imsi)
  }

  /** The IMSI, if there is one already, is not replaced by a different one. */
  ghost predicate ImsiStays(m: Mme, id: UeId, imsi: nat) {
    id in m.ues && ValidImsi(m.ues[id].imsi) ==> m.ues[id].imsi == imsi
  }

  /** Setting an IMSI keeps all contexts findable if and only if no other UE has it. It keeps the
      indexes in agreement if and only if, besides, it does not replace a different one: the field is
      written before the registry is told, so the entry of a replaced IMSI stays behind. */
  lemma SetValidImsiKeepsIndexIff(m: Mme, id: UeId, imsi: nat)
    requires IndexOk(m) && id in m.ues
    ensures IndexOk(SetValidImsi(m, id, imsi)) <==> ImsiMayBeSet(m, id, imsi)
    ensures IndexExact(m) ==>
              (IndexExact(SetValidImsi(m, id, imsi)) <==> ImsiMayBeSet(m, id, imsi) && ImsiStays(m, id, imsi))
  {
    hide Indexed, Covered, Unowned;
    AllCovered(m);
    var u := m.ues[id];
    var v := u.(imsi := imsi);
    var m' := SetValidImsi(m, id, imsi);
    assert m'.byImsi == m.byImsi[imsi := id] && m'.ues == m.ues[id := v];
    OverwriteKey(m.byImsi, m.ues, ImsiOf, ValidImsi, id, v);
    SameKey(m.byTeid, m.ues, TeidOf, ValidTeid, id, v);
    Rekey(m.byTeid, m.ues, TeidOf, ValidTeid, id, v);
    SameKey(m.byEnb, m.ues, EnbKeyOf, ValidEnbKey, id, v);
    if GutisFound(m) {
      SameKey(m.byGuti, m.ues, GutiOf, ValidGuti, id, v);
    }
  }

  /** When the NAS detach procedure clears the identities of a context, all contexts stay findable;
      the indexes stay in agreement if and only if there was nothing to clear. */
  lemma ClearIdentitiesKeepsIndexIff(m: Mme, id: UeId)
    requires IndexOk(m) && id in m.ues
    ensures IndexOk(ClearIdentities(m, id))
    ensures IndexExact(m) ==>
              (IndexExact(ClearIdentities(m, id)) <==> !ValidImsi(m.ues[id].imsi) && !ValidGuti(m.ues[id].guti))
  {
    hide Indexed, Covered, Unowned;
    AllCovered(m);
    var v := m.ues[id].(imsi := INVALID_IMSI, guti := CLEARED_GUTI);
    ClearKey(m.byImsi, m.ues, ImsiOf, ValidImsi, id, v);
    if GutisFound(m) {
      ClearKey(m.byGuti, m.ues, GutiOf, ValidGuti, id, v);
    }
    SameKey(m.byTeid, m.ues, TeidOf, ValidTeid, id, v);
    SameKey(m.byEnb, m.ues, EnbKeyOf, ValidEnbKey, id, v);
  }

  /** NAS gives a UE an IMSI that no other UE has. */
  lemma SetValidImsiKeeps(m: Mme, id: UeId, imsi: nat, w: Watch)
    requires Inv(m, w) && ImsiMayBeSet(m, id, imsi)
    ensures Inv(SetValidImsi(m, id, imsi), w)
  {
    hide Indexed, Covered, Unowned, UesOk, StatsOk, HistoryOk, TeidOk, FreedOk, B.TablesOk;
    if id in m.ues {
      InvUe(m, id, w);
      SetValidImsiKeepsIndexIff(m, id, imsi);
      UpdateKeeps(m, SetValidImsi(m, id, imsi), m.ues[id].(imsi := imsi), w);
    }
  }

  lemma ClearIdentitiesKeeps(m: Mme, id: UeId, w: Watch)
    requires Inv(m, w)
    ensures Inv(ClearIdentities(m, id), w)
  {
    hide Indexed, Covered, UesOk, StatsOk, HistoryOk, TeidOk, FreedOk, B.TablesOk;
    if id in m.ues {
      InvUe(m, id, w);
      ClearIdentitiesKeepsIndexIff(m, id);
      UpdateKeeps(m, ClearIdentities(m, id), m.ues[id].(imsi := INVALID_IMSI, guti := CLEARED_GUTI), w);
    }
  }

  /** The keys a context has belong to no other. */
  lemma OwnKeysFresh(m: Mme, id: UeId, w: Watch)
    requires Inv(m, w) && id in m.ues
    ensures var u := m.ues[id]; FreshKeys(m.ues, id, u.enbKey, u.imsi, u.teid)
  {
    var u := m.ues[id];
    hide Indexed, Covered, Unowned, UesOk, StatsOk, HistoryOk, TeidOk, FreedOk;
    AllCovered(m);
    SameKey(m.byImsi, m.ues, ImsiOf, ValidImsi, id, u);
    SameKey(m.byTeid, m.ues, TeidOf, ValidTeid, id, u);
    SameKey(m.byEnb, m.ues, EnbKeyOf, ValidEnbKey, id, u);
  }

  lemma NewGutiKeeps(m: Mme, id: UeId, guti: Guti, w: Watch)
    requires Inv(m, w)
    ensures Inv(NewGuti(m, id, guti), w)
  {
    hide Indexed, Covered, Unowned, UesOk, StatsOk, HistoryOk, TeidOk, FreedOk, B.TablesOk;
    if id in m.ues {
      var u := m.ues[id];
      InvUe(m, id, w);
      OwnKeysFresh(m, id, w);
      CollKeysKeepsIndexIffFresh(m, id, u.enbKey, u.imsi, u.teid, guti);
      NewGutiIndex(m, id, guti);
      UpdateKeeps(m, NewGuti(m, id, guti), u.(guti := guti), w);
    }
  }

  lemma NewGutiIndex(m: Mme, id: UeId, guti: Guti)
    requires id in m.ues && m.ues[id].id == id
    requires var u := m.ues[id]; IndexOk(CollKeys(m, u, u.enbKey, u.imsi, u.teid, guti))
    ensures IndexOk(NewGuti(m, id, guti))
    ensures NewGuti(m, id, guti).ues == m.ues[id := m.ues[id].(guti := guti)]
  {
    hide Indexed, Covered, IdsOk;
    var u := m.ues[id];
    var m1 := CollKeys(m, u, u.enbKey, u.imsi, u.teid, guti);
    var v := u.(guti := guti);
    AllCovered(m1);
    SameKey(m1.byImsi, m1.ues, ImsiOf, ValidImsi, id, v);
    SameKey(m1.byTeid, m1.ues, TeidOf, ValidTeid, id, v);
    SameKey(m1.byEnb, m1.ues, EnbKeyOf, ValidEnbKey, id, v);
    IdsAfterPut(m1.ues, id, v);
  }

  lemma IdsAfterPut(ues: map<UeId, Ue>, id: UeId, v: Ue)
    requires IdsOk(ues) && id in ues && v.id == id
    ensures IdsOk(ues[id := v])
  {
  }

  /** A new GUTI leaves everybody findable if and only if no other UE has it and, should it differ from
      the old one in the MNC only, the index leads to the UE under it already: the registry leaves the
      MNC out of its comparison and then does not enter it. */
  lemma NewGutiKeepsFoundIff(m: Mme, id: UeId, guti: Guti)
    requires IndexOk(m) && GutisFound(m) && id in m.ues
    ensures GutisFound(NewGuti(m, id, guti)) <==> GutiGivenWell(m, id, guti)
  {
    hide Indexed;
    var u := m.ues[id];
    var v := u.(guti := guti);
    var m' := NewGuti(m, id, guti);
    assert m'.ues == m.ues[id := v];
    if SameGutiButMnc(guti, u.guti) {
      assert m'.byGuti == m.byGuti;
      PutFoundIff(m.byGuti, m.ues, id, v);
    } else {
      Rekey(m.byGuti, m.ues, GutiOf, ValidGuti, id, v);
    }
  }

  ghost predicate GutiGivenWell(m: Mme, id: UeId, guti: Guti) {
    id in m.ues && ValidGuti(guti) ==>
      if SameGutiButMnc(guti, m.ues[id].guti) then Leads(m.byGuti, guti, id) else Unowned(m.ues, GutiOf, id, guti)
  }

  lemma PutFoundIff(table: map<Guti, UeId>, ues: map<UeId, Ue>, id: UeId, v: Ue)
    requires Covered(table, ues, GutiOf, ValidGuti) && id in ues
    ensures Covered(table, ues[id := v], GutiOf, ValidGuti) <==> (ValidGuti(v.guti) ==> Leads(table, v.guti, id))
  {
    assert ues[id := v][id] == v && GutiOf(v) == v.guti;
    if Covered(table, ues[id := v], GutiOf, ValidGuti) && ValidGuti(v.guti) {
      assert id in ues[id := v] && ValidGuti(GutiOf(ues[id := v][id]));
    }
  }

  lemma EmmStateKeeps(m: Mme, id: UeId, state: MmState, w: Watch)
    requires Inv(m, w)
    ensures Inv(EmmState(m, id, state), w)
  {
    hide Indexed, Covered, UesOk, StatsOk, HistoryOk, TeidOk, FreedOk, B.TablesOk;
    if id in m.ues && m.ues[id].mm != state {
      InvUe(m, id, w);
      PutKeeps(m, EmmState(m, id, state), m.ues[id].(mm := state), w);
    }
  }

  /** A step that only replaces the bearer tables of a context and sends messages. */
  lemma PutTablesKeeps(m: Mme, m': Mme, id: UeId, t: B.Tables, w: Watch)
    requires Inv(m, w) && id in m.ues && B.TablesOk(t)
    requires m' == PutUe(m, m.ues[id].(tables := t)).(sent := m'.sent, stats := m'.stats)
    requires m'.stats == m'.stats.(connected := m.stats.connected, attached := m.stats.attached)
    ensures Inv(m', w)
  {
    hide Indexed, Covered, UesOk, StatsOk, HistoryOk, TeidOk, FreedOk, B.TablesOk;
    InvUe(m, id, w);
    PutKeeps(m, m', m.ues[id].(tables := t), w);
  }

  lemma PdnCreatedKeeps(m: Mme, id: UeId, cid: nat, apn: Option<(nat, B.Arp)>, w: Watch)
    requires Inv(m, w)
    ensures PdnCreated(m, id, cid, apn).Done? ==> Inv(PdnCreated(m, id, cid, apn).mme, w)
  {
    hide Inv, B.TablesOk, B.CreatePdn;
    if id in m.ues && PdnCreated(m, id, cid, apn).Done? {
      InvUe(m, id, w);
      BP.CreatePdnKeeps(m.ues[id].tables, cid, apn);
      PutTablesKeeps(m, PdnCreated(m, id, cid, apn).mme, id, B.CreatePdn(m.ues[id].tables, cid, apn), w);
    }
  }

  lemma BearerCreatedKeeps(m: Mme, id: UeId, cid: nat, ebi: nat, isDefault: bool, qci: nat, w: Watch)
    requires Inv(m, w) && TablesSized(m)
    ensures BearerCreated(m, id, cid, ebi, isDefault, qci).Done? ==> Inv(BearerCreated(m, id, cid, ebi, isDefault, qci).mme, w)
  {
    hide TablesSized, Inv, B.TablesOk, B.NasCreateBearer;
    if id in m.ues && BearerCreated(m, id, cid, ebi, isDefault, qci).Done? {
      InvUe(m, id, w);
      BP.NasCreateBearerKeeps(m.ues[id].tables, cid, ebi, isDefault, qci);
      PutTablesKeeps(m, BearerCreated(m, id, cid, ebi, isDefault, qci).mme, id,
                     B.NasCreateBearer(m.ues[id].tables, cid, ebi, isDefault, qci).value, w);
    }
  }

  lemma EsmStatusKeeps(m: Mme, id: UeId, ebi: nat, status: B.EsmState, w: Watch)
    requires Inv(m, w) && TablesSized(m)
    ensures Inv(EsmStatus(m, id, ebi, status), w)
  {
    hide TablesSized, Inv, B.TablesOk, B.SetEsmStatus;
    if id in m.ues {
      InvUe(m, id, w);
      BP.SetEsmStatusKeeps(m.ues[id].tables, ebi, status);
      PutTablesKeeps(m, EsmStatus(m, id, ebi, status), id, B.SetEsmStatus(m.ues[id].tables, ebi, status), w);
    }
  }

  lemma BearerS1ReleasedKeeps(m: Mme, id: UeId, ebi: nat, w: Watch)
    requires Inv(m, w) && TablesSized(m)
    ensures Inv(BearerS1Released(m, id, ebi), w)
  {
    hide TablesSized, Inv, B.TablesOk, B.S1Release;
    if id in m.ues {
      InvUe(m, id, w);
      BP.S1ReleaseKeeps(m.ues[id].tables, ebi);
      PutTablesKeeps(m, BearerS1Released(m, id, ebi), id, B.S1Release(m.ues[id].tables, ebi), w);
    }
  }

  // ---------------------------------------------------------------- sessions

  lemma PdnConnectivityKeeps(m: Mme, imsi: nat, cid: nat, teid: nat, w: Watch)
    requires Inv(m, w) && TablesSized(m)
    requires LookupImsi(m, imsi).Some? && ValidTeid(teid) ==> Unowned(m.ues, TeidOf, LookupImsi(m, imsi).value.id, teid)
    requires teid != w.teid || w.teid == NO_TEID
    ensures PdnConnectivity(m, imsi, cid, teid).Done? ==> Inv(PdnConnectivity(m, imsi, cid, teid).mme, w)
  {
    hide Inv, TablesSized, Unowned, B.TablesOk, B.StartSession, B.WellSized;
    if LookupImsi(m, imsi).Some? {
      var u := LookupImsi(m, imsi).value;
      InvUe(m, m.byImsi[imsi], w);
      BP.StartSessionKeeps(u.tables, cid);
      var t := B.StartSession(u.tables, cid);
      if t.Some? {
        var u1 := u.(tables := t.value);
        var m1 := PutUe(m, u1);
        PutTablesKeeps(m, m1, u.id, t.value, w);
        OtherTeids(m, u1, teid);
        NewTeidKeeps(m1, u.id, teid, w);
        FrameKeeps(CollKeys(m1, u1, u1.enbKey, u1.imsi, teid, u1.guti), PdnConnectivity(m, imsi, cid, teid).mme, w);
      }
    }
  }

  lemma OtherTeids(m: Mme, u: Ue, teid: nat)
    requires ValidTeid(teid) ==> Unowned(m.ues, TeidOf, u.id, teid)
    ensures ValidTeid(teid) ==> Unowned(PutUe(m, u).ues, TeidOf, u.id, teid)
  {
  }

  lemma NewTeidKeeps(m: Mme, id: UeId, teid: nat, w: Watch)
    requires Inv(m, w) && id in m.ues && (ValidTeid(teid) ==> Unowned(m.ues, TeidOf, id, teid))
    requires teid != w.teid || w.teid == NO_TEID
    ensures var u := m.ues[id]; Inv(CollKeys(m, u, u.enbKey, u.imsi, teid, u.guti), w)
  {
    hide Inv, Unowned, B.TablesOk, B.WellSized;
    var u := m.ues[id];
    InvUe(m, id, w);
    OwnKeysFresh(m, id, w);
    CollKeysKeeps(m, id, u.enbKey, u.imsi, teid, u.guti, w);
  }

  lemma CreateSessionRspKeeps(m: Mme, teid: nat, accepted: bool, sgwTeid: nat, ms: seq<B.SessionBearer>, w: Watch)
    requires Inv(m, w) && TablesSized(m)
    ensures CreateSessionRsp(m, teid, accepted, sgwTeid, ms).Done? ==> Inv(CreateSessionRsp(m, teid, accepted, sgwTeid, ms).mme, w)
  {
    hide TablesSized, Inv, B.TablesOk, B.SessionsCreated;
    var r := CreateSessionRsp(m, teid, accepted, sgwTeid, ms);
    if LookupTeid(m, teid).Some? && r.Done? {
      var u := LookupTeid(m, teid).value;
      InvUe(m, m.byTeid[teid], w);
      if accepted {
        BP.SessionsCreatedKeeps(u.tables, sgwTeid, ms, |ms|);
        PutTablesKeeps(m, r.mme, u.id, B.SessionsCreated(u.tables, sgwTeid, ms, |ms|).value, w);
      } else {
        FrameKeeps(m, r.mme, w);
      }
    }
  }

  lemma ModifyBearerRspKeeps(m: Mme, teid: nat, w: Watch)
    requires Inv(m, w)
    ensures Inv(ModifyBearerRsp(m, teid), w)
  {
    hide Inv;
    FrameKeeps(m, ModifyBearerRsp(m, teid), w);
  }

  lemma DeleteSessionRspKeeps(m: Mme, teid: nat, w: Watch)
    requires Inv(m, w)
    ensures Inv(DeleteSessionRsp(m, teid), w)
  {
    hide Inv, B.TablesOk;
    if LookupTeid(m, teid).Some? {
      var u := LookupTeid(m, teid).value;
      InvUe(m, m.byTeid[teid], w);
      DropTeidKeeps(m, u.id, w);
      var m1 := SubDefault(SubS1u(DropTeid(m, u)));
      FrameKeeps(DropTeid(m, u), m1, w);
      var u1 := u.(teid := NO_TEID);
      assert m1.ues[u.id] == u1;
      if u.ecm == Idle {
        var m2 := Send(m1, [S1ReleaseCommand(u.id, u.enbUeId, ImplicitRelease)]);
        FrameKeeps(m1, m2, w);
        RemoveKeeps(m2, DeleteSessionRsp(m, teid), u1.(relCause := ImplicitRelease), w);
      } else {
        PutKeeps(m1, DeleteSessionRsp(m, teid), u1.(relCause := InvalidCause), w);
      }
    }
  }

  lemma ReleaseAccessBearersRspKeeps(m: Mme, teid: nat, t: TimerSetup, w: Watch)
    requires Inv(m, w)
    ensures Inv(ReleaseAccessBearersRsp(m, teid, t), w)
  {
    hide Inv, UeOk;
    if LookupTeid(m, teid).Some? {
      var u := LookupTeid(m, teid).value;
      InvUe(m, m.byTeid[teid], w);
      var m1 := Send(SubS1u(m), [S1ReleaseCommand(u.id, u.enbUeId, u.relCause)]);
      FrameKeeps(m, m1, w);
      if u.relCause == SctpReset {
        SigIdleKeeps(m1, u.id, t, w);
      }
    }
  }

  // ---------------------------------------------------------------- dedicated bearers

  lemma CreateBearerReqKeeps(m: Mme, teid: nat, linkedEbi: nat, trxn: nat, ms: seq<B.BearerRequest>, w: Watch)
    requires Inv(m, w) && TablesSized(m)
    ensures CreateBearerReq(m, teid, linkedEbi, trxn, ms).Done? ==> Inv(CreateBearerReq(m, teid, linkedEbi, trxn, ms).mme, w)
  {
    hide TablesSized, Inv, B.TablesOk, B.RequestBearers, DedicatedReqs;
    var r := CreateBearerReq(m, teid, linkedEbi, trxn, ms);
    if LookupTeid(m, teid).Some? {
      var u := LookupTeid(m, teid).value;
      InvUe(m, m.byTeid[teid], w);
      if r.Done? && B.GetBearer(u.tables, linkedEbi).Some? {
        var cid := B.GetBearer(u.tables, linkedEbi).value.pdnCxId;
        BP.StartProcKeeps(u.tables, trxn);
        assert B.WellSized(B.StartProc(u.tables, trxn));
        BP.RequestBearersKeep(B.StartProc(u.tables, trxn), cid, ms, |ms|);
        PutTablesKeeps(m, r.mme, u.id, B.RequestBearers(B.StartProc(u.tables, trxn), cid, ms, |ms|).value, w);
      }
    }
  }

  lemma DedicatedAnswerKeeps(m: Mme, id: UeId, ebi: nat, success: bool, w: Watch)
    requires Inv(m, w) && TablesSized(m)
    ensures DedicatedAnswer(m, id, ebi, success).Done? ==> Inv(DedicatedAnswer(m, id, ebi, success).mme, w)
  {
    hide TablesSized, Inv, B.TablesOk, B.Answer;
    if id in m.ues {
      InvUe(m, id, w);
      BP.AnswerKeeps(m.ues[id].tables, ebi, success);
      if B.Answer(m.ues[id].tables, ebi, success).Some? {
        PutTablesKeeps(m, DedicatedAnswer(m, id, ebi, success).mme, id, B.Answer(m.ues[id].tables, ebi, success).value.t, w);
      }
    }
  }

  lemma ErabSetupRspKeeps(m: Mme, id: UeId, ups: seq<B.ErabSetup>, downs: seq<nat>, w: Watch)
    requires Inv(m, w) && TablesSized(m)
    ensures ErabSetupRsp(m, id, ups, downs).Done? ==> Inv(ErabSetupRsp(m, id, ups, downs).mme, w)
  {
    hide TablesSized, Inv, B.TablesOk, B.ErabSetupRsp;
    if id in m.ues {
      InvUe(m, id, w);
      BP.ErabSetupRspKeeps(m.ues[id].tables, ups, downs);
      if B.ErabSetupRsp(m.ues[id].tables, ups, downs).Some? {
        PutTablesKeeps(m, ErabSetupRsp(m, id, ups, downs).mme, id, B.ErabSetupRsp(m.ues[id].tables, ups, downs).value.0, w);
      }
    }
  }

  // ---------------------------------------------------------------- connection

  lemma StartSetupKeeps(m: Mme, id: UeId, t: TimerSetup, w: Watch)
    requires Inv(m, w) && id in m.ues
    ensures Inv(StartSetup(m, m.ues[id], t), w)
  {
    hide Inv, B.TablesOk, B.WellSized;
    InvUe(m, id, w);
    PutKeeps(m, StartSetup(m, m.ues[id], t), m.ues[id].(setup := TimerSet(t)), w);
  }

  lemma ConnEstCnfKeeps(m: Mme, id: UeId, nas: B.NasPdu, t: TimerSetup, w: Watch)
    requires Inv(m, w) && TablesSized(m)
    ensures Inv(ConnEstCnf(m, id, nas, t), w)
  {
    hide TablesSized, Inv, B.TablesOk, B.Erabs, StartSetup;
    if id in m.ues {
      var u := m.ues[id];
      InvUe(m, id, w);
      var erabs := B.Erabs(u.tables.bearers, B.BEARERS_PER_UE);
      var m1 := Send(m, [ConnectionEstablishment(id, erabs, if erabs == [] then None else Some(nas))]);
      FrameKeeps(m, m1, w);
      SigConnectedKeeps(m1, id, w);
      assert SigConnected(m1, u).ues[id] == ToConnected(u);
      StartSetupKeeps(SigConnected(m1, u), id, t, w);
    }
  }

  lemma NasDownlinkReqKeeps(m: Mme, id: UeId, success: bool, w: Watch)
    requires Inv(m, w)
    ensures NasDownlinkReq(m, id, success).Done? ==> Inv(NasDownlinkReq(m, id, success).mme, w)
  {
    hide Inv, B.TablesOk;
    if id in m.ues {
      var u := m.ues[id];
      InvUe(m, id, w);
      var m1 := Send(m, [NasDownlink(id, u.enbUeId)]);
      FrameKeeps(m, m1, w);
      SigConnectedKeeps(m1, id, w);
      if !success {
        assert SigConnected(m1, u).ues[id] == ToConnected(u);
        PutKeeps(SigConnected(m1, u), NasDownlinkReq(m, id, success).mme, ToConnected(u).(relCause := NasNormalRelease), w);
      }
    }
  }

  lemma ContextSetupRspKeeps(m: Mme, id: UeId, w: Watch)
    requires Inv(m, w)
    ensures Inv(ContextSetupRsp(m, id), w)
  {
    if id in m.ues {
      InvUe(m, id, w);
      StopSetupKeeps(m, id, w);
    }
  }

  lemma AbortProcedureKeeps(m: Mme, u: Ue, w: Watch)
    requires Inv(m, w) && u.id in m.ues && u.(setup := m.ues[u.id].setup) == m.ues[u.id]
    requires |u.tables.pdns| == B.MAX_APN_PER_UE
    ensures Inv(AbortProcedure(m, u), w)
  {
    hide Inv, B.TablesOk, ReleaseBearers;
    InvUe(m, u.id, w);
    PutKeeps(m, AbortProcedure(m, u), u.(relCause := InitialContextSetupFailed), w);
  }

  lemma ContextSetupFailureKeeps(m: Mme, id: UeId, w: Watch)
    requires Inv(m, w) && TablesSized(m)
    ensures Inv(ContextSetupFailure(m, id), w)
  {
    hide TablesSized, Inv;
    if id in m.ues {
      InvUe(m, id, w);
      StopSetupKeeps(m, id, w);
      AbortProcedureKeeps(StopSetup(m, m.ues[id]), m.ues[id].(setup := INACTIVE), w);
    }
  }

  // ---------------------------------------------------------------- release

  lemma ReleaseReqKeeps(m: Mme, id: UeId, enbUeId: nat, enbId: nat, cause: Cause, t: TimerSetup, w: Watch)
    requires Inv(m, w) && TablesSized(m)
    ensures Inv(ReleaseReq(m, id, enbUeId, enbId, cause, t), w)
  {
    var found := FindForRelease(m, id, enbUeId, enbId);
    if found.Some? {
      var u := found.value;
      var uid :| uid in m.ues && m.ues[uid] == u;
      InvUe(m, uid, w);
      ReleaseFoundKeeps(m, u, id, enbUeId, enbId, cause, t, w);
    }
  }

  lemma ReleaseFoundKeeps(m: Mme, u: Ue, id: UeId, enbUeId: nat, enbId: nat, cause: Cause, t: TimerSetup, w: Watch)
    requires Inv(m, w) && TablesSized(m) && FindForRelease(m, id, enbUeId, enbId) == Some(u)
    requires u.id in m.ues && m.ues[u.id] == u && UeOk(u)
    ensures Inv(ReleaseReq(m, id, enbUeId, enbId, cause, t), w)
  {
    hide TablesSized, Inv, B.TablesOk, ReleaseBearers, FindForRelease;
    var u1 := u.(relCause := cause);
    var m1 := PutUe(m, u1);
    PutKeeps(m, m1, u1, w);
    var m' := ReleaseReq(m, id, enbUeId, enbId, cause, t);
    if u.ecm == Idle {
      SigIdleKeeps(m1, u.id, t, w);
      if cause == SctpReset {
        FrameKeeps(SigIdle(m1, u1, t), m', w);
      }
    } else {
      var u2 := if u.setup != INACTIVE then u1.(setup := INACTIVE, relCause := InitialContextSetupFailed) else u1;
      PutKeeps(m1, m', u2, w);
    }
  }

  lemma SameConnected(ues: map<UeId, Ue>, u: Ue)
    requires u.id in ues && u.ecm == ues[u.id].ecm
    ensures ConnectedIds(ues[u.id := u]) == ConnectedIds(ues)
  {
  }

  /** A release-complete message would remove the context. */
  ghost predicate RemovedByRelease(m: Mme, id: UeId) {
    id in m.ues && m.ues[id].mm == Unregistered && m.ues[id].teid == NO_TEID && m.ues[id].activePdns == 0
  }

  lemma ReleaseCompleteKeeps(m: Mme, id: UeId, t: TimerSetup, w: Watch)
    requires Inv(m, w) && TablesSized(m)
    requires RemovedByRelease(m, id) && w.exact ==> m.ues[id].ecm == Connected || ConnectedIds(m.ues) == {}
    requires RemovedByRelease(m, id) && w.idleOnly ==> m.ues[id].ecm == Idle
    ensures Inv(ReleaseComplete(m, id, t), w)
  {
    hide TablesSized, Inv, B.TablesOk, DeleteSessions, DetachConnected;
    if id in m.ues {
      var u := m.ues[id];
      InvUe(m, id, w);
      BP.DeleteProcKeeps(u.tables);
      var u1 := u.(tables := B.DeleteProc(u.tables));
      assert UeOk(u1) && |u1.tables.pdns| == B.MAX_APN_PER_UE;
      var m1 := PutUe(m, u1);
      PutKeeps(m, m1, u1, w);
      if u.mm == Unregistered {
        if u.teid == NO_TEID && u.activePdns == 0 {
          SameConnected(m.ues, u1);
          RemoveKeeps(m1, ReleaseComplete(m, id, t), u1, w);
        } else {
          var m2 := Send(m1, DeleteSessions(u1, B.MAX_APN_PER_UE));
          FrameKeeps(m1, m2, w);
          SigIdleKeeps(m2, id, t, w);
        }
      } else {
        SigIdleKeeps(m1, id, t, w);
      }
    }
  }

  lemma DetachReqKeeps(m: Mme, id: UeId, t: TimerSetup, w: Watch)
    requires Inv(m, w) && TablesSized(m)
    ensures Inv(DetachReq(m, id, t), w)
  {
    hide TablesSized, Inv, B.TablesOk, DeleteSessions, DetachConnected;
    if id in m.ues {
      var u := m.ues[id];
      InvUe(m, id, w);
      if u.teid == NO_TEID && u.activePdns == 0 {
        if u.ecm == Idle {
          var m1 := Send(m, [S1ReleaseCommand(u.id, u.enbUeId, ImplicitRelease)]);
          FrameKeeps(m, m1, w);
          RemoveKeeps(m1, DetachReq(m, id, t), u.(relCause := ImplicitRelease), w);
        } else {
          DetachConnectedKeeps(m, id, t, w);
        }
      } else {
        FrameKeeps(m, DetachReq(m, id, t), w);
      }
    }
  }

  lemma IdleAndRemoveKeeps(m: Mme, id: UeId, t: TimerSetup, w: Watch)
    requires Inv(m, w) && id in m.ues && m.ues[id].teid == NO_TEID
    ensures Inv(Remove(SigIdle(m, m.ues[id], t), ToIdle(m.ues[id], m.periodicTau, t)), w)
  {
    hide Inv, B.TablesOk, B.WellSized;
    InvUe(m, id, w);
    SigIdleKeeps(m, id, t, w);
    var m1 := SigIdle(m, m.ues[id], t);
    var u1 := ToIdle(m.ues[id], m.periodicTau, t);
    assert m1.ues[id] == u1;
    RemoveKeeps(m1, Remove(m1, u1), u1, w);
  }

  lemma DetachConnectedKeeps(m: Mme, id: UeId, t: TimerSetup, w: Watch)
    requires Inv(m, w) && id in m.ues && m.ues[id].teid == NO_TEID && m.ues[id].ecm == Connected
    ensures Inv(DetachConnected(m, m.ues[id], t), w)
  {
    hide Inv, B.TablesOk, B.WellSized, SigIdle, Remove, ToIdle;
    InvUe(m, id, w);
    var u := m.ues[id];
    var cause := if u.relCause == InvalidCause then NasDetach else u.relCause;
    var u1 := u.(relCause := cause);
    var m1 := Send(PutUe(m, u1), [S1ReleaseCommand(u.id, u.enbUeId, cause)]);
    PutKeeps(m, m1, u1, w);
    if cause == SctpReset {
      IdleAndRemoveKeeps(m1, id, t, w);
    } else {
      PutKeeps(m1, DetachConnected(m, u, t), u1.(relCause := InvalidCause), w);
    }
  }

  // ---------------------------------------------------------------- timers

  lemma TimerExpiredKeeps(m: Mme, timer: TimerId, id: UeId, t: TimerSetup, w: Watch)
    requires Inv(m, w) && TablesSized(m) && timer != INACTIVE
    ensures Inv(TimerExpired(m, timer, id, t), w)
  {
    hide TablesSized, Inv, B.TablesOk, ReleaseBearers;
    if id in m.ues {
      var u := m.ues[id];
      InvUe(m, id, w);
      var m' := TimerExpired(m, timer, id, t);
      if timer == u.reach {
        PutKeeps(m, m', u.(reach := INACTIVE, detach := TimerSet(t)), w);
      } else if timer == u.detach {
        PutKeeps(m, m', u.(detach := INACTIVE), w);
      } else if timer == u.setup {
        AbortProcedureKeeps(m, u.(setup := INACTIVE), w);
      }
    }
  }

  lemma LocationAnsKeeps(m: Mme, imsi: nat, w: Watch)
    requires Inv(m, w)
    ensures Inv(LocationAns(m, imsi), w)
  {
    hide Inv, B.TablesOk;
    if LookupImsi(m, imsi).Some? {
      var u := LookupImsi(m, imsi).value;
      InvUe(m, m.byImsi[imsi], w);
      PutKeeps(m, LocationAns(m, imsi), u.(reach := INACTIVE, detach := INACTIVE), w);
    }
  }
}
