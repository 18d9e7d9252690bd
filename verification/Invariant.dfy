/** What holds of the MME in every reachable state, and the lemmas that the building blocks of the
    handlers keep it. */
module Invariant {
  import opened Common
  import opened UeModel
  import opened Registry
  import opened Handlers
  import EnbKey
  import B = Bearers

  // ---------------------------------------------------------------- the invariant

  ghost predicate TimersOk(u: Ue) {
    u.ecm == Connected ==> u.reach == INACTIVE && u.detach == INACTIVE
  }

  ghost predicate UeOk(u: Ue) {
    && TimersOk(u)
    && B.TablesOk(u.tables)
    && u.activePdns == 0
    && (ValidEnbKey(u.enbKey) ==> EnbKey.UnpackUeId(u.enbKey) == u.enbUeId)
  }

  ghost predicate UesOk(ues: map<UeId, Ue>) {
    forall id :: id in ues ==> UeOk(ues[id])
  }

  predicate IsConnected(u: Ue) { u.ecm == Connected }

  predicate IsRegistered(u: Ue) { u.mm == Registered }

  ghost function Having(ues: map<UeId, Ue>, p: Ue -> bool): set<UeId> {
    set id | id in ues && p(ues[id])
  }

  ghost function ConnectedIds(ues: map<UeId, Ue>): set<UeId> { Having(ues, IsConnected) }

  ghost function RegisteredIds(ues: map<UeId, Ue>): set<UeId> { Having(ues, IsRegistered) }

  /** How many contexts were removed while the UE was registered. */
  ghost function RegisteredIn(freed: seq<Ue>): nat {
    if freed == [] then 0
    else RegisteredIn(freed[..|freed| - 1]) + (if freed[|freed| - 1].mm == Registered then 1 else 0)
  }

  /** The connected counter never exceeds the number of connected UEs. The attached counter is the
      number of registered UEs plus those that were removed while registered. When `exact` is
      watched, the connected counter is the number of connected UEs. */
  ghost predicate StatsOk(ues: map<UeId, Ue>, freed: seq<Ue>, connected: nat, attached: nat, exact: bool) {
    && connected <= |ConnectedIds(ues)|
    && (exact ==> connected == |ConnectedIds(ues)|)
    && attached == |RegisteredIds(ues)| + RegisteredIn(freed)
  }

  /** Every context, live or removed, has its own number, and none was removed with an S11 tunnel. */
  ghost predicate HistoryOk(ues: map<UeId, Ue>, freed: seq<Ue>, created: nat, generator: UeId) {
    && generator == (1 + created) % UINT32
    && (forall id :: id in ues ==> ues[id].serial < created)
    && (forall i, j :: i in ues && j in ues && ues[i].serial == ues[j].serial ==> i == j)
    && (forall k :: 0 <= k < |freed| ==> freed[k].serial < created && freed[k].teid == NO_TEID)
    && (forall k, l :: 0 <= k < l < |freed| ==> freed[k].serial != freed[l].serial)
    && (forall id, k :: id in ues && 0 <= k < |freed| ==> ues[id].serial != freed[k].serial)
  }

  /** Facts that can be followed along a run from the point where they hold: that the connected
      counter is exact, that a TEID (0 watches none) belongs to no context or only to the one with
      number `owner`, that certain contexts were removed, and that every context removed since was
      idle. */
  datatype Watch = Watch(exact: bool, teid: nat, owner: Option<nat>, past: seq<Ue>, idleOnly: bool)

  const NOTHING := Watch(false, NO_TEID, None, [], false)

  ghost predicate TeidOk(ues: map<UeId, Ue>, teid: nat, owner: Option<nat>) {
    teid == NO_TEID || forall id :: id in ues && ues[id].teid == teid ==> owner == Some(ues[id].serial)
  }

  ghost predicate FreedOk(freed: seq<Ue>, w: Watch) {
    w.past <= freed && (w.idleOnly ==> forall k :: |w.past| <= k < |freed| ==> freed[k].ecm == Idle)
  }

  ghost predicate Inv(m: Mme, w: Watch) {
    && IndexOk(m)
    && UesOk(m.ues)
    && StatsOk(m.ues, m.freed, m.stats.connected, m.stats.attached, w.exact)
    && HistoryOk(m.ues, m.freed, m.created, m.generator)
    && TeidOk(m.ues, w.teid, w.owner)
    && FreedOk(m.freed, w)
  }

  lemma InvSized(m: Mme, w: Watch)
    requires Inv(m, w)
    ensures TablesSized(m)
  {
  }

  // ---------------------------------------------------------------- counting

  function One(b: bool): (n: nat) { if b then 1 else 0 }

  lemma DropHaving(ues: map<UeId, Ue>, p: Ue -> bool, id: UeId)
    requires id in ues
    ensures |Having(ues - {id}, p)| == |Having(ues, p)| - One(p(ues[id]))
  {
    assert Having(ues - {id}, p) == Having(ues, p) - {id};
  }

  lemma AddHaving(ues: map<UeId, Ue>, p: Ue -> bool, id: UeId, u: Ue)
    requires id !in ues
    ensures |Having(ues[id := u], p)| == |Having(ues, p)| + One(p(u))
  {
    if p(u) {
      assert Having(ues[id := u], p) == Having(ues, p) + {id};
    } else {
      assert Having(ues[id := u], p) == Having(ues, p);
    }
  }

  lemma PutHaving(ues: map<UeId, Ue>, p: Ue -> bool, id: UeId, u: Ue)
    requires id in ues
    ensures |Having(ues[id := u], p)| == |Having(ues, p)| - One(p(ues[id])) + One(p(u))
  {
    DropHaving(ues, p, id);
    AddHaving(ues - {id}, p, id, u);
    assert (ues - {id})[id := u] == ues[id := u];
  }

  // ---------------------------------------------------------------- building blocks

  function CountAfter(n: nat, before: bool, after: bool): (r: nat) {
    if !before && after then n + 1 else if before && !after then Minus(n) else n
  }

  lemma PutStats(ues: map<UeId, Ue>, freed: seq<Ue>, connected: nat, attached: nat, exact: bool, u: Ue)
    requires StatsOk(ues, freed, connected, attached, exact) && u.id in ues
    ensures StatsOk(ues[u.id := u], freed, CountAfter(connected, IsConnected(ues[u.id]), IsConnected(u)),
                    CountAfter(attached, IsRegistered(ues[u.id]), IsRegistered(u)), exact)
  {
    PutHaving(ues, IsConnected, u.id, u);
    PutHaving(ues, IsRegistered, u.id, u);
    if IsRegistered(ues[u.id]) {
      assert u.id in Having(ues, IsRegistered);
    }
    if IsConnected(ues[u.id]) {
      assert u.id in Having(ues, IsConnected);
    }
  }

  lemma PutHistory(ues: map<UeId, Ue>, freed: seq<Ue>, created: nat, generator: UeId, u: Ue)
    requires HistoryOk(ues, freed, created, generator) && u.id in ues && u.serial == ues[u.id].serial
    ensures HistoryOk(ues[u.id := u], freed, created, generator)
  {
  }

  lemma PutUesOk(ues: map<UeId, Ue>, u: Ue)
    requires UesOk(ues) && UeOk(u)
    ensures UesOk(ues[u.id := u])
  {
    hide UeOk;
  }

  /** A step that changes one context, keeps the indexes in agreement and counts what it does. */
  lemma UpdateKeeps(m: Mme, m': Mme, u: Ue, w: Watch)
    requires Inv(m, w) && IndexOk(m') && UeOk(u) && u.id in m.ues && u.serial == m.ues[u.id].serial
    requires u.teid == m.ues[u.id].teid || u.teid != w.teid || w.teid == NO_TEID
    requires m' == m.(ues := m.ues[u.id := u], byImsi := m'.byImsi, byTeid := m'.byTeid, byEnb := m'.byEnb,
                      byGuti := m'.byGuti, armed := m'.armed, sent := m'.sent, stats := m'.stats)
    requires m'.stats.connected == CountAfter(m.stats.connected, IsConnected(m.ues[u.id]), IsConnected(u))
    requires m'.stats.attached == CountAfter(m.stats.attached, IsRegistered(m.ues[u.id]), IsRegistered(u))
    ensures Inv(m', w)
  {
    hide IndexOk, UesOk, UeOk, StatsOk, HistoryOk, FreedOk;
    PutUesOk(m.ues, u);
    PutStats(m.ues, m.freed, m.stats.connected, m.stats.attached, w.exact, u);
    PutHistory(m.ues, m.freed, m.created, m.generator, u);
  }

  /** A step that changes no context and no table. */
  lemma FrameKeeps(m: Mme, m': Mme, w: Watch)
    requires Inv(m, w)
    requires m' == m.(armed := m'.armed, sent := m'.sent,
                      stats := m'.stats.(connected := m.stats.connected, attached := m.stats.attached))
    ensures Inv(m', w)
  {
    hide Indexed, Covered, IdsOk, UesOk, StatsOk, HistoryOk, TeidOk, FreedOk;
  }

  /** A step that changes one context but none of its keys. */
  lemma PutKeeps(m: Mme, m': Mme, u: Ue, w: Watch)
    requires Inv(m, w) && UeOk(u) && u.id in m.ues
    requires u == m.ues[u.id].(mm := u.mm, ecm := u.ecm, relCause := u.relCause, reach := u.reach, detach := u.detach,
                               setup := u.setup, tables := u.tables)
    requires m' == m.(ues := m.ues[u.id := u], armed := m'.armed, sent := m'.sent,
                      stats := m'.stats.(connected := CountAfter(m.stats.connected, IsConnected(m.ues[u.id]), IsConnected(u)),
                                         attached := CountAfter(m.stats.attached, IsRegistered(m.ues[u.id]), IsRegistered(u))))
    ensures Inv(m', w)
  {
    hide Indexed, Covered, IdsOk, UesOk, UeOk, StatsOk, HistoryOk, TeidOk, FreedOk;
    PutUeKeepsIndex(m, u);
    UpdateKeeps(m, m', u, w);
  }

  lemma CollKeysKeeps(m: Mme, id: UeId, enbKey: nat, imsi: nat, teid: nat, guti: Guti, w: Watch)
    requires Inv(m, w) && id in m.ues && FreshKeys(m.ues, id, enbKey, imsi, teid)
    requires ValidEnbKey(enbKey) ==> EnbKey.UnpackUeId(enbKey) == m.ues[id].enbUeId
    requires teid == m.ues[id].teid || teid != w.teid || w.teid == NO_TEID
    ensures Inv(CollKeys(m, m.ues[id], enbKey, imsi, teid, guti), w)
  {
    hide Indexed, Covered, StatsOk, HistoryOk, TeidOk, FreedOk, B.TablesOk;
    CollKeysKeepsIndexIffFresh(m, id, enbKey, imsi, teid, guti);
    UpdateKeeps(m, CollKeys(m, m.ues[id], enbKey, imsi, teid, guti), Rekeyed(m.ues[id], enbKey, imsi, teid, guti), w);
  }

  lemma SigIdleKeeps(m: Mme, id: UeId, t: TimerSetup, w: Watch)
    requires Inv(m, w) && id in m.ues
    ensures Inv(SigIdle(m, m.ues[id], t), w)
  {
    hide Indexed, Covered, StatsOk, HistoryOk, TeidOk, FreedOk, B.TablesOk;
    var u := m.ues[id];
    var v := ToIdle(u, m.periodicTau, t);
    AllCovered(m);
    GiveUpKey(m.byEnb, m.ues, EnbKeyOf, ValidEnbKey, id, v);
    SameKey(m.byImsi, m.ues, ImsiOf, ValidImsi, id, v);
    SameKey(m.byTeid, m.ues, TeidOf, ValidTeid, id, v);
    UpdateKeeps(m, SigIdle(m, u, t), v, w);
  }

  lemma DropTeidKeeps(m: Mme, id: UeId, w: Watch)
    requires Inv(m, w) && id in m.ues
    ensures Inv(DropTeid(m, m.ues[id]), w)
  {
    hide Indexed, Covered, StatsOk, HistoryOk, TeidOk, FreedOk, B.TablesOk;
    var v := m.ues[id].(teid := NO_TEID);
    AllCovered(m);
    GiveUpKey(m.byTeid, m.ues, TeidOf, ValidTeid, id, v);
    SameKey(m.byImsi, m.ues, ImsiOf, ValidImsi, id, v);
    SameKey(m.byEnb, m.ues, EnbKeyOf, ValidEnbKey, id, v);
    UpdateKeeps(m, DropTeid(m, m.ues[id]), v, w);
  }

  lemma SigConnectedKeeps(m: Mme, id: UeId, w: Watch)
    requires Inv(m, w) && id in m.ues
    ensures Inv(SigConnected(m, m.ues[id]), w)
  {
    hide Indexed, Covered, StatsOk, HistoryOk, TeidOk, FreedOk, B.TablesOk;
    var u := m.ues[id];
    if u.ecm != Connected {
      PutKeeps(m, SigConnected(m, u), ToConnected(u), w);
    }
  }

  lemma StopSetupKeeps(m: Mme, id: UeId, w: Watch)
    requires Inv(m, w) && id in m.ues
    ensures Inv(StopSetup(m, m.ues[id]), w)
  {
    hide Indexed, Covered, StatsOk, HistoryOk, TeidOk, FreedOk, B.TablesOk;
    PutKeeps(m, StopSetup(m, m.ues[id]), m.ues[id].(setup := INACTIVE), w);
  }

  lemma DropHistory(ues: map<UeId, Ue>, freed: seq<Ue>, created: nat, generator: UeId, u: Ue)
    requires HistoryOk(ues, freed, created, generator)
    requires u.id in ues && u.serial == ues[u.id].serial && u.teid == NO_TEID
    ensures HistoryOk(ues - {u.id}, freed + [u], created, generator)
  {
  }

  lemma DropStats(ues: map<UeId, Ue>, freed: seq<Ue>, connected: nat, attached: nat, exact: bool, u: Ue)
    requires StatsOk(ues, freed, connected, attached, exact) && u.id in ues && u.mm == ues[u.id].mm
    ensures StatsOk(ues - {u.id}, freed + [u], Minus(connected), attached,
                    exact && (ues[u.id].ecm == Connected || ConnectedIds(ues) == {}))
    ensures ues[u.id].ecm == Idle ==> StatsOk(ues - {u.id}, freed + [u], connected, attached, exact)
  {
    if IsConnected(ues[u.id]) {
      assert u.id in Having(ues, IsConnected);
    }
    DropHaving(ues, IsConnected, u.id);
    DropHaving(ues, IsRegistered, u.id);
    assert (freed + [u])[..|freed|] == freed;
  }

  lemma DropUesOk(ues: map<UeId, Ue>, id: UeId)
    requires UesOk(ues)
    ensures UesOk(ues - {id})
  {
    hide UeOk;
  }

  lemma AddFreed(freed: seq<Ue>, u: Ue, w: Watch)
    requires FreedOk(freed, w) && (w.idleOnly ==> u.ecm == Idle)
    ensures FreedOk(freed + [u], w)
  {
  }

  /** Removing a context without S11 tunnel. When the UE is connected the step must also count the
      connection as gone; it may do so when it is not. */
  lemma RemoveKeeps(m: Mme, m': Mme, u: Ue, w: Watch)
    requires Inv(m, w) && u.id in m.ues && u == m.ues[u.id].(relCause := u.relCause) && u.teid == NO_TEID
    requires (m' == Remove(m, u) && m.ues[u.id].ecm == Idle) || m' == SubConnected(Remove(m, u))
    requires m' == Remove(m, u) || (w.exact ==> m.ues[u.id].ecm == Connected || ConnectedIds(m.ues) == {})
    requires w.idleOnly ==> m.ues[u.id].ecm == Idle
    ensures Inv(m', w)
  {
    hide Indexed, Covered, IdsOk, UesOk, StatsOk, HistoryOk, FreedOk;
    DropUesOk(m.ues, u.id);
    RemoveKeepsIndex(m, u.id);
    DropStats(m.ues, m.freed, m.stats.connected, m.stats.attached, w.exact, u);
    DropHistory(m.ues, m.freed, m.created, m.generator, u);
    AddFreed(m.freed, u, w);
  }

  lemma AddHistory(ues: map<UeId, Ue>, freed: seq<Ue>, created: nat, generator: UeId, u: Ue)
    requires HistoryOk(ues, freed, created, generator) && u.id !in ues && u.serial == created
    ensures HistoryOk(ues[u.id := u], freed, created + 1, (generator + 1) % UINT32)
  {
    NextGenerator(created);
  }

  lemma AddStats(ues: map<UeId, Ue>, freed: seq<Ue>, connected: nat, attached: nat, exact: bool, u: Ue)
    requires StatsOk(ues, freed, connected, attached, exact) && u.id !in ues && u.ecm == Idle && u.mm == Unregistered
    ensures StatsOk(ues[u.id := u], freed, connected, attached, exact)
  {
    AddHaving(ues, IsConnected, u.id, u);
    AddHaving(ues, IsRegistered, u.id, u);
  }

  lemma InsertKeeps(m: Mme, m': Mme, u: Ue, w: Watch)
    requires Inv(m, w) && InsertOk(m, u) && u.id < UINT32 && u.serial == m.created
    requires ValidEnbKey(u.enbKey) && !ValidImsi(u.imsi) && !ValidTeid(u.teid) && !ValidGuti(u.guti)
    requires UeOk(u) && u.ecm == Idle && u.mm == Unregistered
    requires m' == Insert(m, u).(created := m.created + 1, generator := (m.generator + 1) % UINT32, sent := m'.sent)
    ensures Inv(m', w)
  {
    hide Indexed, Covered, IdsOk, UesOk, UeOk, StatsOk, HistoryOk, FreedOk;
    InsertKeepsIndex(m, u);
    AddStats(m.ues, m.freed, m.stats.connected, m.stats.attached, w.exact, u);
    PutUesOk(m.ues, u);
    AddHistory(m.ues, m.freed, m.created, m.generator, u);
  }

  lemma NextGenerator(created: nat)
    ensures ((1 + created) % UINT32 + 1) % UINT32 == (1 + (created + 1)) % UINT32
  {
  }
}
