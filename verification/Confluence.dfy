/** The two answers that end an S1 connection and an S11 session race each other. Whichever comes
    first, the context of an unregistered UE is gone at the end (3GPP TS 23.401 section 5.3.5). */
module Confluence {
  import opened Common
  import opened UeModel
  import opened Registry
  import opened Handlers
  import opened Invariant
  import opened HandlerProofs
  import B = Bearers

  ghost predicate Live(m: Mme, u: Ue) {
    u.id in m.ues && m.ues[u.id] == u
  }

  /** The timer service numbers a new timer unlike any that is running. */
  ghost predicate FreshTimer(m: Mme, t: TimerSetup) {
    t.Started? ==> t.id != INACTIVE && t.id !in m.armed
  }

  /** The S11 delete-session response, then the S1 release-complete message. */
  ghost function DeleteThenRelease(m: Mme, teid: nat, id: UeId, t: TimerSetup, w: Watch): Mme
    requires Inv(m, w)
  {
    DeleteSessionRspKeeps(m, teid, w);
    InvSized(DeleteSessionRsp(m, teid), w);
    ReleaseComplete(DeleteSessionRsp(m, teid), id, t)
  }

  ghost function ReleaseThenDelete(m: Mme, teid: nat, id: UeId, t: TimerSetup, w: Watch): Mme
    requires Inv(m, w)
  {
    InvSized(m, w);
    DeleteSessionRsp(ReleaseComplete(m, id, t), teid)
  }

  /** The timers that are left when those recorded in a context are stopped. */
  function WithoutTimersOf(armed: set<TimerId>, u: Ue): (armed': set<TimerId>) {
    StopTimer(StopTimer(StopTimer(armed, u.reach), u.detach), u.setup)
  }

  function CountersAfter(s: Stats, u: Ue): (s': Stats) {
    s.(connected := if u.ecm == Connected then Minus(s.connected) else s.connected,
       defaultBearers := Minus(s.defaultBearers),
       s1uBearers := Minus(s.s1uBearers))
  }

  /** The state without the context of u: nothing else has changed but the messages sent and, in the
      index of eNB keys, the entry of the key that means "none". */
  ghost predicate WithoutUe(m: Mme, m': Mme, u: Ue) {
    && m' == m.(ues := m.ues - {u.id},
                byImsi := if u.imsi != INVALID_IMSI then m.byImsi - {u.imsi} else m.byImsi,
                byTeid := m.byTeid - {u.teid},
                byEnb := m'.byEnb,
                byGuti := if NonZeroGuti(u.guti) then m.byGuti - {u.guti} else m.byGuti,
                stats := CountersAfter(m.stats, u),
                armed := m'.armed, sent := m'.sent, freed := m'.freed)
    && m'.byEnb - {INVALID_ENB_KEY} == m.byEnb - {u.enbKey, INVALID_ENB_KEY}
  }

  lemma DropPut(ues: map<UeId, Ue>, id: UeId, v: Ue)
    ensures ues[id := v] - {id} == ues - {id}
  {
  }

  lemma FoundByTeid(m: Mme, u: Ue, w: Watch)
    requires Inv(m, w) && Live(m, u) && ValidTeid(u.teid)
    ensures u.teid in m.byTeid && m.byTeid[u.teid] == u.id && u.activePdns == 0 && TablesSized(m)
  {
    InvSized(m, w);
    InvUe(m, u.id, w);
    hide UesOk, StatsOk, HistoryOk, B.TablesOk, TablesSized;
  }

  /** The delete-session response ends an idle UE. */
  lemma DeleteEndsIdle(m: Mme, u: Ue)
    requires Live(m, u) && LookupTeid(m, u.teid) == Some(u) && u.ecm == Idle
    ensures WithoutUe(m, DeleteSessionRsp(m, u.teid), u)
    ensures DeleteSessionRsp(m, u.teid).armed == WithoutTimersOf(m.armed, u)
  {
    DropPut(m.ues, u.id, u.(teid := NO_TEID));
  }

  lemma DeleteKeepsConnected(m: Mme, u: Ue)
    requires Live(m, u) && LookupTeid(m, u.teid) == Some(u) && u.ecm == Connected
    ensures var m' := DeleteSessionRsp(m, u.teid);
            m' == m.(ues := m.ues[u.id := u.(teid := NO_TEID, relCause := InvalidCause)], byTeid := m.byTeid - {u.teid}, sent := m'.sent,
                     stats := m.stats.(defaultBearers := Minus(m.stats.defaultBearers), s1uBearers := Minus(m.stats.s1uBearers)))
  {
  }

  /** The release-complete message ends a UE without tunnel. */
  lemma ReleaseEnds(m: Mme, u: Ue, t: TimerSetup)
    requires TablesSized(m) && Live(m, u) && u.mm == Unregistered && u.teid == NO_TEID && u.activePdns == 0
    ensures var m' := ReleaseComplete(m, u.id, t);
            && m' == SubConnected(Remove(m, u)).(freed := m'.freed)
  {
    hide TablesSized, B.DeleteProc;
    DropPut(m.ues, u.id, u.(tables := B.DeleteProc(u.tables)));
  }

  /** The release-complete message makes a UE with a tunnel idle. */
  lemma ReleaseMakesIdle(m: Mme, u: Ue, t: TimerSetup)
    requires TablesSized(m) && Live(m, u) && u.mm == Unregistered && ValidTeid(u.teid)
    ensures var m' := ReleaseComplete(m, u.id, t);
            m' == SigIdle(m, u, t).(sent := m'.sent,
                                    ues := m.ues[u.id := ToIdle(u, m.periodicTau, t).(tables := B.DeleteProc(u.tables))])
  {
    hide TablesSized, B.DeleteProc, DeleteSessions, B.WellSized;
    var u1 := u.(tables := B.DeleteProc(u.tables));
    assert m.ues[u.id := u1][u.id := ToIdle(u1, m.periodicTau, t)] == m.ues[u.id := ToIdle(u1, m.periodicTau, t)];
  }

  lemma ReleaseUnknown(m: Mme, id: UeId, t: TimerSetup)
    requires TablesSized(m) && id !in m.ues
    ensures ReleaseComplete(m, id, t) == m
  {
  }

  lemma DeleteThenReleaseEnds(m: Mme, u: Ue, t: TimerSetup, w: Watch)
    requires Inv(m, w) && Live(m, u) && u.mm == Unregistered && ValidTeid(u.teid)
    ensures var m' := DeleteThenRelease(m, u.teid, u.id, t, w);
            WithoutUe(m, m', u) && m'.armed == WithoutTimersOf(m.armed, u)
  {
    hide Inv, TablesSized, DeleteSessionRsp, ReleaseComplete;
    FoundByTeid(m, u, w);
    DeleteSessionRspKeeps(m, u.teid, w);
    var m1 := DeleteSessionRsp(m, u.teid);
    InvSized(m1, w);
    if u.ecm == Idle {
      hide WithoutUe;
      DeleteEndsIdle(m, u);
      IdleGone(m, u);
      ReleaseUnknown(m1, u.id, t);
    } else {
      ConnectedEnds(m, u, t);
    }
  }

  lemma IdleGone(m: Mme, u: Ue)
    requires WithoutUe(m, DeleteSessionRsp(m, u.teid), u)
    ensures u.id !in DeleteSessionRsp(m, u.teid).ues
  {
    hide DeleteSessionRsp;
  }

  lemma ConnectedEnds(m: Mme, u: Ue, t: TimerSetup)
    requires Live(m, u) && LookupTeid(m, u.teid) == Some(u) && u.ecm == Connected && u.mm == Unregistered && u.activePdns == 0
    requires TablesSized(DeleteSessionRsp(m, u.teid))
    ensures var m' := ReleaseComplete(DeleteSessionRsp(m, u.teid), u.id, t);
            WithoutUe(m, m', u) && m'.armed == WithoutTimersOf(m.armed, u)
  {
    hide TablesSized, DeleteSessionRsp, ReleaseComplete, LookupTeid;
    var u1 := u.(teid := NO_TEID, relCause := InvalidCause);
    DeleteKeepsConnected(m, u);
    ReleaseEnds(DeleteSessionRsp(m, u.teid), u1, t);
    DropPut(m.ues, u.id, u1);
  }

  lemma ReleaseThenDeleteEnds(m: Mme, u: Ue, t: TimerSetup, w: Watch)
    requires Inv(m, w) && Live(m, u) && u.mm == Unregistered && ValidTeid(u.teid)
    ensures var m' := ReleaseThenDelete(m, u.teid, u.id, t, w);
            && WithoutUe(m, m', u)
            && m'.armed == WithoutTimersOf(if m.periodicTau then Armed(m.armed, t) else m.armed, ToIdle(u, m.periodicTau, t))
  {
    hide Inv, TablesSized, DeleteSessionRsp, ReleaseComplete;
    FoundByTeid(m, u, w);
    ReleaseMakesIdle(m, u, t);
    hide B.DeleteProc;
    var u1 := ToIdle(u, m.periodicTau, t).(tables := B.DeleteProc(u.tables));
    var m1 := ReleaseComplete(m, u.id, t);
    hide WithoutUe;
    DeleteEndsIdle(m1, u1);
    WithoutIdleUe(m, m1, DeleteSessionRsp(m1, u.teid), u, u1);
  }

  lemma WithoutIdleUe(m: Mme, m1: Mme, m2: Mme, u: Ue, u1: Ue)
    requires u1 == u.(enbKey := INVALID_ENB_KEY, reach := u1.reach, ecm := Idle, tables := u1.tables)
    requires m1 == m.(byEnb := m.byEnb - {u.enbKey}, ues := m.ues[u.id := u1], armed := m1.armed, sent := m1.sent,
                      stats := m.stats.(connected := if u.ecm == Connected then Minus(m.stats.connected) else m.stats.connected))
    requires WithoutUe(m1, m2, u1)
    ensures WithoutUe(m, m2, u)
  {
    assert CountersAfter(m1.stats, u1) == CountersAfter(m.stats, u);
    hide CountersAfter, NonZeroGuti, Minus;
    DropPut(m.ues, u.id, u1);
    DropBoth(m.byEnb, u.enbKey);
  }

  lemma DropBoth(byEnb: map<nat, UeId>, k: nat)
    ensures byEnb - {k} - {INVALID_ENB_KEY, INVALID_ENB_KEY} == byEnb - {k, INVALID_ENB_KEY}
  {
  }

  /** The S1 release overwrites the number of the reachability timer of an idle UE: nobody can stop
      it any more. */
  ghost predicate LosesReachTimer(m: Mme, u: Ue) {
    u.ecm == Idle && m.periodicTau && u.reach != INACTIVE && u.reach in m.armed && u.reach != u.detach && u.reach != u.setup
  }

  /** Both orders end with the context gone from the primary table, with the entries of its keys gone
      from the four indexes, with the same counters and with all other contexts as they were. They also
      end with the same timers running, namely those that are not the UE's, unless the UE was idle with
      its reachability timer running. */
  lemma EitherOrderRemoves(m: Mme, u: Ue, t: TimerSetup, w: Watch)
    requires Inv(m, w) && Live(m, u) && u.mm == Unregistered && ValidTeid(u.teid) && FreshTimer(m, t)
    ensures var a, b := DeleteThenRelease(m, u.teid, u.id, t, w), ReleaseThenDelete(m, u.teid, u.id, t, w);
            && WithoutUe(m, a, u) && WithoutUe(m, b, u)
            && a.armed == WithoutTimersOf(m.armed, u)
            && (b.armed == a.armed <==> !LosesReachTimer(m, u))
            && (LosesReachTimer(m, u) ==> b.armed == a.armed + {u.reach})
  {
    DeleteThenReleaseEnds(m, u, t, w);
    ReleaseThenDeleteEnds(m, u, t, w);
    InvUe(m, u.id, w);
    hide Inv, B.TablesOk, DeleteThenRelease, ReleaseThenDelete, WithoutUe, B.WellSized;
    TimersAfter(m, u, t);
  }

  lemma TimersAfter(m: Mme, u: Ue, t: TimerSetup)
    requires FreshTimer(m, t) && TimersOk(u)
    ensures var a := WithoutTimersOf(m.armed, u);
            var b := WithoutTimersOf(if m.periodicTau then Armed(m.armed, t) else m.armed, ToIdle(u, m.periodicTau, t));
            && (b == a <==> !LosesReachTimer(m, u))
            && (LosesReachTimer(m, u) ==> b == a + {u.reach})
  {
    if m.periodicTau {
      assert StopTimer(Armed(m.armed, t), TimerSet(t)) == m.armed;
      var c := StopTimer(StopTimer(m.armed, u.detach), u.setup);
      assert WithoutTimersOf(m.armed, u) == StopTimer(c, u.reach);
      if LosesReachTimer(m, u) {
        assert c == StopTimer(c, u.reach) + {u.reach};
      }
    }
  }

  /** What the indexes still say about a context that is gone: no valid TEID or eNB key leads to it,
      and no valid IMSI or GUTI if and only if none did so by mistake before. */
  ghost predicate OnlyStaleLeft(m: Mme, m': Mme, id: UeId) {
    && id !in m'.ues
    && Unreached(m'.byTeid, id, ValidTeid)
    && Unreached(m'.byEnb, id, ValidEnbKey)
    && (Unreached(m'.byImsi, id, ValidImsi) <==> forall imsi :: ValidImsi(imsi) ==> !StaleImsi(m, imsi, id))
    && (Unreached(m'.byGuti, id, ValidGuti) <==> forall guti :: ValidGuti(guti) ==> !StaleGuti(m, guti, id))
  }

  /** After either order nothing leads to the context but what NAS had made stale before. */
  lemma EitherOrderUnreachable(m: Mme, u: Ue, t: TimerSetup, w: Watch)
    requires Inv(m, w) && Live(m, u) && u.mm == Unregistered && ValidTeid(u.teid) && FreshTimer(m, t)
    ensures OnlyStaleLeft(m, DeleteThenRelease(m, u.teid, u.id, t, w), u.id)
    ensures OnlyStaleLeft(m, ReleaseThenDelete(m, u.teid, u.id, t, w), u.id)
  {
    hide DeleteThenRelease, ReleaseThenDelete, WithoutUe, OnlyStaleLeft, UesOk, StatsOk, HistoryOk;
    EitherOrderRemoves(m, u, t, w);
    WithoutLeavesStale(m, DeleteThenRelease(m, u.teid, u.id, t, w), u);
    WithoutLeavesStale(m, ReleaseThenDelete(m, u.teid, u.id, t, w), u);
  }

  lemma WithoutLeavesStale(m: Mme, m': Mme, u: Ue)
    requires IndexOk(m) && Live(m, u) && WithoutUe(m, m', u)
    ensures OnlyStaleLeft(m, m', u.id)
  {
    hide Indexed, Stale, Unreached;
    DropUnreached(m.byTeid, m'.byTeid, m.ues, TeidOf, ValidTeid, u.id);
    EnbEntriesLeft(m, m', u);
    DropUnreached(m.byEnb, m'.byEnb, m.ues, EnbKeyOf, ValidEnbKey, u.id);
    DropLeavesStale(m.byImsi, m'.byImsi, m.ues, ImsiOf, ValidImsi, u.id);
    DropLeavesStale(m.byGuti, m'.byGuti, m.ues, GutiOf, ValidGuti, u.id);
  }

  lemma EnbEntriesLeft(m: Mme, m': Mme, u: Ue)
    requires WithoutUe(m, m', u)
    ensures forall k :: ValidEnbKey(k) && k in m'.byEnb ==> k in m.byEnb && m'.byEnb[k] == m.byEnb[k] && k != u.enbKey
  {
    forall k | ValidEnbKey(k) && k in m'.byEnb ensures k in m.byEnb && m'.byEnb[k] == m.byEnb[k] && k != u.enbKey {
      assert k in m'.byEnb - {INVALID_ENB_KEY};
    }
  }

  lemma DropUnreached<K(!new)>(table: map<K, UeId>, table': map<K, UeId>, ues: map<UeId, Ue>, key: Ue -> K, valid: K -> bool, id: UeId)
    requires Indexed(table, ues, key, valid) && id in ues
    requires forall k :: valid(k) && k in table' ==> k in table && table'[k] == table[k] && k != key(ues[id])
    ensures Unreached(table', id, valid)
  {
  }

  lemma DropLeavesStale<K(!new)>(table: map<K, UeId>, table': map<K, UeId>, ues: map<UeId, Ue>, key: Ue -> K, valid: K -> bool, id: UeId)
    requires id in ues
    requires forall k :: valid(k) && k in table' ==> k in table && table'[k] == table[k] && k != key(ues[id])
    requires forall k :: valid(k) && k in table && k != key(ues[id]) ==> k in table'
    ensures Unreached(table', id, valid) <==> forall k :: valid(k) ==> !Stale(table, ues, key, k, id)
  {
    if !Unreached(table', id, valid) {
      var k :| k in table' && valid(k) && table'[k] == id;
      assert Stale(table, ues, key, k, id);
    }
    if exists k :: valid(k) && Stale(table, ues, key, k, id) {
      var k :| valid(k) && Stale(table, ues, key, k, id);
      assert k in table' && table'[k] == id;
    }
  }
}
