/** What the operations on the bearer and PDN tables keep. */
module BearerProofs {
  import opened Common
  import opened Bearers

  // ---------------------------------------------------------------- cross links

  lemma EmptyTablesOk()
    ensures TablesOk(EmptyTables())
  {
  }

  /** Slot i holds a bearer exactly when some PDN connection lists it, and never two. */
  lemma SlotListedOnce(t: Tables, i: nat)
    requires CrossLinked(t) && i < BEARERS_PER_UE
    ensures t.bearers[i].Some? <==> exists c :: Lists(t, c, i)
    ensures forall c, d :: Lists(t, c, i) && Lists(t, d, i) ==> c == d
  {
    if t.bearers[i].Some? {
      assert Lists(t, t.bearers[i].value.pdnCxId, i);
    }
  }

  lemma CreatePdnKeeps(t: Tables, cid: nat, apn: Option<(nat, Arp)>)
    requires TablesOk(t) && cid < MAX_APN_PER_UE
    ensures TablesOk(CreatePdn(t, cid, apn))
  {
    var t' := CreatePdn(t, cid, apn);
    if t' != t {
      assert forall c, i :: 0 <= i < BEARERS_PER_UE ==> (Lists(t', c, i) <==> Lists(t, c, i) && c != cid);
      assert forall i :: 0 <= i < BEARERS_PER_UE && t.bearers[i].Some? ==> Lists(t, t.bearers[i].value.pdnCxId, i);
    }
  }

  lemma AddBearerKeeps(t: Tables, b: Bearer, cid: nat)
    requires TablesOk(t) && EbiInRange(b.ebi) && cid < MAX_APN_PER_UE && StateOk(b.state)
    ensures TablesOk(AddBearer(t, b, cid))
  {
    var t' := AddBearer(t, b, cid);
    if CanAdd(t, b.ebi, cid) {
      var k := b.ebi - EBI_FIRST;
      assert forall c :: !Lists(t, c, k);
      assert forall c, i :: 0 <= i < BEARERS_PER_UE ==>
          (Lists(t', c, i) <==> Lists(t, c, i) || (c == cid && i == k));
    }
  }

  lemma CreateBearerKeeps(t: Tables, cid: nat, ebi: nat)
    requires TablesOk(t) && cid < MAX_APN_PER_UE
    ensures TablesOk(CreateBearer(t, cid, ebi))
  {
    var lebi := ResolveEbi(t, ebi);
    if lebi != EBI_UNASSIGNED {
      AddBearerKeeps(t, NewBearer(lebi), cid);
    }
  }

  /** A bearer is taken exactly when its slot is free and its PDN connection exists: then it stands
      under its EBI, linked to that connection, and no other slot changes; a refused one changes
      neither table. */
  lemma CreateBearerEffect(t: Tables, cid: nat, ebi: nat)
    requires CrossLinked(t) && cid < MAX_APN_PER_UE
    ensures var t' := CreateBearer(t, cid, ebi);
            var e := ResolveEbi(t, ebi);
            && t'.procs == t.procs
            && (t' != t <==> t.pdns[cid].Some? && e != EBI_UNASSIGNED && t.bearers[e - EBI_FIRST].None?)
            && (t' != t ==>
                  && GetBearer(t', e).Some?
                  && GetBearer(t', e).value.ebi == e
                  && GetBearer(t', e).value.pdnCxId == cid
                  && GetBearer(t', e).value.state == STATE_NULL
                  && GetBearer(t', e).value.arp == t.pdns[cid].value.arp
                  && (forall f :: f != e ==> GetBearer(t', f) == GetBearer(t, f)))
  {
    var e := ResolveEbi(t, ebi);
    if e != EBI_UNASSIGNED && CanAdd(t, e, cid) {
      assert CreateBearer(t, cid, ebi).bearers[e - EBI_FIRST] != t.bearers[e - EBI_FIRST];
    }
  }

  /** A slot may be given another bearer as long as it keeps the EBI and the PDN connection. */
  lemma PutBearerKeeps(t: Tables, i: nat, b: Bearer)
    requires TablesOk(t) && i < BEARERS_PER_UE && t.bearers[i].Some?
    requires b.ebi == t.bearers[i].value.ebi && b.pdnCxId == t.bearers[i].value.pdnCxId && StateOk(b.state)
    ensures TablesOk(PutBearer(t, i, b))
  {
    var t' := PutBearer(t, i, b);
    assert forall c, j :: 0 <= j < BEARERS_PER_UE ==> (Lists(t', c, j) <==> Lists(t, c, j));
  }

  lemma PutPdnKeeps(t: Tables, cid: nat, p: Pdn)
    requires TablesOk(t) && cid < MAX_APN_PER_UE && t.pdns[cid].Some? && p.links == t.pdns[cid].value.links
    ensures TablesOk(PutPdn(t, cid, p))
  {
    var t' := PutPdn(t, cid, p);
    assert forall c, j :: 0 <= j < BEARERS_PER_UE ==> (Lists(t', c, j) <==> Lists(t, c, j));
  }

  lemma PutProcsKeeps(t: Tables, procs: seq<Proc>)
    requires TablesOk(t) && forall p :: 0 <= p < |procs| ==> |procs[p].status| == BEARERS_PER_UE
    ensures TablesOk(t.(procs := procs))
  {
    var t' := t.(procs := procs);
    assert forall c, j :: 0 <= j < BEARERS_PER_UE ==> (Lists(t', c, j) <==> Lists(t, c, j));
  }

  lemma NasCreateBearerKeeps(t: Tables, cid: nat, ebi: nat, isDefault: bool, qci: nat)
    requires TablesOk(t)
    ensures NasCreateBearer(t, cid, ebi, isDefault, qci).Some? ==> TablesOk(NasCreateBearer(t, cid, ebi, isDefault, qci).value)
  {
    if NasCreateBearer(t, cid, ebi, isDefault, qci).Some? {
      var b, i := GetBearer(t, ebi), ebi - EBI_FIRST;
      if b.None? || b.value.esm == EsmInactive {
        CreateBearerKeeps(t, cid, ebi);
        var t1 := if b.Some? then t else CreateBearer(t, cid, ebi);
        PutBearerKeeps(t1, i, t1.bearers[i].value.(qci := qci));
        var t2 := PutBearer(t1, i, t1.bearers[i].value.(qci := qci));
        PutPdnKeeps(t2, cid, t2.pdns[cid].value.(defaultEbi := ebi));
      }
    }
  }

  lemma S1ReleaseKeeps(t: Tables, ebi: nat)
    requires TablesOk(t)
    ensures TablesOk(S1Release(t, ebi))
  {
    var b := GetBearer(t, ebi);
    if b.Some? {
      PutBearerKeeps(t, ebi - EBI_FIRST, b.value.(state := STATE_S1_RELEASED, enbTeid := 0));
    }
  }

  /** A bearer of NAS is taken if and only if its slot is free or holds an inactive one. Then the slot
      holds it, with its QCI and, if it was there, its PDN connection. A PDN connection gets the EBI as its
      default if and only if it is the one named, the bearer is a default one and was taken. All other
      slots stay as they are. */
  lemma NasCreateEffect(t: Tables, cid: nat, ebi: nat, isDefault: bool, qci: nat, c: nat, j: nat)
    requires TablesOk(t) && NasCreateBearer(t, cid, ebi, isDefault, qci).Some? && c < MAX_APN_PER_UE && j < BEARERS_PER_UE
    ensures var t', i := NasCreateBearer(t, cid, ebi, isDefault, qci).value, ebi - EBI_FIRST;
            var taken := t.bearers[i].Some? ==> t.bearers[i].value.esm == EsmInactive;
            && |t'.pdns| == MAX_APN_PER_UE && |t'.bearers| == BEARERS_PER_UE
            && (!taken ==> t' == t)
            && (taken ==>
                  && t'.bearers[i].Some?
                  && t.pdns[cid].Some?
                  && t'.bearers[i].value ==
                     if t.bearers[i].Some? then t.bearers[i].value.(qci := qci)
                     else Bearer(ebi, cid, State(false, false, false, false), EsmInactive, qci, t.pdns[cid].value.arp, 0, 0))
            && (j != i ==> t'.bearers[j] == t.bearers[j])
            && (t'.pdns[c].Some? <==> t.pdns[c].Some?)
            && (t.pdns[c].Some? ==>
                  t'.pdns[c].value.defaultEbi == if c == cid && isDefault && taken then ebi else t.pdns[c].value.defaultEbi)
  {
    var b := GetBearer(t, ebi);
    if b.None? {
      assert CanAdd(t, ebi, cid);
    }
  }

  lemma SetEsmStatusKeeps(t: Tables, ebi: nat, status: EsmState)
    requires TablesOk(t)
    ensures TablesOk(SetEsmStatus(t, ebi, status))
  {
    var b := GetBearer(t, ebi);
    if b.Some? {
      PutBearerKeeps(t, ebi - EBI_FIRST, b.value.(esm := status));
    }
  }

  lemma StartSessionKeeps(t: Tables, cid: nat)
    requires TablesOk(t)
    ensures StartSession(t, cid).Some? ==> TablesOk(StartSession(t, cid).value)
  {
    if StartSession(t, cid).Some? {
      var pdn := t.pdns[cid].value;
      var b := GetBearer(t, pdn.defaultEbi).value;
      PutBearerKeeps(t, pdn.defaultEbi - EBI_FIRST, b.(state := b.state.(mme := true)));
      PutPdnKeeps(PutBearer(t, pdn.defaultEbi - EBI_FIRST, b.(state := b.state.(mme := true))), cid, pdn.(sgwTeid := 0));
    }
  }

  lemma SessionCreatedKeeps(t: Tables, first: bool, sgwTeid: nat, m: SessionBearer)
    requires TablesOk(t)
    ensures SessionCreated(t, first, sgwTeid, m).Some? ==> TablesOk(SessionCreated(t, first, sgwTeid, m).value)
  {
    if SessionCreated(t, first, sgwTeid, m).Some? {
      var b := GetBearer(t, m.ebi).value;
      var t1 := if first then PutPdn(t, b.pdnCxId, t.pdns[b.pdnCxId].value.(sgwTeid := sgwTeid)) else t;
      if first {
        PutPdnKeeps(t, b.pdnCxId, t.pdns[b.pdnCxId].value.(sgwTeid := sgwTeid));
      }
      var b1 := b.(state := b.state.(sgw := true), sgwTeid := m.sgwTeid);
      PutBearerKeeps(t1, m.ebi - EBI_FIRST, if m.qos.Some? then b1.(qci := m.qos.value.0, arp := m.qos.value.1) else b1);
    }
  }

  lemma {:induction false} SessionsCreatedKeeps(t: Tables, sgwTeid: nat, ms: seq<SessionBearer>, n: nat)
    requires TablesOk(t) && n <= |ms|
    ensures SessionsCreated(t, sgwTeid, ms, n).Some? ==> TablesOk(SessionsCreated(t, sgwTeid, ms, n).value)
  {
    if n > 0 {
      SessionsCreatedKeeps(t, sgwTeid, ms, n - 1);
      var r := SessionsCreated(t, sgwTeid, ms, n - 1);
      if r.Some? {
        SessionCreatedKeeps(r.value, n == 1, sgwTeid, ms[n - 1]);
      }
    }
  }

  lemma ErabUpKeeps(t: Tables, m: ErabSetup)
    requires TablesOk(t)
    ensures ErabUp(t, m).Some? ==> TablesOk(ErabUp(t, m).value)
  {
    var b := GetBearer(t, m.ebi);
    if b.Some? && b.value.state.sgw && b.value.state.mme {
      PutBearerKeeps(t, m.ebi - EBI_FIRST, b.value.(enbTeid := m.enbTeid, state := b.value.state.(enb := true)));
    }
  }

  lemma ErabDownKeeps(t: Tables, ebi: nat)
    requires TablesOk(t)
    ensures ErabDown(t, ebi).Some? ==> TablesOk(ErabDown(t, ebi).value)
  {
    var b := GetBearer(t, ebi);
    if b.Some? && b.value.state.sgw && b.value.state.mme {
      PutBearerKeeps(t, ebi - EBI_FIRST, b.value.(state := b.value.state.(enb := false, mme := false)));
    }
  }

  lemma ErabResetKeeps(t: Tables, ebi: nat)
    requires TablesOk(t)
    ensures TablesOk(ErabReset(t, ebi))
  {
    var b := GetBearer(t, ebi);
    if b.Some? && b.value.state.mme {
      PutBearerKeeps(t, ebi - EBI_FIRST, b.value.(state := STATE_NULL));
    }
  }

  lemma {:induction false} ErabsUpKeeps(t: Tables, ms: seq<ErabSetup>, n: nat)
    requires TablesOk(t) && n <= |ms|
    ensures ErabsUp(t, ms, n).Some? ==> TablesOk(ErabsUp(t, ms, n).value.0)
  {
    if n > 0 {
      ErabsUpKeeps(t, ms, n - 1);
      var r := ErabsUp(t, ms, n - 1);
      if r.Some? {
        ErabUpKeeps(r.value.0, ms[n - 1]);
      }
    }
  }

  lemma {:induction false} ErabsDownKeeps(t: Tables, due: bool, ebis: seq<nat>, n: nat)
    requires TablesOk(t) && n <= |ebis|
    ensures ErabsDown(t, due, ebis, n).Some? ==> TablesOk(ErabsDown(t, due, ebis, n).value.0)
  {
    if n > 0 {
      ErabsDownKeeps(t, due, ebis, n - 1);
      var r := ErabsDown(t, due, ebis, n - 1);
      if r.Some? {
        ErabDownKeeps(r.value.0, ebis[n - 1]);
      }
    }
  }

  lemma {:induction false} ErabsResetKeeps(t: Tables, ms: seq<ErabSetup>, n: nat)
    requires TablesOk(t) && n <= |ms|
    ensures TablesOk(ErabsReset(t, ms, n))
  {
    if n > 0 {
      ErabsResetKeeps(t, ms, n - 1);
      ErabResetKeeps(ErabsReset(t, ms, n - 1), ms[n - 1].ebi);
    }
  }

  lemma ErabSetupRspKeeps(t: Tables, ups: seq<ErabSetup>, downs: seq<nat>)
    requires TablesOk(t)
    ensures ErabSetupRsp(t, ups, downs).Some? ==> TablesOk(ErabSetupRsp(t, ups, downs).value.0)
  {
    ErabsUpKeeps(t, ups, |ups|);
    var u := ErabsUp(t, ups, |ups|);
    if u.Some? {
      ErabsDownKeeps(u.value.0, u.value.1, downs, |downs|);
      var d := ErabsDown(u.value.0, u.value.1, downs, |downs|);
      if d.Some? {
        ErabsResetKeeps(d.value.0, ups, |ups|);
      }
    }
  }

  lemma RequestBearerKeeps(t: Tables, cid: nat, m: BearerRequest)
    requires TablesOk(t) && cid < MAX_APN_PER_UE && t.procs != []
    ensures RequestBearer(t, cid, m).Some? ==> TablesOk(RequestBearer(t, cid, m).value)
  {
    var ebi := ResolveEbi(t, m.ebi);
    if ebi != EBI_UNASSIGNED {
      CreateBearerKeeps(t, cid, m.ebi);
      var i := ebi - EBI_FIRST;
      var t1 := CreateBearer(t, cid, m.ebi);
      if CanAdd(t, ebi, cid) {
        PutBearerKeeps(t1, i, Requested(t1.bearers[i].value, m));
      }
      var t2 := if CanAdd(t, ebi, cid) then PutBearer(t1, i, Requested(t1.bearers[i].value, m)) else t1;
      PutProcsKeeps(t2, RequestBearer(t, cid, m).value.procs);
    }
  }

  lemma {:induction false} RequestBearersKeep(t: Tables, cid: nat, ms: seq<BearerRequest>, n: nat)
    requires TablesOk(t) && cid < MAX_APN_PER_UE && t.procs != [] && n <= |ms|
    ensures RequestBearers(t, cid, ms, n).Some? ==> TablesOk(RequestBearers(t, cid, ms, n).value)
  {
    if n > 0 {
      RequestBearersKeep(t, cid, ms, n - 1);
      var r := RequestBearers(t, cid, ms, n - 1);
      if r.Some? {
        RequestBearerKeeps(r.value, cid, ms[n - 1]);
      }
    }
  }

  lemma BearerHasPdn(t: Tables, ebi: nat)
    requires CrossLinked(t) && GetBearer(t, ebi).Some?
    ensures var cid := GetBearer(t, ebi).value.pdnCxId; 0 <= cid < MAX_APN_PER_UE && t.pdns[cid].Some?
  {
  }

  lemma StartSized(t: Tables, trxn: nat)
    requires WellSized(t)
    ensures WellSized(StartProc(t, trxn))
  {
  }

  lemma StartProcKeeps(t: Tables, trxn: nat)
    requires TablesOk(t)
    ensures TablesOk(StartProc(t, trxn))
  {
    PutProcsKeeps(t, StartProc(t, trxn).procs);
  }

  lemma DeleteProcKeeps(t: Tables)
    requires TablesOk(t)
    ensures TablesOk(DeleteProc(t))
  {
    PutProcsKeeps(t, DeleteProc(t).procs);
  }

  lemma AnswerKeeps(t: Tables, ebi: nat, success: bool)
    requires TablesOk(t)
    ensures Answer(t, ebi, success).Some? ==> TablesOk(Answer(t, ebi, success).value.t)
  {
    var a := Answer(t, ebi, success);
    if a.Some? {
      PutProcsKeeps(t, a.value.t.procs);
    }
  }

  // ---------------------------------------------------------------- E-RAB list

  /** The list names exactly those of the first n bearers that the gateway has created, each once, in
      strictly increasing EBI order, with the bearer's own QoS and tunnel. */
  ghost predicate ExactErabs(bs: seq<Option<Bearer>>, es: seq<ErabItem>, n: nat)
    requires n <= |bs|
  {
    && |es| <= n
    && (forall k, l :: 0 <= k < l < |es| ==> es[k].ebi < es[l].ebi)
    && (forall k :: 0 <= k < |es| ==>
          && EBI_FIRST <= es[k].ebi < n + EBI_FIRST
          && bs[es[k].ebi - EBI_FIRST].Some?
          && bs[es[k].ebi - EBI_FIRST].value.state.sgw
          && es[k] == ErabOf(bs[es[k].ebi - EBI_FIRST].value))
    && (forall i :: 0 <= i < n && bs[i].Some? && bs[i].value.state.sgw ==> ErabOf(bs[i].value) in es)
  }

  lemma {:induction false} ErabsExact(t: Tables, n: nat)
    requires CrossLinked(t) && n <= BEARERS_PER_UE
    ensures ExactErabs(t.bearers, Erabs(t.bearers, n), n)
  {
    if n > 0 {
      ErabsExact(t, n - 1);
      assert t.bearers[n - 1].Some? ==> t.bearers[n - 1].value.ebi == n - 1 + EBI_FIRST;
      hide ExactErabs, CrossLinked;
      OneMoreErab(t.bearers, Erabs(t.bearers, n - 1), n);
    }
  }

  lemma OneMoreErab(bs: seq<Option<Bearer>>, es: seq<ErabItem>, n: nat)
    requires 0 < n <= |bs| && ExactErabs(bs, es, n - 1)
    requires bs[n - 1].Some? ==> bs[n - 1].value.ebi == n - 1 + EBI_FIRST
    ensures bs[n - 1].Some? && bs[n - 1].value.state.sgw ==> ExactErabs(bs, es + [ErabOf(bs[n - 1].value)], n)
    ensures !(bs[n - 1].Some? && bs[n - 1].value.state.sgw) ==> ExactErabs(bs, es, n)
  {
    if bs[n - 1].Some? && bs[n - 1].value.state.sgw {
      var e := ErabOf(bs[n - 1].value);
      forall i | 0 <= i < n && bs[i].Some? && bs[i].value.state.sgw ensures ErabOf(bs[i].value) in es + [e] {
        assert i == n - 1 || ErabOf(bs[i].value) in es;
      }
    }
  }
}
