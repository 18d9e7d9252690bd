/** A UE context as the MME holds it in memory, and what the handlers do to its PDN and bearer
    tables in place. */
module UeContexts {
  import opened Common
  import opened UeModel
  import B = Bearers
  import Handlers
  import Registry

  class UeContext {
    ghost const serial: nat
    const id: UeId
    var enbKey: nat
    var enbUeId: nat
    var imsi: nat
    var teid: nat
    var guti: Guti
    var mm: MmState
    var ecm: EcmState
    var relCause: Cause
    var reach: TimerId
    var detach: TimerId
    var setup: TimerId
    var activePdns: int
    var pdns: seq<Option<B.Pdn>>
    var bearers: seq<Option<B.Bearer>>
    var procs: seq<B.Proc>

    ghost function Tables(): (t: B.Tables)
      reads this
    {
      B.Tables(pdns, bearers, procs)
    }

    ghost function Value(): (u: Ue)
      reads this
    {
      Ue(serial, id, enbKey, enbUeId, imsi, teid, guti, mm, ecm, relCause, reach, detach, setup, activePdns, Tables())
    }

    constructor (ghost serial: nat, id: UeId)
      ensures Value() == Handlers.NewUe(serial, id)
    {
      this.serial, this.id := serial, id;
      enbKey, enbUeId, imsi, teid, guti := INVALID_ENB_KEY, 0, INVALID_IMSI, NO_TEID, CLEARED_GUTI;
      mm, ecm, relCause := Unregistered, Idle, InvalidCause;
      reach, detach, setup, activePdns := INACTIVE, INACTIVE, INACTIVE, 0;
      pdns, bearers, procs := seq(B.MAX_APN_PER_UE, _ => None), seq(B.BEARERS_PER_UE, _ => None), [];
    }

    // ------------------------------------------------------------- identities and connection

    /** The keys as an update of the registry leaves them. */
    method SetKeys(enbKey: nat, imsi: nat, teid: nat, guti: Guti)
      modifies this
      ensures Value() == Registry.Rekeyed(old(Value()), enbKey, imsi, teid, guti)
    {
      if ValidEnbKey(enbKey) {
        this.enbKey := enbKey;
      }
      this.imsi := imsi;
      this.teid := teid;
      if !SameGutiButMnc(guti, this.guti) {
        this.guti := guti;
      }
    }

    /** The context forgets the eNB and, if the timer was to be started, notes its number. */
    method GoIdle(started: bool, timer: TimerId)
      modifies this
      ensures Value() == old(Value()).(enbKey := INVALID_ENB_KEY, ecm := Idle, reach := if started then timer else old(reach))
    {
      enbKey := INVALID_ENB_KEY;
      if started {
        reach := timer;
      }
      ecm := Idle;
    }

    method GoConnected()
      modifies this
      ensures Value() == old(Value()).(ecm := Connected, reach := INACTIVE, detach := INACTIVE)
    {
      ecm := Connected;
      reach := INACTIVE;
      detach := INACTIVE;
    }

    // ------------------------------------------------------------- PDN and bearer creation

    /** `mme_app_get_free_bearer_id`. */
    method FreeBearerId() returns (ebi: nat)
      requires |bearers| == B.BEARERS_PER_UE
      ensures ebi == B.FreeEbi(Tables())
    {
      var i := 0;
      while i < B.BEARERS_PER_UE
        invariant i <= B.BEARERS_PER_UE && B.FirstFree(bearers, 0) == B.FirstFree(bearers, i)
      {
        if bearers[i].None? {
          return i + B.EBI_FIRST;
        }
        i := i + 1;
      }
      return B.EBI_UNASSIGNED;
    }

    /** `mme_app_create_pdn_context`: all bearer indexes of a new PDN connection are -1. */
    method CreatePdnContext(cid: nat, apn: Option<(nat, B.Arp)>)
      requires cid < |pdns|
      modifies this
      ensures Value() == old(Value()).(tables := B.CreatePdn(old(Tables()), cid, apn))
    {
      if pdns[cid].Some? || apn.None? {
        return;
      }
      var links: seq<int> := [];
      while |links| < B.BEARERS_PER_UE
        invariant |links| <= B.BEARERS_PER_UE && forall i :: 0 <= i < |links| ==> links[i] == -1
      {
        links := links + [-1];
      }
      assert links == B.NoLinks();
      pdns := pdns[cid := Some(B.Pdn(apn.value.0, B.EBI_UNASSIGNED, 0, apn.value.1, links))];
    }

    /** `mme_app_add_bearer_context`; a refused bearer changes nothing. */
    method AddBearerContext(b: B.Bearer, cid: nat)
      requires B.WellSized(Tables()) && B.EbiInRange(b.ebi) && cid < B.MAX_APN_PER_UE
      modifies this
      ensures Value() == old(Value()).(tables := B.AddBearer(old(Tables()), b, cid))
    {
      var i := b.ebi - B.EBI_FIRST;
      if bearers[i].None? {
        if pdns[cid].Some? {
          var pdn := pdns[cid].value;
          var b' := b.(pdnCxId := cid, arp := pdn.arp);
          pdns := pdns[cid := Some(pdn.(links := pdn.links[i := i]))];
          bearers := bearers[i := Some(b')];
        }
      }
    }

    /** `mme_app_create_bearer_context`. */
    method CreateBearerContext(cid: nat, ebi: nat)
      requires B.WellSized(Tables()) && cid < B.MAX_APN_PER_UE
      modifies this
      ensures Value() == old(Value()).(tables := B.CreateBearer(old(Tables()), cid, ebi))
    {
      var lebi := ebi;
      if !B.EbiInRange(ebi) {
        lebi := FreeBearerId();
      }
      if B.EBI_UNASSIGNED != lebi {
        AddBearerContext(B.NewBearer(lebi), cid);
      }
    }

    /** `esm_ebr_context_create`; false when there is no such PDN connection or slot. */
    method NasCreateBearer(cid: nat, ebi: nat, isDefault: bool, qci: nat) returns (ok: bool)
      requires B.WellSized(Tables())
      modifies this
      ensures ok == B.NasCreateBearer(old(Tables()), cid, ebi, isDefault, qci).Some?
      ensures ok ==> Value() == old(Value()).(tables := B.NasCreateBearer(old(Tables()), cid, ebi, isDefault, qci).value)
    {
      if cid >= B.MAX_APN_PER_UE || !B.EbiInRange(ebi) || pdns[cid].None? {
        return false;
      }
      var bidx := ebi - B.EBI_FIRST;
      if bearers[bidx].Some? && bearers[bidx].value.esm != B.EsmInactive {
        return true;
      }
      if bearers[bidx].None? {
        CreateBearerContext(cid, ebi);
      }
      bearers := bearers[bidx := Some(bearers[bidx].value.(qci := qci))];
      if isDefault {
        pdns := pdns[cid := Some(pdns[cid].value.(defaultEbi := ebi))];
      }
      return true;
    }

    method BearerContext(ebi: nat) returns (b: Option<B.Bearer>)
      requires |bearers| == B.BEARERS_PER_UE
      ensures b == B.GetBearer(Tables(), ebi)
    {
      if B.EbiInRange(ebi) {
        b := bearers[ebi - B.EBI_FIRST];
      } else {
        b := None;
      }
    }

    /** `mme_app_bearer_context_s1_release_enb_informations`. */
    method S1Release(ebi: nat)
      requires |bearers| == B.BEARERS_PER_UE
      modifies this
      ensures Value() == old(Value()).(tables := B.S1Release(old(Tables()), ebi))
    {
      var b := BearerContext(ebi);
      if b.Some? {
        bearers := bearers[ebi - B.EBI_FIRST := Some(b.value.(state := B.STATE_S1_RELEASED, enbTeid := 0))];
      }
    }

    method SetEsmStatus(ebi: nat, status: B.EsmState)
      requires |bearers| == B.BEARERS_PER_UE
      modifies this
      ensures Value() == old(Value()).(tables := B.SetEsmStatus(old(Tables()), ebi, status))
    {
      var b := BearerContext(ebi);
      if b.Some? {
        bearers := bearers[ebi - B.EBI_FIRST := Some(b.value.(esm := status))];
      }
    }

    // ------------------------------------------------------------- sessions

    /** What a create-session request notes in the tables; false when it dereferences NULL. */
    method StartSession(cid: nat) returns (ok: bool)
      requires B.WellSized(Tables())
      modifies this
      ensures ok == B.StartSession(old(Tables()), cid).Some?
      ensures ok ==> Value() == old(Value()).(tables := B.StartSession(old(Tables()), cid).value)
    {
      if cid >= B.MAX_APN_PER_UE || pdns[cid].None? {
        return false;
      }
      var pdn := pdns[cid].value;
      var b := BearerContext(pdn.defaultEbi);
      if b.None? {
        return false;
      }
      bearers := bearers[pdn.defaultEbi - B.EBI_FIRST := Some(b.value.(state := b.value.state.(mme := true)))];
      pdns := pdns[cid := Some(pdn.(sgwTeid := 0))];
      return true;
    }

    /** One bearer context of a create-session response. */
    method SessionCreated(first: bool, sgwTeid: nat, m: B.SessionBearer) returns (ok: bool)
      requires B.WellSized(Tables())
      modifies this
      ensures ok == B.SessionCreated(old(Tables()), first, sgwTeid, m).Some?
      ensures ok ==> Value() == old(Value()).(tables := B.SessionCreated(old(Tables()), first, sgwTeid, m).value)
    {
      if m.ebi >= B.BEARERS_PER_UE || !m.accepted || !m.onS1u {
        return false;
      }
      var found := BearerContext(m.ebi);
      if found.None? {
        return false;
      }
      var b := found.value;
      if first {
        if !(0 <= b.pdnCxId < B.MAX_APN_PER_UE) || pdns[b.pdnCxId].None? {
          return false;
        }
        pdns := pdns[b.pdnCxId := Some(pdns[b.pdnCxId].value.(sgwTeid := sgwTeid))];
      }
      b := b.(state := b.state.(sgw := true), sgwTeid := m.sgwTeid);
      if m.qos.Some? {
        b := b.(qci := m.qos.value.0, arp := m.qos.value.1);
      }
      bearers := bearers[m.ebi - B.EBI_FIRST := Some(b)];
      return true;
    }

    method SessionsCreated(sgwTeid: nat, ms: seq<B.SessionBearer>) returns (ok: bool)
      requires B.WellSized(Tables())
      modifies this
      ensures ok == B.SessionsCreated(old(Tables()), sgwTeid, ms, |ms|).Some?
      ensures ok ==> Value() == old(Value()).(tables := B.SessionsCreated(old(Tables()), sgwTeid, ms, |ms|).value)
    {
      var i := 0;
      while i < |ms|
        invariant i <= |ms| && B.SessionsCreated(old(Tables()), sgwTeid, ms, i) == Some(Tables())
        invariant Value() == old(Value()).(tables := Tables())
      {
        var done := SessionCreated(i == 0, sgwTeid, ms[i]);
        if !done {
          NoneStays(old(Tables()), sgwTeid, ms, i + 1);
          return false;
        }
        i := i + 1;
      }
      return true;
    }

    /** The E-RABs of an initial context setup request. */
    method CollectErabs() returns (erabs: seq<B.ErabItem>)
      requires |bearers| == B.BEARERS_PER_UE
      ensures erabs == B.Erabs(bearers, B.BEARERS_PER_UE)
    {
      erabs := [];
      var i := 0;
      while i < B.BEARERS_PER_UE
        invariant i <= B.BEARERS_PER_UE && erabs == B.Erabs(bearers, i)
      {
        if bearers[i].Some? {
          var b := bearers[i].value;
          if b.state.sgw {
            erabs := erabs + [B.ErabItem(b.ebi, b.qci, b.arp, b.sgwTeid)];
          }
        }
        i := i + 1;
      }
    }

    // ------------------------------------------------------------- E-RAB setup

    method ErabsUp(ms: seq<B.ErabSetup>) returns (ok: bool, due: bool)
      requires |bearers| == B.BEARERS_PER_UE
      modifies this
      ensures ok == B.ErabsUp(old(Tables()), ms, |ms|).Some?
      ensures ok ==> B.ErabsUp(old(Tables()), ms, |ms|).value == (Tables(), due) && Value() == old(Value()).(tables := Tables())
    {
      due := false;
      var i := 0;
      while i < |ms|
        invariant i <= |ms| && |bearers| == B.BEARERS_PER_UE && B.ErabsUp(old(Tables()), ms, i) == Some((Tables(), due))
        invariant Value() == old(Value()).(tables := Tables())
      {
        var b := BearerContext(ms[i].ebi);
        if b.None? || (b.value.state.sgw && !b.value.state.mme) {
          UpNoneStays(old(Tables()), ms, i + 1);
          return false, due;
        }
        if b.value.state.sgw {
          bearers := bearers[ms[i].ebi - B.EBI_FIRST :=
            Some(b.value.(enbTeid := ms[i].enbTeid, state := b.value.state.(enb := true)))];
          if b.value.esm == B.EsmActive {
            due := true;
          }
        }
        i := i + 1;
      }
      return true, due;
    }

    method ErabsDown(before: bool, ebis: seq<nat>) returns (ok: bool, due: bool)
      requires |bearers| == B.BEARERS_PER_UE
      modifies this
      ensures ok == B.ErabsDown(old(Tables()), before, ebis, |ebis|).Some?
      ensures ok ==> B.ErabsDown(old(Tables()), before, ebis, |ebis|).value == (Tables(), due) && Value() == old(Value()).(tables := Tables())
    {
      due := before;
      var i := 0;
      while i < |ebis|
        invariant i <= |ebis| && |bearers| == B.BEARERS_PER_UE && B.ErabsDown(old(Tables()), before, ebis, i) == Some((Tables(), due))
        invariant Value() == old(Value()).(tables := Tables())
      {
        var b := BearerContext(ebis[i]);
        if b.None? || (b.value.state.sgw && !b.value.state.mme) {
          DownNoneStays(old(Tables()), before, ebis, i + 1);
          return false, due;
        }
        if b.value.state.sgw {
          bearers := bearers[ebis[i] - B.EBI_FIRST := Some(b.value.(state := b.value.state.(enb := false, mme := false)))];
          due := true;
        }
        i := i + 1;
      }
      return true, due;
    }

    /** The first loop of the response half: the bearers that are up are entered as accepted. */
    method ErabsAccept(ms: seq<B.ErabSetup>) returns (r: B.Response)
      requires |bearers| == B.BEARERS_PER_UE
      ensures r == B.ErabsAccepted(Tables(), ms, |ms|)
    {
      r := B.Response(0, None, B.NoCause, 0, None);
      var i := 0;
      while i < |ms|
        invariant i <= |ms| && r == B.ErabsAccepted(Tables(), ms, i)
      {
        var b := BearerContext(ms[i].ebi);
        if b.Some? && b.value.state.enb {
          r := r.(cause := B.RequestAccepted, count := r.count + 1,
                  slot0 := Some(B.RspBearer(ms[i].ebi, true, b.value.enbTeid, b.value.sgwTeid)));
        }
        i := i + 1;
      }
    }

    /** The second loop, over the same list: what the MME has created is entered as rejected. */
    method ErabsReject(r0: B.Response, ms: seq<B.ErabSetup>) returns (r: B.Response)
      requires |bearers| == B.BEARERS_PER_UE
      modifies this
      ensures Value() == old(Value()).(tables := B.ErabsReset(old(Tables()), ms, |ms|))
      ensures r == B.ErabsRejected(old(Tables()), r0, ms, |ms|)
    {
      r := r0;
      var i := 0;
      while i < |ms|
        invariant i <= |ms| && |bearers| == B.BEARERS_PER_UE && Tables() == B.ErabsReset(old(Tables()), ms, i)
        invariant Value() == old(Value()).(tables := Tables()) && r == B.ErabsRejected(old(Tables()), r0, ms, i)
      {
        var b := BearerContext(ms[i].ebi);
        if b.Some? && b.value.state.mme {
          r := r.(cause := if r.cause == B.RequestAccepted then B.RequestAcceptedPartially else B.RequestRejected,
                  count := r.count + 1, slot0 := Some(B.Overwritten(r.slot0, ms[i].ebi)));
          bearers := bearers[ms[i].ebi - B.EBI_FIRST := Some(b.value.(state := B.STATE_NULL))];
        }
        i := i + 1;
      }
    }

    /** `mme_app_handle_e_rab_setup_rsp`: the tables, and the create-bearer response if one is sent. */
    method ErabSetupRsp(ups: seq<B.ErabSetup>, downs: seq<nat>) returns (ok: bool, answer: Option<B.Response>)
      requires |bearers| == B.BEARERS_PER_UE
      modifies this
      ensures ok == B.ErabSetupRsp(old(Tables()), ups, downs).Some?
      ensures ok ==> B.ErabSetupRsp(old(Tables()), ups, downs).value == (Tables(), answer) && Value() == old(Value()).(tables := Tables())
    {
      answer := None;
      var due;
      ok, due := ErabsUp(ups);
      if ok {
        ok, due := ErabsDown(due, downs);
        if ok && due {
          var r := ErabsAccept(ups);
          r := ErabsReject(r, ups);
          answer := Some(r);
        }
      }
    }

    // ------------------------------------------------------------- create-bearer procedure

    /** `mme_app_delete_s11_procedure_create_bearer`. */
    method DeleteProc()
      modifies this
      ensures Value() == old(Value()).(tables := B.DeleteProc(old(Tables())))
    {
      if procs != [] {
        procs := procs[1..];
      }
    }

    /** One bearer context of a create-bearer request; the EBI it got, or None when all are taken. */
    method RequestBearer(cid: nat, m: B.BearerRequest) returns (ebi: Option<nat>)
      requires B.WellSized(Tables()) && cid < B.MAX_APN_PER_UE && procs != []
      modifies this
      ensures ebi.Some? == B.RequestBearer(old(Tables()), cid, m).Some?
      ensures ebi.Some? ==> ebi.value == B.ResolveEbi(old(Tables()), m.ebi)
      ensures ebi.Some? ==> Value() == old(Value()).(tables := B.RequestBearer(old(Tables()), cid, m).value)
    {
      var e := m.ebi;
      if !B.EbiInRange(e) {
        e := FreeBearerId();
      }
      if e == B.EBI_UNASSIGNED {
        return None;
      }
      var i := e - B.EBI_FIRST;
      if bearers[i].None? && pdns[cid].Some? {
        AddBearerContext(B.NewBearer(e), cid);
        var b := bearers[i].value;
        bearers := bearers[i := Some(b.(state := b.state.(sgw := true, mme := true), sgwTeid := m.sgwTeid, qci := m.qci, arp := m.arp))];
      }
      var p := procs[0];
      procs := [p.(numBearers := p.numBearers + 1, status := p.status[i := B.Pending])] + procs[1..];
      return Some(e);
    }

    /** The procedure and the bearers of a create-bearer request, and the requests to NAS. */
    method RequestBearers(cid: nat, trxn: nat, ms: seq<B.BearerRequest>) returns (ok: bool, msgs: seq<Message>)
      requires B.WellSized(Tables()) && cid < B.MAX_APN_PER_UE && pdns[cid].Some?
      requires B.WellSized(B.StartProc(Tables(), trxn))
      modifies this
      ensures ok == B.RequestBearers(B.StartProc(old(Tables()), trxn), cid, ms, |ms|).Some?
      ensures ok ==> Value() == old(Value()).(tables := B.RequestBearers(B.StartProc(old(Tables()), trxn), cid, ms, |ms|).value)
      ensures ok ==> msgs == Handlers.DedicatedReqs(old(Value()), cid, trxn, ms, |ms|)
    {
      hide B.RequestBearer;
      ghost var u := Value();
      ghost var t := B.StartProc(Tables(), trxn);
      var linked := pdns[cid].value.defaultEbi;
      procs := [B.NewProc(trxn)] + procs;
      msgs := [];
      var i := 0;
      while i < |ms|
        invariant i <= |ms| && B.RequestBearers(t, cid, ms, i) == Some(Tables())
        invariant Value() == u.(tables := Tables())
        invariant msgs == Handlers.DedicatedReqs(u, cid, trxn, ms, i)
      {
        var ebi := RequestBearer(cid, ms[i]);
        if ebi.None? {
          RequestNoneStays(t, cid, ms, i + 1);
          return false, msgs;
        }
        msgs := msgs + [DedicatedBearerReq(id, cid, ebi.value, linked)];
        i := i + 1;
      }
      return true, msgs;
    }

    /** `mme_app_s11_procedure_create_bearer_send_response`: what the response carries; None when a
        decided bearer is not there. */
    method SendResponse(p: B.Proc) returns (r: Option<B.Response>)
      requires B.WellSized(Tables()) && |p.status| == B.BEARERS_PER_UE
      ensures r == B.Respond(Tables(), p)
    {
      var sgwTeid, count, slot0 := 0, 0, None;
      var i := 0;
      while i < B.BEARERS_PER_UE
        invariant i <= B.BEARERS_PER_UE
        invariant B.Collect(Tables(), p.status, i) == Some(B.Collected(sgwTeid, count, slot0))
      {
        if p.status[i] == B.Status.Failed || p.status[i] == B.Success {
          if bearers[i].None? || !(0 <= bearers[i].value.pdnCxId < B.MAX_APN_PER_UE) || pdns[bearers[i].value.pdnCxId].None? {
            CollectNoneStays(Tables(), p.status, i + 1);
            return None;
          }
          var b := bearers[i].value;
          sgwTeid := pdns[b.pdnCxId].value.sgwTeid;
          count := count + 1;
          slot0 := Some(B.RspBearer(i + B.EBI_FIRST, p.status[i] == B.Success, b.enbTeid, b.sgwTeid));
        }
        i := i + 1;
      }
      return Some(B.Response(sgwTeid, Some(p.trxn), B.ResponseCause(p.numBearers, 0), count, slot0));
    }

    /** NAS has decided about one bearer of the newest procedure. */
    method Answer(ebi: nat, success: bool) returns (ok: bool, sent: Option<B.Response>)
      requires B.WellSized(Tables())
      modifies this
      ensures ok == B.Answer(old(Tables()), ebi, success).Some?
      ensures ok ==> B.Answer(old(Tables()), ebi, success).value == B.Answered(Tables(), sent) && Value() == old(Value()).(tables := Tables())
    {
      if procs == [] {
        return true, None;
      }
      if !B.EbiInRange(ebi) {
        return false, None;
      }
      var p := procs[0];
      p := p.(numReceived := p.numReceived + 1);
      p := p.(status := p.status[ebi - B.EBI_FIRST := if success then B.Success else B.Status.Failed]);
      if p.numReceived == p.numBearers {
        sent := SendResponse(p);
        if sent.None? {
          return false, None;
        }
        DeleteProc();
      } else {
        sent := None;
        procs := [p] + procs[1..];
      }
      return true, sent;
    }

    // ------------------------------------------------------------- messages to the gateway

    method DeleteSessionReqs() returns (msgs: seq<Message>)
      requires |pdns| == B.MAX_APN_PER_UE
      ensures msgs == Handlers.DeleteSessions(Value(), B.MAX_APN_PER_UE)
    {
      msgs := [];
      var i := 0;
      while i < B.MAX_APN_PER_UE
        invariant i <= B.MAX_APN_PER_UE && msgs == Handlers.DeleteSessions(Value(), i)
      {
        if pdns[i].Some? {
          msgs := msgs + [DeleteSessionReq(teid, pdns[i].value.sgwTeid, pdns[i].value.defaultEbi)];
        }
        i := i + 1;
      }
    }

    method ReleaseBearersReqs() returns (msgs: seq<Message>)
      requires |pdns| == B.MAX_APN_PER_UE
      ensures msgs == Handlers.ReleaseBearers(Value(), B.MAX_APN_PER_UE)
    {
      msgs := [];
      var i := 0;
      while i < B.MAX_APN_PER_UE
        invariant i <= B.MAX_APN_PER_UE && msgs == Handlers.ReleaseBearers(Value(), i)
      {
        if pdns[i].Some? {
          msgs := msgs + [ReleaseAccessBearersReq(teid, pdns[i].value.sgwTeid)];
        }
        i := i + 1;
      }
    }
  }

  // ---------------------------------------------------------------- a failed round fails the loop

  lemma {:induction false} NoneStays(t: B.Tables, sgwTeid: nat, ms: seq<B.SessionBearer>, n: nat)
    requires B.WellSized(t) && n <= |ms| && B.SessionsCreated(t, sgwTeid, ms, n).None?
    ensures B.SessionsCreated(t, sgwTeid, ms, |ms|).None?
    decreases |ms| - n
  {
    if n < |ms| {
      NoneStays(t, sgwTeid, ms, n + 1);
    }
  }

  lemma {:induction false} UpNoneStays(t: B.Tables, ms: seq<B.ErabSetup>, n: nat)
    requires |t.bearers| == B.BEARERS_PER_UE && n <= |ms| && B.ErabsUp(t, ms, n).None?
    ensures B.ErabsUp(t, ms, |ms|).None?
    decreases |ms| - n
  {
    if n < |ms| {
      UpNoneStays(t, ms, n + 1);
    }
  }

  lemma {:induction false} DownNoneStays(t: B.Tables, due: bool, ebis: seq<nat>, n: nat)
    requires |t.bearers| == B.BEARERS_PER_UE && n <= |ebis| && B.ErabsDown(t, due, ebis, n).None?
    ensures B.ErabsDown(t, due, ebis, |ebis|).None?
    decreases |ebis| - n
  {
    if n < |ebis| {
      DownNoneStays(t, due, ebis, n + 1);
    }
  }

  lemma {:induction false} RequestNoneStays(t: B.Tables, cid: nat, ms: seq<B.BearerRequest>, n: nat)
    requires B.WellSized(t) && cid < B.MAX_APN_PER_UE && t.procs != [] && n <= |ms| && B.RequestBearers(t, cid, ms, n).None?
    ensures B.RequestBearers(t, cid, ms, |ms|).None?
    decreases |ms| - n
  {
    if n < |ms| {
      RequestNoneStays(t, cid, ms, n + 1);
    }
  }

  lemma {:induction false} CollectNoneStays(t: B.Tables, status: seq<B.Status>, n: nat)
    requires B.WellSized(t) && |status| == B.BEARERS_PER_UE && n <= B.BEARERS_PER_UE && B.Collect(t, status, n).None?
    ensures B.Collect(t, status, B.BEARERS_PER_UE).None?
    decreases B.BEARERS_PER_UE - n
  {
    if n < B.BEARERS_PER_UE {
      CollectNoneStays(t, status, n + 1);
    }
  }
}
