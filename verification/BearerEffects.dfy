/** What the operations on the tables of one UE leave in every slot, told slot by slot. */
module BearerEffects {
  import opened Common
  import opened Bearers
  import opened BearerProofs
  import opened CreateBearerFanIn

  // ---------------------------------------------------------------- one bearer

  /** The status of one bearer is written, nothing else. */
  lemma EsmStatusEffect(t: Tables, ebi: nat, status: EsmState, j: nat)
    requires WellSized(t) && j < BEARERS_PER_UE
    ensures var t' := SetEsmStatus(t, ebi, status);
            && t'.pdns == t.pdns && t'.procs == t.procs && |t'.bearers| == BEARERS_PER_UE
            && (t'.bearers[j].Some? <==> t.bearers[j].Some?)
            && (t.bearers[j].Some? ==>
                  t'.bearers[j].value == if ebi == j + EBI_FIRST then t.bearers[j].value.(esm := status) else t.bearers[j].value)
  {
  }

  /** The radio side of one bearer goes, nothing else. */
  lemma S1ReleaseEffect(t: Tables, ebi: nat, j: nat)
    requires WellSized(t) && j < BEARERS_PER_UE
    ensures var t' := S1Release(t, ebi);
            && t'.pdns == t.pdns && t'.procs == t.procs && |t'.bearers| == BEARERS_PER_UE
            && (t'.bearers[j].Some? <==> t.bearers[j].Some?)
            && (t.bearers[j].Some? ==>
                  t'.bearers[j].value == if ebi == j + EBI_FIRST then t.bearers[j].value.(state := State(false, false, false, true), enbTeid := 0)
                                         else t.bearers[j].value)
  {
  }

  /** A new PDN connection stands in its place, without bearers, tunnel and default bearer, if the place
      was free and the subscription has it. */
  lemma CreatePdnEffect(t: Tables, cid: nat, apn: Option<(nat, Arp)>, c: nat)
    requires WellSized(t) && cid < MAX_APN_PER_UE && c < MAX_APN_PER_UE
    ensures var t' := CreatePdn(t, cid, apn);
            && t'.bearers == t.bearers && t'.procs == t.procs && |t'.pdns| == MAX_APN_PER_UE
            && (if c == cid && t.pdns[c].None? && apn.Some? then
                  && t'.pdns[c].Some?
                  && t'.pdns[c].value.contextId == apn.value.0 && t'.pdns[c].value.arp == apn.value.1
                  && t'.pdns[c].value.defaultEbi == 0 && t'.pdns[c].value.sgwTeid == 0
                  && |t'.pdns[c].value.links| == BEARERS_PER_UE
                  && (forall i :: 0 <= i < BEARERS_PER_UE ==> t'.pdns[c].value.links[i] == -1)
                else t'.pdns[c] == t.pdns[c])
  {
  }

  /** A session is asked for if and only if the PDN connection and its default bearer exist. The MME side of
      that bearer is up then, and the connection has no gateway TEID. */
  lemma StartSessionEffect(t: Tables, cid: nat, j: nat, c: nat)
    requires WellSized(t) && j < BEARERS_PER_UE && c < MAX_APN_PER_UE
    ensures StartSession(t, cid).Some? <==>
            cid < MAX_APN_PER_UE && t.pdns[cid].Some? && GetBearer(t, t.pdns[cid].value.defaultEbi).Some?
    ensures StartSession(t, cid).Some? ==>
              var t' := StartSession(t, cid).value;
              && t'.procs == t.procs && |t'.bearers| == BEARERS_PER_UE && |t'.pdns| == MAX_APN_PER_UE
              && t'.pdns[c] == (if c == cid then Some(t.pdns[c].value.(sgwTeid := 0)) else t.pdns[c])
              && (t'.bearers[j].Some? <==> t.bearers[j].Some?)
              && (t.bearers[j].Some? ==>
                    t'.bearers[j].value == if t.pdns[cid].value.defaultEbi == j + EBI_FIRST
                                           then t.bearers[j].value.(state := t.bearers[j].value.state.(mme := true)) else t.bearers[j].value)
  {
  }

  /** When the operations on one bearer are carried out at all: NAS needs a PDN connection and an EBI from 5 to
      15, a request a named EBI or a free slot, an E-RAB a bearer that the MME knows about if the gateway has
      created it, and an answer an EBI in range if a procedure is open. */
  lemma OneTaken(t: Tables, cid: nat, ebi: nat, isDefault: bool, qci: nat, m: BearerRequest, enbTeid: nat, success: bool)
    requires WellSized(t)
    ensures NasCreateBearer(t, cid, ebi, isDefault, qci).Some? <==> cid < 5 && 5 <= ebi <= 15 && t.pdns[cid].Some?
    ensures t.procs != [] && cid < 5 ==>
              (RequestBearer(t, cid, m).Some? <==> 5 <= m.ebi <= 15 || exists j :: 0 <= j < BEARERS_PER_UE && t.bearers[j].None?)
    ensures ErabUp(t, ErabSetup(ebi, enbTeid)).Some? <==>
            5 <= ebi <= 15 && t.bearers[ebi - 5].Some? && (t.bearers[ebi - 5].value.state.sgw ==> t.bearers[ebi - 5].value.state.mme)
    ensures ErabDown(t, ebi).Some? <==>
            5 <= ebi <= 15 && t.bearers[ebi - 5].Some? && (t.bearers[ebi - 5].value.state.sgw ==> t.bearers[ebi - 5].value.state.mme)
    ensures t.procs == [] ==> Answer(t, ebi, success) == Some(Answered(t, None))
    ensures t.procs != [] && !(5 <= ebi <= 15) ==> Answer(t, ebi, success).None?
  {
    hide Respond, AddBearer, CreateBearer;
  }

  // ---------------------------------------------------------------- create-session response

  ghost predicate NoEbiTwice(ms: seq<SessionBearer>) {
    forall a, b :: 0 <= a < b < |ms| ==> ms[a].ebi != ms[b].ebi
  }

  predicate Names(ms: seq<SessionBearer>, ebi: nat) { exists k :: 0 <= k < |ms| && ms[k].ebi == ebi }

  /** A bearer the gateway has accepted: its side is up, with its own S1-U TEID and, if the gateway gave
      one, its QoS. */
  function Opened(b: Bearer, m: SessionBearer): (b': Bearer) {
    b.(state := State(true, b.state.mme, b.state.enb, b.state.s1Released),
       sgwTeid := m.sgwTeid,
       qci := if m.qos.Some? then m.qos.value.0 else b.qci,
       arp := if m.qos.Some? then m.qos.value.1 else b.arp)
  }

  /** What a create-session response leaves in slot j after its first n bearers. */
  ghost predicate SlotOpened(t: Tables, ms: seq<SessionBearer>, n: nat, t': Tables, j: nat)
    requires n <= |ms| && j < |t.bearers| == |t'.bearers|
  {
    && (forall k :: 0 <= k < n && ms[k].ebi == j + EBI_FIRST ==>
          t.bearers[j].Some? && t'.bearers[j] == Some(Opened(t.bearers[j].value, ms[k])))
    && ((forall k :: 0 <= k < n ==> ms[k].ebi != j + EBI_FIRST) ==> t'.bearers[j] == t.bearers[j])
  }

  lemma {:induction false} SessionSlots(t: Tables, sgwTeid: nat, ms: seq<SessionBearer>, n: nat, j: nat)
    requires WellSized(t) && n <= |ms| && NoEbiTwice(ms) && j < BEARERS_PER_UE && SessionsCreated(t, sgwTeid, ms, n).Some?
    ensures SlotOpened(t, ms, n, SessionsCreated(t, sgwTeid, ms, n).value, j)
    ensures SessionsCreated(t, sgwTeid, ms, n).value.procs == t.procs
  {
    if n > 0 {
      SessionSlots(t, sgwTeid, ms, n - 1, j);
      var r := SessionsCreated(t, sgwTeid, ms, n - 1).value;
      OneSession(r, n == 1, sgwTeid, ms[n - 1], j);
      hide SessionCreated, Opened, WellSized;
    }
  }

  lemma OneSession(t: Tables, first: bool, sgwTeid: nat, m: SessionBearer, j: nat)
    requires WellSized(t) && j < BEARERS_PER_UE && SessionCreated(t, first, sgwTeid, m).Some?
    ensures var t' := SessionCreated(t, first, sgwTeid, m).value;
            && |t'.bearers| == BEARERS_PER_UE && |t'.pdns| == MAX_APN_PER_UE && t'.procs == t.procs
            && (m.ebi == j + EBI_FIRST ==> t.bearers[j].Some? && t'.bearers[j] == Some(Opened(t.bearers[j].value, m)))
            && (m.ebi != j + EBI_FIRST ==> t'.bearers[j] == t.bearers[j])
            && (!first ==> t'.pdns == t.pdns)
  {
  }

  lemma FirstSession(t: Tables, sgwTeid: nat, m: SessionBearer, c: nat)
    requires WellSized(t) && c < MAX_APN_PER_UE && SessionCreated(t, true, sgwTeid, m).Some?
    ensures var t' := SessionCreated(t, true, sgwTeid, m).value;
            && |t'.pdns| == MAX_APN_PER_UE
            && GetBearer(t, m.ebi).Some?
            && (c == GetBearer(t, m.ebi).value.pdnCxId ==> t.pdns[c].Some? && t'.pdns[c] == Some(t.pdns[c].value.(sgwTeid := sgwTeid)))
            && (c != GetBearer(t, m.ebi).value.pdnCxId ==> t'.pdns[c] == t.pdns[c])
  {
  }

  lemma {:induction false} SessionPdns(t: Tables, sgwTeid: nat, ms: seq<SessionBearer>, n: nat, c: nat)
    requires WellSized(t) && 0 < n <= |ms| && c < MAX_APN_PER_UE && SessionsCreated(t, sgwTeid, ms, n).Some?
    ensures GetBearer(t, ms[0].ebi).Some?
    ensures var t' := SessionsCreated(t, sgwTeid, ms, n).value;
            if c == GetBearer(t, ms[0].ebi).value.pdnCxId then t.pdns[c].Some? && t'.pdns[c] == Some(t.pdns[c].value.(sgwTeid := sgwTeid))
            else t'.pdns[c] == t.pdns[c]
  {
    if n == 1 {
      assert SessionsCreated(t, sgwTeid, ms, 0) == Some(t);
      FirstSession(t, sgwTeid, ms[0], c);
      hide SessionCreated;
    } else {
      SessionPdns(t, sgwTeid, ms, n - 1, c);
      OneSession(SessionsCreated(t, sgwTeid, ms, n - 1).value, false, sgwTeid, ms[n - 1], 0);
      hide SessionCreated;
    }
  }

  /** A create-session response gives every bearer it names the S1-U TEID and the QoS named with it, and the
      PDN connection of the first one the S11 TEID of the gateway; every other slot, connection and field
      stays as it is. */
  lemma SessionsEffect(t: Tables, sgwTeid: nat, ms: seq<SessionBearer>)
    requires WellSized(t) && ms != [] && NoEbiTwice(ms) && SessionsCreated(t, sgwTeid, ms, |ms|).Some?
    ensures GetBearer(t, ms[0].ebi).Some?
    ensures var t' := SessionsCreated(t, sgwTeid, ms, |ms|).value;
            && |t'.bearers| == BEARERS_PER_UE && |t'.pdns| == MAX_APN_PER_UE && t'.procs == t.procs
            && (forall k :: 0 <= k < |ms| ==>
                  && GetBearer(t, ms[k].ebi).Some?
                  && GetBearer(t', ms[k].ebi) == Some(Opened(GetBearer(t, ms[k].ebi).value, ms[k])))
            && (forall j :: 0 <= j < BEARERS_PER_UE && !Names(ms, j + EBI_FIRST) ==> t'.bearers[j] == t.bearers[j])
            && (forall c :: 0 <= c < MAX_APN_PER_UE ==>
                  if c == GetBearer(t, ms[0].ebi).value.pdnCxId
                  then t.pdns[c].Some? && t'.pdns[c] == Some(t.pdns[c].value.(sgwTeid := sgwTeid))
                  else t'.pdns[c] == t.pdns[c])
  {
    hide SessionsCreated, Opened;
    SessionPdns(t, sgwTeid, ms, |ms|, 0);
    SessionSlots(t, sgwTeid, ms, |ms|, 0);
    var t' := SessionsCreated(t, sgwTeid, ms, |ms|).value;
    forall j: nat | j < BEARERS_PER_UE ensures SlotOpened(t, ms, |ms|, t', j) {
      SessionSlots(t, sgwTeid, ms, |ms|, j);
    }
    forall j | 0 <= j < BEARERS_PER_UE && !Names(ms, j + EBI_FIRST) ensures t'.bearers[j] == t.bearers[j] {
      assert SlotOpened(t, ms, |ms|, t', j);
    }
    forall k | 0 <= k < |ms|
      ensures GetBearer(t, ms[k].ebi).Some? && GetBearer(t', ms[k].ebi) == Some(Opened(GetBearer(t, ms[k].ebi).value, ms[k]))
    {
      NamedInRange(t, sgwTeid, ms, |ms|, k);
      assert SlotOpened(t, ms, |ms|, t', ms[k].ebi - EBI_FIRST);
    }
    forall c | 0 <= c < MAX_APN_PER_UE
      ensures if c == GetBearer(t, ms[0].ebi).value.pdnCxId
              then t.pdns[c].Some? && t'.pdns[c] == Some(t.pdns[c].value.(sgwTeid := sgwTeid))
              else t'.pdns[c] == t.pdns[c]
    {
      SessionPdns(t, sgwTeid, ms, |ms|, c);
    }
  }

  lemma {:induction false} NamedInRange(t: Tables, sgwTeid: nat, ms: seq<SessionBearer>, n: nat, k: nat)
    requires WellSized(t) && k < n <= |ms| && SessionsCreated(t, sgwTeid, ms, n).Some?
    ensures EbiInRange(ms[k].ebi)
  {
    if k < n - 1 {
      NamedInRange(t, sgwTeid, ms, n - 1, k);
    }
  }

  predicate Takes(t: Tables, m: SessionBearer)
    requires |t.bearers| == BEARERS_PER_UE
  {
    m.ebi < 11 && m.accepted && m.onS1u && GetBearer(t, m.ebi).Some?
  }

  /** The response is taken if and only if every bearer it names exists, was accepted, has its S1-U tunnel
      and an EBI below 11. */
  lemma {:induction false} SessionsTakenIff(t: Tables, sgwTeid: nat, ms: seq<SessionBearer>, n: nat)
    requires TablesOk(t) && n <= |ms| && NoEbiTwice(ms)
    ensures SessionsCreated(t, sgwTeid, ms, n).Some? <==> forall k :: 0 <= k < n ==> Takes(t, ms[k])
  {
    hide SessionCreated, TablesOk, Takes;
    WellSizedOf(t);
    if n > 0 {
      SessionsTakenIff(t, sgwTeid, ms, n - 1);
      if SessionsCreated(t, sgwTeid, ms, n - 1).Some? {
        NextTakenIff(t, sgwTeid, ms, n);
      }
    }
  }

  lemma WellSizedOf(t: Tables)
    requires TablesOk(t)
    ensures WellSized(t)
  {
  }

  lemma NextTakenIff(t: Tables, sgwTeid: nat, ms: seq<SessionBearer>, n: nat)
    requires TablesOk(t) && 0 < n <= |ms| && NoEbiTwice(ms) && SessionsCreated(t, sgwTeid, ms, n - 1).Some?
    ensures SessionsCreated(t, sgwTeid, ms, n).Some? <==> Takes(t, ms[n - 1])
  {
    var r := SessionsCreated(t, sgwTeid, ms, n - 1).value;
    assert SessionsCreated(t, sgwTeid, ms, n) == SessionCreated(r, n == 1, sgwTeid, ms[n - 1]);
    hide SessionsCreated, SessionCreated, TablesOk, Opened;
    SessionsCreatedKeeps(t, sgwTeid, ms, n - 1);
    OneTakenIff(r, n == 1, sgwTeid, ms[n - 1]);
    if EbiInRange(ms[n - 1].ebi) {
      SessionSlots(t, sgwTeid, ms, n - 1, ms[n - 1].ebi - EBI_FIRST);
    }
  }

  lemma OneTakenIff(t: Tables, first: bool, sgwTeid: nat, m: SessionBearer)
    requires TablesOk(t)
    ensures SessionCreated(t, first, sgwTeid, m).Some? <==> Takes(t, m)
  {
    if GetBearer(t, m.ebi).Some? {
      assert Lists(t, GetBearer(t, m.ebi).value.pdnCxId, m.ebi - EBI_FIRST);
    }
  }

  // ---------------------------------------------------------------- create-bearer request

  /** A dedicated bearer as a request makes it: both sides asked for, with the QoS and the S1-U TEID of the
      request, inactive for NAS and without a tunnel to the eNB. */
  function Granted(ebi: nat, cid: nat, m: BearerRequest): (b: Bearer) {
    Bearer(ebi, cid, State(true, true, false, false), EsmInactive, m.qci, m.arp, m.sgwTeid, 0)
  }

  /** Slot j after requests that were given these EBIs: a bearer that was there stays, otherwise the first
      request that was given the EBI has filled it. */
  ghost predicate SlotGranted(t: Tables, cid: nat, ms: seq<BearerRequest>, ebis: seq<nat>, t': Tables, j: nat)
    requires j < |t.bearers| == |t'.bearers| && |ebis| <= |ms|
  {
    if t.bearers[j].Some? || j + EBI_FIRST !in ebis then t'.bearers[j] == t.bearers[j]
    else exists k :: FirstOf(ebis, j + EBI_FIRST, k) && t'.bearers[j] == Some(Granted(j + EBI_FIRST, cid, ms[k]))
  }

  ghost predicate FirstOf(ebis: seq<nat>, ebi: nat, k: int) {
    0 <= k < |ebis| && ebis[k] == ebi && forall l :: 0 <= l < k ==> ebis[l] != ebi
  }

  lemma OneGranted(t: Tables, cid: nat, m: BearerRequest, j: nat)
    requires WellSized(t) && cid < MAX_APN_PER_UE && t.pdns[cid].Some? && t.procs != [] && j < BEARERS_PER_UE
    requires RequestBearer(t, cid, m).Some?
    ensures var t', e := RequestBearer(t, cid, m).value, ResolveEbi(t, m.ebi);
            && |t'.bearers| == BEARERS_PER_UE && |t'.pdns| == MAX_APN_PER_UE && t'.pdns[cid].Some?
            && t'.bearers[j] == (if j + EBI_FIRST == e && t.bearers[j].None? then Some(Granted(e, cid, m)) else t.bearers[j])
            && t'.pdns[cid].value == t.pdns[cid].value.(links := t'.pdns[cid].value.links)
            && (forall c :: 0 <= c < MAX_APN_PER_UE && c != cid ==> t'.pdns[c] == t.pdns[c])
  {
  }

  lemma OneMoreGranted(t: Tables, cid: nat, ms: seq<BearerRequest>, ebis: seq<nat>, r: Tables, e: nat, t': Tables, j: nat)
    requires j < |t.bearers| == |r.bearers| == |t'.bearers| && |ebis| < |ms| && SlotGranted(t, cid, ms, ebis, r, j)
    requires t'.bearers[j] == if j + EBI_FIRST == e && r.bearers[j].None? then Some(Granted(e, cid, ms[|ebis|])) else r.bearers[j]
    ensures SlotGranted(t, cid, ms, ebis + [e], t', j)
  {
    hide Granted;
    var n, all := |ebis|, ebis + [e];
    if t.bearers[j].None? && j + EBI_FIRST in all {
      if j + EBI_FIRST in ebis {
        var k :| FirstOf(ebis, j + EBI_FIRST, k) && r.bearers[j] == Some(Granted(j + EBI_FIRST, cid, ms[k]));
        assert FirstOf(all, j + EBI_FIRST, k);
      } else {
        assert FirstOf(all, j + EBI_FIRST, n);
      }
    }
  }

  /** A create-bearer request fills the free slots of the EBIs it was given, each with what the first
      request for it says, and changes no bearer that was there; of the PDN connections only the links of
      its own change. */
  lemma {:induction false} RequestsEffect(t: Tables, cid: nat, ms: seq<BearerRequest>, n: nat, j: nat)
    requires WellSized(t) && cid < MAX_APN_PER_UE && t.pdns[cid].Some? && t.procs != [] && n <= |ms| && j < BEARERS_PER_UE
    requires RequestBearers(t, cid, ms, n).Some?
    ensures var t' := RequestBearers(t, cid, ms, n).value;
            && |t'.bearers| == BEARERS_PER_UE && |t'.pdns| == MAX_APN_PER_UE
            && SlotGranted(t, cid, ms, Resolved(t, cid, ms, n), t', j)
            && t'.pdns[cid].Some?
            && t'.pdns[cid].value == t.pdns[cid].value.(links := t'.pdns[cid].value.links)
            && (forall c :: 0 <= c < MAX_APN_PER_UE && c != cid ==> t'.pdns[c] == t.pdns[c])
  {
    hide RequestBearer, SlotGranted, Granted;
    if n > 0 {
      RequestsEffect(t, cid, ms, n - 1, j);
      var r := RequestBearers(t, cid, ms, n - 1).value;
      OneGranted(r, cid, ms[n - 1], j);
      OneMoreGranted(t, cid, ms, Resolved(t, cid, ms, n - 1), r, ResolveEbi(r, ms[n - 1].ebi), RequestBearers(t, cid, ms, n).value, j);
    } else {
      NoneGranted(t, cid, ms, j);
    }
  }

  lemma NoneGranted(t: Tables, cid: nat, ms: seq<BearerRequest>, j: nat)
    requires j < |t.bearers|
    ensures SlotGranted(t, cid, ms, [], t, j)
  {
  }

  /** An answer of NAS changes neither bearers nor PDN connections. */
  lemma AnswerEffect(t: Tables, ebi: nat, success: bool)
    requires WellSized(t) && Answer(t, ebi, success).Some?
    ensures Answer(t, ebi, success).value.t.bearers == t.bearers && Answer(t, ebi, success).value.t.pdns == t.pdns
  {
    hide Respond;
  }

  /** The end of the S1 connection takes the newest procedure and nothing else. */
  lemma DeleteProcEffect(t: Tables)
    ensures DeleteProc(t).bearers == t.bearers && DeleteProc(t).pdns == t.pdns
    ensures t.procs != [] ==> |DeleteProc(t).procs| == |t.procs| - 1 && forall k :: 0 <= k < |t.procs| - 1 ==> DeleteProc(t).procs[k] == t.procs[k + 1]
    ensures t.procs == [] ==> DeleteProc(t) == t
  {
  }

  // ---------------------------------------------------------------- E-RAB setup response

  /** k is the last of the first n entries about the EBI. */
  ghost predicate LastOf(ups: seq<ErabSetup>, n: nat, ebi: nat, k: int)
    requires n <= |ups|
  {
    0 <= k < n && ups[k].ebi == ebi && forall l :: k < l < n ==> ups[l].ebi != ebi
  }

  predicate UpIn(ups: seq<ErabSetup>, n: nat, ebi: nat)
    requires n <= |ups|
  {
    exists k :: 0 <= k < n && ups[k].ebi == ebi
  }

  /** Slot j after the first n E-RABs that were set up. */
  ghost predicate SlotUp(b: Option<Bearer>, ups: seq<ErabSetup>, n: nat, ebi: nat, b': Option<Bearer>)
    requires n <= |ups|
  {
    if b.Some? && b.value.state.sgw && UpIn(ups, n, ebi) then
      exists k :: LastOf(ups, n, ebi, k) && b' == Some(b.value.(enbTeid := ups[k].enbTeid, state := b.value.state.(enb := true)))
    else b' == b
  }

  lemma {:induction false} ErabsUpEffect(t: Tables, ups: seq<ErabSetup>, n: nat, j: nat)
    requires |t.bearers| == BEARERS_PER_UE && n <= |ups| && j < BEARERS_PER_UE && ErabsUp(t, ups, n).Some?
    ensures var t' := ErabsUp(t, ups, n).value.0;
            t'.pdns == t.pdns && t'.procs == t.procs && SlotUp(t.bearers[j], ups, n, j + EBI_FIRST, t'.bearers[j])
  {
    if n > 0 {
      ErabsUpEffect(t, ups, n - 1, j);
      var r := ErabsUp(t, ups, n - 1).value.0;
      OneUp(r, ups[n - 1], j);
      hide ErabUp, SlotUp;
      OneMoreUp(t.bearers[j], ups, n, j + EBI_FIRST, r.bearers[j], ErabsUp(t, ups, n).value.0.bearers[j]);
    }
  }

  lemma OneUp(t: Tables, m: ErabSetup, j: nat)
    requires |t.bearers| == BEARERS_PER_UE && j < BEARERS_PER_UE && ErabUp(t, m).Some?
    ensures var t' := ErabUp(t, m).value;
            && |t'.bearers| == BEARERS_PER_UE && t'.pdns == t.pdns && t'.procs == t.procs
            && t'.bearers[j] == if m.ebi == j + EBI_FIRST && t.bearers[j].Some? && t.bearers[j].value.state.sgw
                                then Some(t.bearers[j].value.(enbTeid := m.enbTeid, state := t.bearers[j].value.state.(enb := true)))
                                else t.bearers[j]
  {
  }

  lemma OneMoreUp(b: Option<Bearer>, ups: seq<ErabSetup>, n: nat, ebi: nat, b1: Option<Bearer>, b2: Option<Bearer>)
    requires 0 < n <= |ups| && SlotUp(b, ups, n - 1, ebi, b1)
    requires b2 == if ups[n - 1].ebi == ebi && b1.Some? && b1.value.state.sgw
                   then Some(b1.value.(enbTeid := ups[n - 1].enbTeid, state := b1.value.state.(enb := true))) else b1
    ensures SlotUp(b, ups, n, ebi, b2)
  {
    if b.Some? && b.value.state.sgw && UpIn(ups, n, ebi) {
      if ups[n - 1].ebi == ebi {
        assert LastOf(ups, n, ebi, n - 1);
      } else {
        assert UpIn(ups, n - 1, ebi);
        var k :| LastOf(ups, n - 1, ebi, k) && b1 == Some(b.value.(enbTeid := ups[k].enbTeid, state := b.value.state.(enb := true)));
        assert LastOf(ups, n, ebi, k);
      }
    }
  }

  /** Slot j after the first n E-RABs that were not set up: a bearer of the gateway loses its MME and its
      radio side. */
  lemma {:induction false} ErabsDownEffect(t: Tables, due: bool, downs: seq<nat>, n: nat, j: nat)
    requires |t.bearers| == BEARERS_PER_UE && n <= |downs| && j < BEARERS_PER_UE && ErabsDown(t, due, downs, n).Some?
    ensures var t' := ErabsDown(t, due, downs, n).value.0;
            && t'.pdns == t.pdns && t'.procs == t.procs
            && t'.bearers[j] == if t.bearers[j].Some? && t.bearers[j].value.state.sgw && j + EBI_FIRST in downs[..n]
                                then Some(t.bearers[j].value.(state := t.bearers[j].value.state.(enb := false, mme := false)))
                                else t.bearers[j]
  {
    if n > 0 {
      ErabsDownEffect(t, due, downs, n - 1, j);
      OneDown(ErabsDown(t, due, downs, n - 1).value.0, downs[n - 1], j);
      hide ErabDown;
      assert downs[..n] == downs[..n - 1] + [downs[n - 1]];
    }
  }

  lemma OneDown(t: Tables, ebi: nat, j: nat)
    requires |t.bearers| == BEARERS_PER_UE && j < BEARERS_PER_UE && ErabDown(t, ebi).Some?
    ensures var t' := ErabDown(t, ebi).value;
            && |t'.bearers| == BEARERS_PER_UE && t'.pdns == t.pdns && t'.procs == t.procs
            && t'.bearers[j] == if ebi == j + EBI_FIRST && t.bearers[j].Some? && t.bearers[j].value.state.sgw
                                then Some(t.bearers[j].value.(state := t.bearers[j].value.state.(enb := false, mme := false)))
                                else t.bearers[j]
  {
  }
}
