/** The EPS bearer table, the PDN table and the S11 create-bearer procedures of one UE,
    with the functions that specify the operations on them. */
module Bearers {
  import opened Common

  const BEARERS_PER_UE: nat := 11
  const MAX_APN_PER_UE: nat := 5
  const EBI_FIRST: nat := 5
  const EBI_LAST: nat := 15
  const EBI_UNASSIGNED: nat := 0

  type NasPdu = seq<nat>

  /** The bits of `bearer_state`; BEARER_STATE_ACTIVE is never set. */
  datatype State = State(sgw: bool, mme: bool, enb: bool, s1Released: bool)

  const STATE_NULL := State(false, false, false, false)
  const STATE_S1_RELEASED := State(false, false, false, true)

  datatype Arp = Arp(priority: nat, capability: nat, vulnerability: nat)

  /** The status NAS keeps for an EPS bearer. */
  datatype EsmState = EsmInactive | EsmActive | EsmInactivePending | EsmModifyPending | EsmActivePending

  datatype Bearer = Bearer(
    ebi: nat,
    pdnCxId: int,
    state: State,
    esm: EsmState,
    qci: nat,
    arp: Arp,
    sgwTeid: nat,
    enbTeid: nat)

  /** `links[i]` is the index i of a bearer of this PDN connection, or -1. */
  datatype Pdn = Pdn(contextId: nat, defaultEbi: nat, sgwTeid: nat, arp: Arp, links: seq<int>)

  datatype Status = Unknown | Pending | Failed | Success

  datatype Proc = Proc(trxn: nat, numBearers: nat, numReceived: nat, status: seq<Status>)

  /** `procs` lists the running procedures, newest first. */
  datatype Tables = Tables(pdns: seq<Option<Pdn>>, bearers: seq<Option<Bearer>>, procs: seq<Proc>)

  /** NoCause is the 0 that a message starts with. */
  datatype RspCause = NoCause | RequestAccepted | RequestAcceptedPartially | RequestRejected

  datatype RspBearer = RspBearer(ebi: nat, accepted: bool, enbTeid: nat, sgwTeid: nat)

  /** The S11 create-bearer response: `trxn` is the transaction it answers, if it has one, `count`
      announces how many bearer contexts it carries, `slot0` is the only one that is ever filled. */
  datatype Response = Response(sgwTeid: nat, trxn: Option<nat>, cause: RspCause, count: nat, slot0: Option<RspBearer>)

  datatype ErabItem = ErabItem(ebi: nat, qci: nat, arp: Arp, sgwTeid: nat)

  datatype BearerRequest = BearerRequest(ebi: nat, qci: nat, arp: Arp, sgwTeid: nat)

  datatype SessionBearer =
    SessionBearer(ebi: nat, accepted: bool, onS1u: bool, sgwTeid: nat, qos: Option<(nat, Arp)>)

  datatype ErabSetup = ErabSetup(ebi: nat, enbTeid: nat)

  function NoLinks(): (s: seq<int>) {
    seq(BEARERS_PER_UE, _ => -1)
  }

  function NoStatus(): (s: seq<Status>) {
    seq(BEARERS_PER_UE, _ => Unknown)
  }

  function EmptyTables(): (t: Tables) {
    Tables(seq(MAX_APN_PER_UE, _ => None), seq(BEARERS_PER_UE, _ => None), [])
  }

  predicate EbiInRange(ebi: nat) {
    EBI_FIRST <= ebi <= EBI_LAST
  }

  ghost predicate WellSized(t: Tables) {
    && |t.pdns| == MAX_APN_PER_UE
    && |t.bearers| == BEARERS_PER_UE
    && (forall c :: 0 <= c < |t.pdns| && t.pdns[c].Some? ==> |t.pdns[c].value.links| == BEARERS_PER_UE)
    && (forall p :: 0 <= p < |t.procs| ==> |t.procs[p].status| == BEARERS_PER_UE)
  }

  /** PDN connection c lists the bearer at index i. */
  ghost predicate Lists(t: Tables, c: int, i: int)
    requires WellSized(t) && 0 <= i < BEARERS_PER_UE
  {
    0 <= c < MAX_APN_PER_UE && t.pdns[c].Some? && t.pdns[c].value.links[i] == i
  }

  /** The two tables refer to each other consistently: slot i holds a bearer exactly when one PDN
      connection lists it, and that bearer carries EBI i+5 and the number of that connection. */
  ghost predicate CrossLinked(t: Tables) {
    && WellSized(t)
    && (forall c, i :: 0 <= c < MAX_APN_PER_UE && t.pdns[c].Some? && 0 <= i < BEARERS_PER_UE ==>
          t.pdns[c].value.links[i] == -1 || t.pdns[c].value.links[i] == i)
    && (forall i :: 0 <= i < BEARERS_PER_UE && t.bearers[i].Some? ==>
          && t.bearers[i].value.ebi == i + EBI_FIRST
          && Lists(t, t.bearers[i].value.pdnCxId, i))
    && (forall c, i :: 0 <= i < BEARERS_PER_UE && Lists(t, c, i) ==>
          t.bearers[i].Some? && t.bearers[i].value.pdnCxId == c)
  }

  ghost predicate StateOk(s: State) {
    s.enb ==> s.sgw && s.mme
  }

  /** The radio side of a bearer is only up when the gateway side and the MME side are. */
  ghost predicate StatesOk(t: Tables) {
    forall i :: 0 <= i < |t.bearers| && t.bearers[i].Some? ==> StateOk(t.bearers[i].value.state)
  }

  ghost predicate TablesOk(t: Tables) {
    CrossLinked(t) && StatesOk(t)
  }

  // ---------------------------------------------------------------- lookups

  function GetBearer(t: Tables, ebi: nat): (r: Option<Bearer>)
    requires |t.bearers| == BEARERS_PER_UE
  {
    if EbiInRange(ebi) then t.bearers[ebi - EBI_FIRST] else None
  }

  /** The first index at or after i whose slot is empty, or |bearers|. */
  function FirstFree(bearers: seq<Option<Bearer>>, i: nat): (r: nat)
    requires i <= |bearers|
    ensures i <= r <= |bearers|
    ensures forall j :: i <= j < r ==> bearers[j].Some?
    ensures r < |bearers| ==> bearers[r].None?
    decreases |bearers| - i
  {
    if i == |bearers| || bearers[i].None? then i else FirstFree(bearers, i + 1)
  }

  function FreeEbi(t: Tables): (r: nat)
    requires |t.bearers| == BEARERS_PER_UE
    ensures EbiInRange(r) ==> t.bearers[r - EBI_FIRST].None? && forall j :: 0 <= j < r - EBI_FIRST ==> t.bearers[j].Some?
    ensures !EbiInRange(r) ==> r == EBI_UNASSIGNED && forall j :: 0 <= j < BEARERS_PER_UE ==> t.bearers[j].Some?
  {
    var i := FirstFree(t.bearers, 0);
    if i < BEARERS_PER_UE then i + EBI_FIRST else EBI_UNASSIGNED
  }

  // ---------------------------------------------------------------- PDN and bearer creation

  function CreatePdn(t: Tables, cid: nat, apn: Option<(nat, Arp)>): (t': Tables)
    requires cid < |t.pdns|
  {
    if t.pdns[cid].Some? || apn.None? then t
    else t.(pdns := t.pdns[cid := Some(Pdn(apn.value.0, EBI_UNASSIGNED, 0, apn.value.1, NoLinks()))])
  }

  function NewBearer(ebi: nat): (b: Bearer) {
    Bearer(ebi, 0, STATE_NULL, EsmInactive, 0, Arp(0, 0, 0), 0, 0)
  }

  /** Whether a bearer with this EBI would be taken into the tables. */
  predicate CanAdd(t: Tables, ebi: nat, cid: nat) {
    && EbiInRange(ebi)
    && |t.bearers| == BEARERS_PER_UE
    && cid < |t.pdns|
    && t.bearers[ebi - EBI_FIRST].None?
    && t.pdns[cid].Some?
  }

  /** The bearer as it stands in the table once PDN connection cid has taken it. */
  function Adopted(b: Bearer, cid: nat, pdn: Pdn): (b': Bearer) {
    b.(pdnCxId := cid, arp := pdn.arp)
  }

  function AddBearer(t: Tables, b: Bearer, cid: nat): (t': Tables)
    requires WellSized(t) && EbiInRange(b.ebi) && cid < MAX_APN_PER_UE
  {
    if !CanAdd(t, b.ebi, cid) then t
    else
      var i := b.ebi - EBI_FIRST;
      var pdn := t.pdns[cid].value;
      t.(pdns := t.pdns[cid := Some(pdn.(links := pdn.links[i := i]))],
         bearers := t.bearers[i := Some(Adopted(b, cid, pdn))])
  }

  /** The EBI a request ends up with: its own, or the least free one when it names none. */
  function ResolveEbi(t: Tables, ebi: nat): (r: nat)
    requires |t.bearers| == BEARERS_PER_UE
    ensures EbiInRange(r) || r == EBI_UNASSIGNED
  {
    if EbiInRange(ebi) then ebi else FreeEbi(t)
  }

  function CreateBearer(t: Tables, cid: nat, ebi: nat): (t': Tables)
    requires WellSized(t) && cid < MAX_APN_PER_UE
  {
    var lebi := ResolveEbi(t, ebi);
    if lebi == EBI_UNASSIGNED then t else AddBearer(t, NewBearer(lebi), cid)
  }

  /** NAS gives a bearer to a PDN connection, an inactive one that is there or a new one; a bearer that
      is not inactive is refused. None when there is no PDN connection or no such slot: the code then
      dereferences NULL or leaves the array. */
  function NasCreateBearer(t: Tables, cid: nat, ebi: nat, isDefault: bool, qci: nat): (r: Option<Tables>)
    requires WellSized(t)
  {
    if cid >= MAX_APN_PER_UE || !EbiInRange(ebi) || t.pdns[cid].None? then None
    else
      var b := GetBearer(t, ebi);
      if b.Some? && b.value.esm != EsmInactive then Some(t)
      else
        var t1 := if b.Some? then t else CreateBearer(t, cid, ebi);
        var t2 := PutBearer(t1, ebi - EBI_FIRST, t1.bearers[ebi - EBI_FIRST].value.(qci := qci));
        Some(if isDefault then PutPdn(t2, cid, t2.pdns[cid].value.(defaultEbi := ebi)) else t2)
  }

  /** Replace the bearer in slot i by one with the same place in the tables. */
  function PutBearer(t: Tables, i: nat, b: Bearer): (t': Tables)
    requires i < |t.bearers|
  {
    t.(bearers := t.bearers[i := Some(b)])
  }

  function PutPdn(t: Tables, cid: nat, p: Pdn): (t': Tables)
    requires cid < |t.pdns|
  {
    t.(pdns := t.pdns[cid := Some(p)])
  }

  function S1Release(t: Tables, ebi: nat): (t': Tables)
    requires |t.bearers| == BEARERS_PER_UE
  {
    var b := GetBearer(t, ebi);
    if b.None? then t
    else PutBearer(t, ebi - EBI_FIRST, b.value.(state := STATE_S1_RELEASED, enbTeid := 0))
  }

  function SetEsmStatus(t: Tables, ebi: nat, status: EsmState): (t': Tables)
    requires |t.bearers| == BEARERS_PER_UE
  {
    var b := GetBearer(t, ebi);
    if b.None? then t else PutBearer(t, ebi - EBI_FIRST, b.value.(esm := status))
  }

  // ---------------------------------------------------------------- sessions

  /** What a create-session request does to the tables; None when it dereferences NULL. */
  function StartSession(t: Tables, cid: nat): (r: Option<Tables>)
    requires WellSized(t)
  {
    if cid >= MAX_APN_PER_UE || t.pdns[cid].None? then None
    else
      var pdn := t.pdns[cid].value;
      var b := GetBearer(t, pdn.defaultEbi);
      if b.None? then None
      else
        var t1 := PutBearer(t, pdn.defaultEbi - EBI_FIRST, b.value.(state := b.value.state.(mme := true)));
        Some(PutPdn(t1, cid, pdn.(sgwTeid := 0)))
  }

  /** One bearer context of a create-session response. */
  function SessionCreated(t: Tables, first: bool, sgwTeid: nat, m: SessionBearer): (r: Option<Tables>)
    requires WellSized(t)
  {
    if m.ebi >= BEARERS_PER_UE || !m.accepted || !m.onS1u || GetBearer(t, m.ebi).None? then None
    else
      var b := GetBearer(t, m.ebi).value;
      if first && (!(0 <= b.pdnCxId < MAX_APN_PER_UE) || t.pdns[b.pdnCxId].None?) then None
      else
        var t1 := if first then PutPdn(t, b.pdnCxId, t.pdns[b.pdnCxId].value.(sgwTeid := sgwTeid)) else t;
        var b1 := b.(state := b.state.(sgw := true), sgwTeid := m.sgwTeid);
        var b2 := if m.qos.Some? then b1.(qci := m.qos.value.0, arp := m.qos.value.1) else b1;
        Some(PutBearer(t1, m.ebi - EBI_FIRST, b2))
  }

  function SessionsCreated(t: Tables, sgwTeid: nat, ms: seq<SessionBearer>, n: nat): (r: Option<Tables>)
    requires WellSized(t) && n <= |ms|
    ensures r.Some? ==> WellSized(r.value)
  {
    if n == 0 then Some(t)
    else
      var r := SessionsCreated(t, sgwTeid, ms, n - 1);
      if r.None? then None else SessionCreated(r.value, n == 1, sgwTeid, ms[n - 1])
  }

  /** The E-RABs of an initial context setup request, from the first n slots. */
  function Erabs(bearers: seq<Option<Bearer>>, n: nat): (r: seq<ErabItem>)
    requires n <= |bearers|
  {
    if n == 0 then []
    else if bearers[n - 1].Some? && bearers[n - 1].value.state.sgw then
      Erabs(bearers, n - 1) + [ErabOf(bearers[n - 1].value)]
    else Erabs(bearers, n - 1)
  }

  function ErabOf(b: Bearer): (r: ErabItem) {
    ErabItem(b.ebi, b.qci, b.arp, b.sgwTeid)
  }

  // ---------------------------------------------------------------- E-RAB setup

  /** One entry of the list of E-RABs the eNB has set up. */
  function ErabUp(t: Tables, m: ErabSetup): (r: Option<Tables>)
    requires |t.bearers| == BEARERS_PER_UE
  {
    var b := GetBearer(t, m.ebi);
    if b.None? then None
    else if !b.value.state.sgw then Some(t)
    else if !b.value.state.mme then None
    else Some(PutBearer(t, m.ebi - EBI_FIRST, b.value.(enbTeid := m.enbTeid, state := b.value.state.(enb := true))))
  }

  /** One entry of the list of E-RABs the eNB has failed to set up. */
  function ErabDown(t: Tables, ebi: nat): (r: Option<Tables>)
    requires |t.bearers| == BEARERS_PER_UE
  {
    var b := GetBearer(t, ebi);
    if b.None? then None
    else if !b.value.state.sgw then Some(t)
    else if !b.value.state.mme then None
    else Some(PutBearer(t, ebi - EBI_FIRST, b.value.(state := b.value.state.(enb := false, mme := false))))
  }

  /** What the response half does to an entry of the first list. */
  function ErabReset(t: Tables, ebi: nat): (t': Tables)
    requires |t.bearers| == BEARERS_PER_UE
  {
    var b := GetBearer(t, ebi);
    if b.None? || !b.value.state.mme then t
    else PutBearer(t, ebi - EBI_FIRST, b.value.(state := STATE_NULL))
  }

  /** After the first n set-up entries: the tables, and whether an S11 response has become due. */
  function ErabsUp(t: Tables, ms: seq<ErabSetup>, n: nat): (r: Option<(Tables, bool)>)
    requires |t.bearers| == BEARERS_PER_UE && n <= |ms|
    ensures r.Some? ==> |r.value.0.bearers| == BEARERS_PER_UE
  {
    if n == 0 then Some((t, false))
    else
      var r := ErabsUp(t, ms, n - 1);
      if r.None? then None
      else
        var u := ErabUp(r.value.0, ms[n - 1]);
        if u.None? then None
        else
          var b := GetBearer(u.value, ms[n - 1].ebi);
          Some((u.value, r.value.1 || (b.Some? && b.value.state.sgw && b.value.esm == EsmActive)))
  }

  function ErabsDown(t: Tables, due: bool, ebis: seq<nat>, n: nat): (r: Option<(Tables, bool)>)
    requires |t.bearers| == BEARERS_PER_UE && n <= |ebis|
    ensures r.Some? ==> |r.value.0.bearers| == BEARERS_PER_UE
  {
    if n == 0 then Some((t, due))
    else
      var r := ErabsDown(t, due, ebis, n - 1);
      if r.None? then None
      else
        var d := ErabDown(r.value.0, ebis[n - 1]);
        if d.None? then None
        else
          var b := GetBearer(d.value, ebis[n - 1]);
          Some((d.value, r.value.1 || (b.Some? && b.value.state.sgw)))
  }

  function ErabsReset(t: Tables, ms: seq<ErabSetup>, n: nat): (t': Tables)
    requires |t.bearers| == BEARERS_PER_UE && n <= |ms|
    ensures |t'.bearers| == BEARERS_PER_UE
  {
    if n == 0 then t else ErabReset(ErabsReset(t, ms, n - 1), ms[n - 1].ebi)
  }

  /** The response after the first n entries have been entered as accepted. */
  function ErabsAccepted(t: Tables, ms: seq<ErabSetup>, n: nat): (r: Response)
    requires |t.bearers| == BEARERS_PER_UE && n <= |ms|
  {
    if n == 0 then Response(0, None, NoCause, 0, None)
    else
      var r := ErabsAccepted(t, ms, n - 1);
      var b := GetBearer(t, ms[n - 1].ebi);
      if b.None? || !b.value.state.enb then r
      else
        r.(cause := RequestAccepted, count := r.count + 1,
           slot0 := Some(RspBearer(ms[n - 1].ebi, true, b.value.enbTeid, b.value.sgwTeid)))
  }

  /** The tunnel endpoints of a place that is filled again stay. */
  function Overwritten(slot: Option<RspBearer>, ebi: nat): (b: RspBearer) {
    if slot.Some? then slot.value.(ebi := ebi, accepted := false) else RspBearer(ebi, false, 0, 0)
  }

  /** The response after the first n entries of the same list have been gone through again, as rejected;
      every one that is entered loses its state, so it is not entered twice. */
  function ErabsRejected(t: Tables, r0: Response, ms: seq<ErabSetup>, n: nat): (r: Response)
    requires |t.bearers| == BEARERS_PER_UE && n <= |ms|
  {
    if n == 0 then r0
    else
      var r := ErabsRejected(t, r0, ms, n - 1);
      var b := GetBearer(ErabsReset(t, ms, n - 1), ms[n - 1].ebi);
      if b.None? || !b.value.state.mme then r
      else
        r.(cause := if r.cause == RequestAccepted then RequestAcceptedPartially else RequestRejected, count := r.count + 1,
           slot0 := Some(Overwritten(r.slot0, ms[n - 1].ebi)))
  }

  /** The whole E-RAB setup response: the tables after it, and the create-bearer response it sends, if
      any. That one carries no transaction. */
  function ErabSetupRsp(t: Tables, ups: seq<ErabSetup>, downs: seq<nat>): (r: Option<(Tables, Option<Response>)>)
    requires |t.bearers| == BEARERS_PER_UE
  {
    var u := ErabsUp(t, ups, |ups|);
    if u.None? then None
    else
      var d := ErabsDown(u.value.0, u.value.1, downs, |downs|);
      if d.None? then None
      else if !d.value.1 then Some((d.value.0, None))
      else
        Some((ErabsReset(d.value.0, ups, |ups|),
              Some(ErabsRejected(d.value.0, ErabsAccepted(d.value.0, ups, |ups|), ups, |ups|))))
  }

  // ---------------------------------------------------------------- create-bearer procedure

  function DeleteProc(t: Tables): (t': Tables) {
    if t.procs == [] then t else t.(procs := t.procs[1..])
  }

  function NewProc(trxn: nat): (p: Proc) {
    Proc(trxn, 0, 0, NoStatus())
  }

  /** One bearer context of a create-bearer request, recorded in the newest procedure. The bearer
      context is filled in whether or not the tables took it. */
  function RequestBearer(t: Tables, cid: nat, m: BearerRequest): (r: Option<Tables>)
    requires WellSized(t) && cid < MAX_APN_PER_UE && t.procs != []
    ensures r.Some? ==> WellSized(r.value) && r.value.procs != []
  {
    var ebi := ResolveEbi(t, m.ebi);
    if ebi == EBI_UNASSIGNED then None
    else
      var i := ebi - EBI_FIRST;
      var added := CanAdd(t, ebi, cid);
      var t1 := CreateBearer(t, cid, m.ebi);
      var t2 := if added
                then PutBearer(t1, i, Requested(t1.bearers[i].value, m))
                else t1;
      var p := t.procs[0];
      Some(t2.(procs := [p.(numBearers := p.numBearers + 1, status := p.status[i := Pending])] + t.procs[1..]))
  }

  function Requested(b: Bearer, m: BearerRequest): (b': Bearer) {
    b.(state := b.state.(sgw := true, mme := true), sgwTeid := m.sgwTeid, qci := m.qci, arp := m.arp)
  }

  /** The first n bearer contexts of a create-bearer request. */
  function RequestBearers(t: Tables, cid: nat, ms: seq<BearerRequest>, n: nat): (r: Option<Tables>)
    requires WellSized(t) && cid < MAX_APN_PER_UE && t.procs != [] && n <= |ms|
    ensures r.Some? ==> WellSized(r.value) && r.value.procs != []
  {
    if n == 0 then Some(t)
    else
      var r := RequestBearers(t, cid, ms, n - 1);
      if r.None? then None else RequestBearer(r.value, cid, ms[n - 1])
  }

  function StartProc(t: Tables, trxn: nat): (t': Tables)
    ensures t'.procs != []
  {
    t.(procs := [NewProc(trxn)] + t.procs)
  }

  /** What the first n slots contribute to a response; None when a decided slot has no bearer. */
  datatype Collected = Collected(sgwTeid: nat, count: nat, slot0: Option<RspBearer>)

  function Collect(t: Tables, status: seq<Status>, n: nat): (r: Option<Collected>)
    requires WellSized(t) && |status| == BEARERS_PER_UE && n <= BEARERS_PER_UE
  {
    if n == 0 then Some(Collected(0, 0, None))
    else
      var r := Collect(t, status, n - 1);
      if r.None? || status[n - 1] == Unknown || status[n - 1] == Pending then r
      else if t.bearers[n - 1].None? then None
      else
        var b := t.bearers[n - 1].value;
        if !(0 <= b.pdnCxId < MAX_APN_PER_UE) || t.pdns[b.pdnCxId].None? then None
        else
          Some(Collected(t.pdns[b.pdnCxId].value.sgwTeid, r.value.count + 1,
                         Some(RspBearer(n - 1 + EBI_FIRST, status[n - 1] == Success, b.enbTeid, b.sgwTeid))))
  }

  /** The cause: the number of rejected bearers is never counted and stays 0. */
  function ResponseCause(numBearers: nat, numRejected: nat): (c: RspCause) {
    if numBearers == numRejected then RequestRejected
    else if numRejected != 0 then RequestAcceptedPartially
    else RequestAccepted
  }

  function Respond(t: Tables, p: Proc): (r: Option<Response>)
    requires WellSized(t) && |p.status| == BEARERS_PER_UE
  {
    var c := Collect(t, p.status, BEARERS_PER_UE);
    if c.None? then None
    else Some(Response(c.value.sgwTeid, Some(p.trxn), ResponseCause(p.numBearers, 0), c.value.count, c.value.slot0))
  }

  /** The effect of an answer of the NAS layer; `sent` holds the S11 response it triggered. */
  datatype Answered = Answered(t: Tables, sent: Option<Response>)

  function Answer(t: Tables, ebi: nat, success: bool): (r: Option<Answered>)
    requires WellSized(t)
  {
    if t.procs == [] then Some(Answered(t, None))
    else if !EbiInRange(ebi) then None
    else
      var p := t.procs[0].(numReceived := t.procs[0].numReceived + 1,
                           status := t.procs[0].status[ebi - EBI_FIRST := if success then Success else Failed]);
      if p.numReceived != p.numBearers then Some(Answered(t.(procs := [p] + t.procs[1..]), None))
      else
        var rsp := Respond(t, p);
        if rsp.None? then None else Some(Answered(t.(procs := t.procs[1..]), rsp))
  }
}
