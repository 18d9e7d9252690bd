/** Which steps send an S11 create-bearer response, and what the one that comes out of an E-RAB setup
    response says. */
module CreateBearerResponses {
  import opened Common
  import opened UeModel
  import opened Registry
  import opened Handlers
  import opened Invariant
  import opened Runs
  import opened StepFrames
  import opened StepLaws
  import opened StepLawProofs
  import B = Bearers
  import BP = BearerProofs
  import E = BearerEffects

  // ---------------------------------------------------------------- E-RAB setup responses

  /** The gateway has created the bearer. */
  predicate Created(t: B.Tables, ebi: nat)
    requires |t.bearers| == B.BEARERS_PER_UE
  {
    B.GetBearer(t, ebi).Some? && B.GetBearer(t, ebi).value.state.sgw
  }

  predicate CreatedAndActive(t: B.Tables, ebi: nat)
    requires |t.bearers| == B.BEARERS_PER_UE
  {
    Created(t, ebi) && B.GetBearer(t, ebi).value.esm == B.EsmActive
  }

  /** What makes an E-RAB setup response answer the gateway: an E-RAB that was set up for a bearer NAS
      has active already, or one that was not set up. */
  ghost predicate Due(t: B.Tables, ups: seq<B.ErabSetup>, downs: seq<nat>)
    requires |t.bearers| == B.BEARERS_PER_UE
  {
    || (exists k :: 0 <= k < |ups| && CreatedAndActive(t, ups[k].ebi))
    || (exists k :: 0 <= k < |downs| && Created(t, downs[k]))
  }

  /** The same bearers, with the same gateway side and the same status at NAS. */
  ghost predicate SameSides(t: B.Tables, t': B.Tables) {
    && |t.bearers| == |t'.bearers| == B.BEARERS_PER_UE
    && (forall ebi :: Created(t', ebi) <==> Created(t, ebi))
    && (forall ebi :: CreatedAndActive(t', ebi) <==> CreatedAndActive(t, ebi))
  }

  lemma ErabUpSides(t: B.Tables, m: B.ErabSetup)
    requires |t.bearers| == B.BEARERS_PER_UE && B.ErabUp(t, m).Some?
    ensures SameSides(t, B.ErabUp(t, m).value)
  {
  }

  lemma ErabDownSides(t: B.Tables, ebi: nat)
    requires |t.bearers| == B.BEARERS_PER_UE && B.ErabDown(t, ebi).Some?
    ensures SameSides(t, B.ErabDown(t, ebi).value)
  {
  }

  lemma {:induction false} ErabsUpDue(t: B.Tables, ms: seq<B.ErabSetup>, n: nat)
    requires |t.bearers| == B.BEARERS_PER_UE && n <= |ms| && B.ErabsUp(t, ms, n).Some?
    ensures SameSides(t, B.ErabsUp(t, ms, n).value.0)
    ensures B.ErabsUp(t, ms, n).value.1 <==> exists k :: 0 <= k < n && CreatedAndActive(t, ms[k].ebi)
  {
    if n > 0 {
      ErabsUpDue(t, ms, n - 1);
      ErabUpSides(B.ErabsUp(t, ms, n - 1).value.0, ms[n - 1]);
      hide B.ErabUp;
    }
  }

  lemma {:induction false} ErabsDownDue(t: B.Tables, due: bool, ebis: seq<nat>, n: nat)
    requires |t.bearers| == B.BEARERS_PER_UE && n <= |ebis| && B.ErabsDown(t, due, ebis, n).Some?
    ensures SameSides(t, B.ErabsDown(t, due, ebis, n).value.0)
    ensures B.ErabsDown(t, due, ebis, n).value.1 <==> due || exists k :: 0 <= k < n && Created(t, ebis[k])
  {
    if n > 0 {
      ErabsDownDue(t, due, ebis, n - 1);
      ErabDownSides(B.ErabsDown(t, due, ebis, n - 1).value.0, ebis[n - 1]);
      hide B.ErabDown;
    }
  }

  /** An E-RAB setup response answers the gateway if and only if, in the tables as it finds them, one of
      its entries makes it due. The answer carries no transaction. */
  lemma ErabRespondsIffDue(t: B.Tables, ups: seq<B.ErabSetup>, downs: seq<nat>)
    requires |t.bearers| == B.BEARERS_PER_UE && B.ErabSetupRsp(t, ups, downs).Some?
    ensures B.ErabSetupRsp(t, ups, downs).value.1.Some? <==> Due(t, ups, downs)
    ensures B.ErabSetupRsp(t, ups, downs).value.1.Some? ==> B.ErabSetupRsp(t, ups, downs).value.1.value.trxn == None
  {
    hide B.ErabsUp, B.ErabsDown, B.ErabsReset, B.ErabsAccepted, B.ErabsRejected, Created, CreatedAndActive;
    ErabsUpDue(t, ups, |ups|);
    var u := B.ErabsUp(t, ups, |ups|).value;
    ErabsDownDue(u.0, u.1, downs, |downs|);
    var d := B.ErabsDown(u.0, u.1, downs, |downs|).value;
    NoTransaction(d.0, ups);
  }

  lemma {:induction false} AcceptedNoTransaction(t: B.Tables, ms: seq<B.ErabSetup>, n: nat)
    requires |t.bearers| == B.BEARERS_PER_UE && n <= |ms|
    ensures B.ErabsAccepted(t, ms, n).trxn == None
  {
    if n > 0 {
      AcceptedNoTransaction(t, ms, n - 1);
    }
  }

  lemma {:induction false} RejectedNoTransaction(t: B.Tables, r0: B.Response, ms: seq<B.ErabSetup>, n: nat)
    requires |t.bearers| == B.BEARERS_PER_UE && n <= |ms| && r0.trxn == None
    ensures B.ErabsRejected(t, r0, ms, n).trxn == None
  {
    if n > 0 {
      RejectedNoTransaction(t, r0, ms, n - 1);
    }
  }

  lemma NoTransaction(t: B.Tables, ups: seq<B.ErabSetup>)
    requires |t.bearers| == B.BEARERS_PER_UE
    ensures B.ErabsRejected(t, B.ErabsAccepted(t, ups, |ups|), ups, |ups|).trxn == None
  {
    AcceptedNoTransaction(t, ups, |ups|);
    RejectedNoTransaction(t, B.ErabsAccepted(t, ups, |ups|), ups, |ups|);
  }

  // ---------------------------------------------------------------- what it says

  predicate EnbUp(t: B.Tables, ebi: nat)
    requires |t.bearers| == B.BEARERS_PER_UE
  {
    B.GetBearer(t, ebi).Some? && B.GetBearer(t, ebi).value.state.enb
  }

  /** The response after the first pass over n entries: nothing, or accepted, with the EBI and the tunnel
      endpoints of the last bearer whose radio side is up. */
  ghost predicate FirstPass(t: B.Tables, ms: seq<B.ErabSetup>, n: nat, r: B.Response)
    requires |t.bearers| == B.BEARERS_PER_UE && n <= |ms|
  {
    if NoneUp(t, ms, n) then r == B.Response(0, None, B.NoCause, 0, None)
    else
      && r.cause == B.RequestAccepted && r.trxn == None && r.sgwTeid == 0
      && exists k :: 0 <= k < n && LastUp(t, ms, n, k) && Described(t, ms[k].ebi, r.slot0)
  }

  predicate Described(t: B.Tables, ebi: nat, slot: Option<B.RspBearer>)
    requires |t.bearers| == B.BEARERS_PER_UE
  {
    EnbUp(t, ebi) && var b := B.GetBearer(t, ebi).value; slot == Some(B.RspBearer(ebi, true, b.enbTeid, b.sgwTeid))
  }

  predicate NoneUp(t: B.Tables, ms: seq<B.ErabSetup>, n: nat)
    requires |t.bearers| == B.BEARERS_PER_UE && n <= |ms|
  {
    forall k :: 0 <= k < n ==> !EnbUp(t, ms[k].ebi)
  }

  ghost predicate LastUp(t: B.Tables, ms: seq<B.ErabSetup>, n: nat, k: int)
    requires |t.bearers| == B.BEARERS_PER_UE && n <= |ms|
  {
    0 <= k < n && EnbUp(t, ms[k].ebi) && forall l :: k < l < n ==> !EnbUp(t, ms[l].ebi)
  }

  lemma {:induction false} FirstPassIs(t: B.Tables, ms: seq<B.ErabSetup>, n: nat)
    requires |t.bearers| == B.BEARERS_PER_UE && n <= |ms|
    ensures FirstPass(t, ms, n, B.ErabsAccepted(t, ms, n))
  {
    if n > 0 {
      FirstPassIs(t, ms, n - 1);
      assert B.ErabsAccepted(t, ms, n) == Accepts(t, ms[n - 1], B.ErabsAccepted(t, ms, n - 1));
      hide FirstPass, B.ErabsAccepted, Accepts;
      OneMoreAccepted(t, ms, n, B.ErabsAccepted(t, ms, n - 1));
    }
  }

  /** One more entry of the first pass. */
  function Accepts(t: B.Tables, m: B.ErabSetup, r: B.Response): (r': B.Response)
    requires |t.bearers| == B.BEARERS_PER_UE
  {
    if EnbUp(t, m.ebi) then
      var b := B.GetBearer(t, m.ebi).value;
      r.(cause := B.RequestAccepted, count := r.count + 1, slot0 := Some(B.RspBearer(m.ebi, true, b.enbTeid, b.sgwTeid)))
    else r
  }

  lemma AcceptsOne(t: B.Tables, m: B.ErabSetup, r: B.Response)
    requires |t.bearers| == B.BEARERS_PER_UE
    ensures var r' := Accepts(t, m, r);
            if EnbUp(t, m.ebi) then
              r'.cause == B.RequestAccepted && r'.trxn == r.trxn && r'.sgwTeid == r.sgwTeid && Described(t, m.ebi, r'.slot0)
            else r' == r
  {
  }

  lemma UpLast(t: B.Tables, ms: seq<B.ErabSetup>, n: nat, r: B.Response)
    requires |t.bearers| == B.BEARERS_PER_UE && 0 < n <= |ms| && EnbUp(t, ms[n - 1].ebi) && Described(t, ms[n - 1].ebi, r.slot0)
    requires r.cause == B.RequestAccepted && r.trxn == None && r.sgwTeid == 0
    ensures FirstPass(t, ms, n, r)
  {
    hide EnbUp, Described;
    assert LastUp(t, ms, n, n - 1);
  }

  lemma OneMoreDown(t: B.Tables, ms: seq<B.ErabSetup>, n: nat)
    requires |t.bearers| == B.BEARERS_PER_UE && 0 < n <= |ms| && !EnbUp(t, ms[n - 1].ebi)
    ensures NoneUp(t, ms, n - 1) <==> NoneUp(t, ms, n)
  {
    hide EnbUp;
  }

  lemma LastStays(t: B.Tables, ms: seq<B.ErabSetup>, n: nat, k: int)
    requires |t.bearers| == B.BEARERS_PER_UE && 0 < n <= |ms| && !EnbUp(t, ms[n - 1].ebi) && LastUp(t, ms, n - 1, k)
    ensures LastUp(t, ms, n, k)
  {
    hide EnbUp;
  }

  lemma UpBefore(t: B.Tables, ms: seq<B.ErabSetup>, n: nat, r: B.Response)
    requires |t.bearers| == B.BEARERS_PER_UE && 0 < n <= |ms| && !EnbUp(t, ms[n - 1].ebi) && FirstPass(t, ms, n - 1, r)
    ensures FirstPass(t, ms, n, r)
  {
    hide EnbUp, Described, NoneUp, LastUp;
    OneMoreDown(t, ms, n);
    if !NoneUp(t, ms, n - 1) {
      var k :| 0 <= k < n - 1 && LastUp(t, ms, n - 1, k) && Described(t, ms[k].ebi, r.slot0);
      LastStays(t, ms, n, k);
    }
  }

  lemma PassedFields(t: B.Tables, ms: seq<B.ErabSetup>, n: nat, r: B.Response)
    requires |t.bearers| == B.BEARERS_PER_UE && n <= |ms| && FirstPass(t, ms, n, r)
    ensures r.trxn == None && r.sgwTeid == 0
  {
    hide EnbUp, Described, LastUp;
  }

  lemma OneMoreAccepted(t: B.Tables, ms: seq<B.ErabSetup>, n: nat, r: B.Response)
    requires |t.bearers| == B.BEARERS_PER_UE && 0 < n <= |ms| && FirstPass(t, ms, n - 1, r)
    ensures FirstPass(t, ms, n, Accepts(t, ms[n - 1], r))
  {
    hide EnbUp, Accepts, Described, FirstPass;
    AcceptsOne(t, ms[n - 1], r);
    PassedFields(t, ms, n - 1, r);
    if EnbUp(t, ms[n - 1].ebi) {
      UpLast(t, ms, n, Accepts(t, ms[n - 1], r));
    } else {
      UpBefore(t, ms, n, r);
    }
  }

  /** The second pass keeps the tunnel endpoints of the first and names an entry that is up at the MME. */
  lemma {:induction false} SecondPassKeeps(t: B.Tables, r0: B.Response, ms: seq<B.ErabSetup>, n: nat)
    requires |t.bearers| == B.BEARERS_PER_UE && n <= |ms|
    ensures var r := B.ErabsRejected(t, r0, ms, n);
            && r.trxn == r0.trxn && r.sgwTeid == r0.sgwTeid
            && (r.slot0.Some? && r0.slot0.Some? ==>
                  r.slot0.value.enbTeid == r0.slot0.value.enbTeid && r.slot0.value.sgwTeid == r0.slot0.value.sgwTeid)
            && (r.slot0.Some? && r0.slot0.None? ==> r.slot0.value.enbTeid == 0 && r.slot0.value.sgwTeid == 0)
            && (r.slot0.None? ==> r0.slot0.None?)
            && (r != r0 ==> r.slot0.Some? && exists k :: 0 <= k < n && MmeUp(t, ms[k].ebi) && r.slot0.value.ebi == ms[k].ebi)
  {
    if n > 0 {
      SecondPassKeeps(t, r0, ms, n - 1);
      ResetExact(t, ms, n - 1, ms[n - 1].ebi);
      hide B.ErabsReset, E.UpIn;
    }
  }

  /** One rejected bearer turns an acceptance into a partial one, a second one into a rejection. */
  lemma {:induction false} SecondPassCause(t: B.Tables, r0: B.Response, ms: seq<B.ErabSetup>, n: nat)
    requires |t.bearers| == B.BEARERS_PER_UE && n <= |ms| && (r0.cause == B.NoCause || r0.cause == B.RequestAccepted)
    ensures var r := B.ErabsRejected(t, r0, ms, n);
            && r.count >= r0.count
            && r.cause == (if r.count == r0.count then r0.cause
                           else if r.count == r0.count + 1 && r0.cause == B.RequestAccepted then B.RequestAcceptedPartially
                           else B.RequestRejected)
  {
    hide B.ErabsReset;
    if n > 0 {
      SecondPassCause(t, r0, ms, n - 1);
    }
  }

  predicate MmeUp(t: B.Tables, ebi: nat)
    requires |t.bearers| == B.BEARERS_PER_UE
  {
    B.GetBearer(t, ebi).Some? && B.GetBearer(t, ebi).value.state.mme
  }

  /** The response names no bearer, or only ones it calls rejected. */
  ghost predicate SaysRejected(r: B.Response) {
    if r.slot0.None? then r.cause == B.NoCause && r.count == 0
    else !r.slot0.value.accepted && (r.cause == B.RequestAcceptedPartially || r.cause == B.RequestRejected)
  }

  lemma {:induction false} NoneAccepted(t: B.Tables, ms: seq<B.ErabSetup>, n: nat)
    requires B.StatesOk(t) && |t.bearers| == B.BEARERS_PER_UE && n <= |ms| && forall k :: 0 <= k < n ==> !MmeUp(t, ms[k].ebi)
    ensures B.ErabsAccepted(t, ms, n) == B.Response(0, None, B.NoCause, 0, None)
  {
    if n > 0 {
      NoneAccepted(t, ms, n - 1);
    }
  }

  /** The second pass over the list enters nothing, and then no bearer of the list is up at the MME, or it
      turns what the first pass entered into a rejection. */
  lemma {:induction false} RejectedLast(t: B.Tables, r0: B.Response, ms: seq<B.ErabSetup>, n: nat)
    requires |t.bearers| == B.BEARERS_PER_UE && n <= |ms|
    ensures var r := B.ErabsRejected(t, r0, ms, n);
            || (r == r0 && B.ErabsReset(t, ms, n) == t && forall k :: 0 <= k < n ==> !MmeUp(t, ms[k].ebi))
            || (r.slot0.Some? && SaysRejected(r))
  {
    if n > 0 {
      RejectedLast(t, r0, ms, n - 1);
    }
  }

  /** The second pass takes the state from exactly the bearers of the list that are up at the MME. */
  lemma {:induction false} ResetExact(t: B.Tables, ms: seq<B.ErabSetup>, n: nat, ebi: nat)
    requires |t.bearers| == B.BEARERS_PER_UE && n <= |ms|
    ensures B.GetBearer(B.ErabsReset(t, ms, n), ebi)
            == if E.UpIn(ms, n, ebi) && MmeUp(t, ebi) then Some(B.GetBearer(t, ebi).value.(state := B.STATE_NULL)) else B.GetBearer(t, ebi)
  {
    if n > 0 {
      ResetExact(t, ms, n - 1, ebi);
      assert E.UpIn(ms, n, ebi) <==> E.UpIn(ms, n - 1, ebi) || ms[n - 1].ebi == ebi;
      hide E.UpIn;
    }
  }

  /** The answer an E-RAB setup response gives the gateway never accepts a bearer: the ones that were set
      up are gone through again, entered as rejected, and lose their state. */
  lemma ErabResponseRejects(t: B.Tables, ups: seq<B.ErabSetup>, downs: seq<nat>)
    requires B.TablesOk(t) && B.ErabSetupRsp(t, ups, downs).Some? && B.ErabSetupRsp(t, ups, downs).value.1.Some?
    ensures SaysRejected(B.ErabSetupRsp(t, ups, downs).value.1.value)
    ensures |B.ErabSetupRsp(t, ups, downs).value.0.bearers| == B.BEARERS_PER_UE
    ensures forall k :: 0 <= k < |ups| ==> !MmeUp(B.ErabSetupRsp(t, ups, downs).value.0, ups[k].ebi)
  {
    hide B.ErabsUp, B.ErabsDown, B.ErabsReset, B.ErabsAccepted, B.ErabsRejected, SaysRejected;
    BP.ErabsUpKeeps(t, ups, |ups|);
    var u := B.ErabsUp(t, ups, |ups|).value;
    BP.ErabsDownKeeps(u.0, u.1, downs, |downs|);
    var d := B.ErabsDown(u.0, u.1, downs, |downs|).value;
    PassesReject(d.0, ups);
    forall k | 0 <= k < |ups| ensures !MmeUp(B.ErabsReset(d.0, ups, |ups|), ups[k].ebi) {
      ResetExact(d.0, ups, |ups|, ups[k].ebi);
    }
  }

  /** The state of a bearer after an E-RAB setup response: set up, not set up, and lost again if the gateway
      was answered. */
  function StateAfter(s: B.State, up: bool, down: bool, answered: bool): (s': B.State) {
    var s1 := if s.sgw && up then s.(enb := true) else s;
    var s2 := if s.sgw && down then s1.(enb := false, mme := false) else s1;
    if answered && up && s2.mme then B.State(false, false, false, false) else s2
  }

  /** What an E-RAB setup response leaves in slot j: the TEID of the eNB is that of the last entry about the
      bearer, if the gateway has created it; of all other fields only the state changes. */
  lemma ErabSetupEffect(t: B.Tables, ups: seq<B.ErabSetup>, downs: seq<nat>, j: nat)
    requires |t.bearers| == B.BEARERS_PER_UE && j < B.BEARERS_PER_UE && B.ErabSetupRsp(t, ups, downs).Some?
    ensures var r, ebi := B.ErabSetupRsp(t, ups, downs).value, j + B.EBI_FIRST;
            && r.0.pdns == t.pdns && r.0.procs == t.procs && |r.0.bearers| == B.BEARERS_PER_UE
            && (r.0.bearers[j].Some? <==> t.bearers[j].Some?)
            && (t.bearers[j].Some? ==>
                  var b, b', up := t.bearers[j].value, r.0.bearers[j].value, E.UpIn(ups, |ups|, ebi);
                  && b' == b.(state := b'.state, enbTeid := b'.enbTeid)
                  && b'.state == StateAfter(b.state, up, ebi in downs, r.1.Some?)
                  && (if b.state.sgw && up then exists k :: E.LastOf(ups, |ups|, ebi, k) && b'.enbTeid == ups[k].enbTeid
                      else b'.enbTeid == b.enbTeid))
  {
    hide B.ErabsUp, B.ErabsDown, B.ErabsReset, B.ErabsAccepted, B.ErabsRejected, E.UpIn, E.LastOf;
    E.ErabsUpEffect(t, ups, |ups|, j);
    var u := B.ErabsUp(t, ups, |ups|).value;
    E.ErabsDownEffect(u.0, u.1, downs, |downs|, j);
    assert downs[..|downs|] == downs;
    var d := B.ErabsDown(u.0, u.1, downs, |downs|).value;
    ResetExact(d.0, ups, |ups|, j + B.EBI_FIRST);
    ResetKeeps(d.0, ups, |ups|);
  }

  lemma {:induction false} ResetKeeps(t: B.Tables, ms: seq<B.ErabSetup>, n: nat)
    requires |t.bearers| == B.BEARERS_PER_UE && n <= |ms|
    ensures B.ErabsReset(t, ms, n).pdns == t.pdns && B.ErabsReset(t, ms, n).procs == t.procs
  {
    if n > 0 {
      ResetKeeps(t, ms, n - 1);
    }
  }

  lemma PassesReject(t: B.Tables, ups: seq<B.ErabSetup>)
    requires B.StatesOk(t) && |t.bearers| == B.BEARERS_PER_UE
    ensures SaysRejected(B.ErabsRejected(t, B.ErabsAccepted(t, ups, |ups|), ups, |ups|))
  {
    hide B.ErabsReset, B.ErabsAccepted, B.ErabsRejected, B.StatesOk, MmeUp;
    RejectedLast(t, B.ErabsAccepted(t, ups, |ups|), ups, |ups|);
    if forall k :: 0 <= k < |ups| ==> !MmeUp(t, ups[k].ebi) {
      NoneAccepted(t, ups, |ups|);
    }
  }

  // ---------------------------------------------------------------- steps that send none

  /** Only messages that are no create-bearer responses have been sent since. */
  ghost predicate NoResponse(sent: seq<Message>, sent': seq<Message>) {
    sent <= sent' && forall n :: |sent| <= n < |sent'| ==> !sent'[n].CreateBearerRsp?
  }

  ghost predicate Plain(msgs: seq<Message>) {
    forall k :: 0 <= k < |msgs| ==> !msgs[k].CreateBearerRsp?
  }

  lemma Appended(sent: seq<Message>, msgs: seq<Message>)
    requires Plain(msgs)
    ensures NoResponse(sent, sent + msgs)
  {
  }

  lemma SaidPlain(u: Ue, e: Event, msgs: seq<Message>)
    requires B.WellSized(u.tables) && Says(u, e, msgs) && !e.EvDedicatedAnswer? && !e.EvErabSetupRsp?
    ensures Plain(msgs)
  {
    hide ReleasesAll, DeletesAll, B.Erabs, B.RequestBearers;
    ListedKinds(u, msgs);
  }

  lemma SubjectPlain(m: Mme, e: Event, m': Mme, u: Ue)
    requires B.WellSized(u.tables) && SubjectLaw(m, e, m', u) && !e.EvDedicatedAnswer? && !e.EvErabSetupRsp?
    ensures NoResponse(m.sent, m'.sent)
  {
    hide FieldsLaw, CountersLaw, TablesAfter, Says;
    var msgs :| SentSince(m, m', msgs) && Says(u, e, msgs);
    SaidPlain(u, e, msgs);
    Appended(m.sent, msgs);
  }

  lemma NobodyPlain(m: Mme, e: Event, m': Mme)
    requires NobodyLaw(m, e, m')
    ensures NoResponse(m.sent, m'.sent)
  {
    hide NewLaw;
  }

  // ---------------------------------------------------------------- steps that send one

  /** The create-bearer response a step sends about its target, if any. */
  function ResponseIn(m: Mme, e: Event): (r: Option<B.Response>)
    requires TablesSized(m)
  {
    if e.EvDedicatedAnswer? && e.id in m.ues then
      var a := B.Answer(m.ues[e.id].tables, e.ebi, e.success);
      if a.None? then None else a.value.sent
    else if e.EvErabSetupRsp? && e.id in m.ues then
      var a := B.ErabSetupRsp(m.ues[e.id].tables, e.ups, e.downs);
      if a.None? then None else a.value.1
    else None
  }

  /** What a step sends: that response on the tunnel of its target, or no create-bearer response. */
  ghost predicate Sends(m: Mme, e: Event, m': Mme)
    requires TablesSized(m)
  {
    if ResponseIn(m, e).None? then NoResponse(m.sent, m'.sent)
    else Target(m, e) in m.ues && m'.sent == m.sent + [CreateBearerRsp(m.ues[Target(m, e)].teid, ResponseIn(m, e).value)]
  }

  lemma AnswerSends(m: Mme, e: Event)
    requires TablesSized(m) && e.EvDedicatedAnswer? && Step(m, e).Done?
    ensures Sends(m, e, Step(m, e).mme)
  {
    hide B.Answer, B.ErabSetupRsp;
  }

  lemma ErabSetupSends(m: Mme, e: Event)
    requires TablesSized(m) && e.EvErabSetupRsp? && Step(m, e).Done?
    ensures Sends(m, e, Step(m, e).mme)
  {
    hide B.Answer, B.ErabSetupRsp;
  }

  lemma OtherSends(m: Mme, e: Event)
    requires IdsOk(m.ues) && TablesSized(m) && !e.EvDedicatedAnswer? && !e.EvErabSetupRsp? && Step(m, e).Done?
    ensures NoResponse(m.sent, Step(m, e).mme.sent)
  {
    hide NoResponse, Step, SubjectLaw, NobodyLaw, Target, IdsOk;
    StepObeys(m, e);
    if Target(m, e) in m.ues && m.ues[Target(m, e)].id == Target(m, e) {
      SubjectPlain(m, e, Step(m, e).mme, m.ues[Target(m, e)]);
    } else {
      NobodyPlain(m, e, Step(m, e).mme);
    }
  }

  /** A step sends at most one create-bearer response, on the tunnel of its target. */
  lemma StepSends(m: Mme, e: Event)
    requires IdsOk(m.ues) && TablesSized(m) && Step(m, e).Done?
    ensures Sends(m, e, Step(m, e).mme)
  {
    hide NoResponse, TablesSized, Step, Sends, IdsOk;
    if e.EvDedicatedAnswer? {
      AnswerSends(m, e);
    } else if e.EvErabSetupRsp? {
      ErabSetupSends(m, e);
    } else {
      OtherSends(m, e);
      NothingIn(m, e, Step(m, e).mme);
    }
  }

  lemma NothingIn(m: Mme, e: Event, m': Mme)
    requires TablesSized(m) && !e.EvDedicatedAnswer? && !e.EvErabSetupRsp? && NoResponse(m.sent, m'.sent)
    ensures Sends(m, e, m')
  {
    hide NoResponse, TablesSized;
  }

  /** The E-RAB setup response is due for the context it is about. */
  ghost predicate DueIn(m: Mme, e: Event)
    requires TablesSized(m)
  {
    e.EvErabSetupRsp? && e.id in m.ues && Due(m.ues[e.id].tables, e.ups, e.downs)
  }

  /** Create-bearer responses are sent by two steps only: by an answer of NAS, with the transaction of the
      newest procedure, and by an E-RAB setup response, without one, if and only if it is due. */
  lemma OnlyAnswersAndErabsRespond(m: Mme, e: Event)
    requires IdsOk(m.ues) && TablesSized(m) && Step(m, e).Done?
    ensures Sends(m, e, Step(m, e).mme)
    ensures ResponseIn(m, e).Some? ==> e.EvDedicatedAnswer? || e.EvErabSetupRsp?
    ensures e.EvErabSetupRsp? ==> (ResponseIn(m, e).Some? <==> DueIn(m, e))
    ensures e.EvErabSetupRsp? && ResponseIn(m, e).Some? ==> ResponseIn(m, e).value.trxn == None
    ensures e.EvDedicatedAnswer? && ResponseIn(m, e).Some? ==>
              && m.ues[e.id].tables.procs != []
              && ResponseIn(m, e).value.trxn == Some(m.ues[e.id].tables.procs[0].trxn)
  {
    StepSends(m, e);
    if e.EvErabSetupRsp? && e.id in m.ues {
      ErabStepDone(m, e);
      ErabRespondsIffDue(m.ues[e.id].tables, e.ups, e.downs);
    }
    hide Sends, Step, Due, B.ErabSetupRsp, B.Respond, IdsOk;
  }

  lemma ErabStepDone(m: Mme, e: Event)
    requires TablesSized(m) && e.EvErabSetupRsp? && e.id in m.ues && Step(m, e).Done?
    ensures B.ErabSetupRsp(m.ues[e.id].tables, e.ups, e.downs).Some?
  {
    hide B.ErabSetupRsp;
  }

  // ---------------------------------------------------------------- runs

  /** What one step sends about the context id. */
  function ResponseTo(m: Mme, e: Event, id: UeId): (rs: seq<B.Response>)
    requires TablesSized(m)
  {
    if Target(m, e) == id && ResponseIn(m, e).Some? then [ResponseIn(m, e).value] else []
  }

  /** The create-bearer responses sent about the context id in the steps from i up to k. */
  ghost function ResponsesTo(states: seq<Mme>, events: seq<Event>, i: nat, k: nat, id: UeId): (rs: seq<B.Response>)
    requires i <= k <= |events| <= |states| && forall l :: 0 <= l < |states| ==> TablesSized(states[l])
  {
    if k == i then [] else ResponsesTo(states, events, i, k - 1, id) + ResponseTo(states[k - 1], events[k - 1], id)
  }

  /** The create-bearer responses among some messages that go out on the tunnel. */
  function OnTunnel(msgs: seq<Message>, teid: nat): (rs: seq<B.Response>) {
    if msgs == [] then []
    else
      var last := msgs[|msgs| - 1];
      OnTunnel(msgs[..|msgs| - 1], teid) + (if last.CreateBearerRsp? && last.localTeid == teid then [last.response] else [])
  }

  lemma {:induction false} OnTunnelJoins(a: seq<Message>, b: seq<Message>, teid: nat)
    ensures OnTunnel(a + b, teid) == OnTunnel(a, teid) + OnTunnel(b, teid)
  {
    if b == [] {
      assert a + b == a;
    } else {
      var n := |b| - 1;
      OnTunnelJoins(a, b[..n], teid);
      assert (a + b)[..|a + b| - 1] == a + b[..n];
      assert (a + b)[|a + b| - 1] == b[n];
    }
  }

  lemma {:induction false} PlainOnTunnel(msgs: seq<Message>, teid: nat)
    requires Plain(msgs)
    ensures OnTunnel(msgs, teid) == []
  {
    if msgs != [] {
      PlainOnTunnel(msgs[..|msgs| - 1], teid);
    }
  }

  /** In one step exactly what is sent about the context goes out on its tunnel. */
  lemma StepOnTunnel(m: Mme, e: Event, m': Mme, u: Ue)
    requires TablesSized(m) && IndexOk(m) && u.id in m.ues && m.ues[u.id] == u && ValidTeid(u.teid) && Sends(m, e, m')
    ensures m.sent <= m'.sent
    ensures OnTunnel(m'.sent[|m.sent|..], u.teid) == ResponseTo(m, e, u.id)
  {
    hide Covered, ResponseIn, Target, TablesSized;
    var msgs := m'.sent[|m.sent|..];
    if ResponseIn(m, e).None? {
      PlainOnTunnel(msgs, u.teid);
    } else {
      var x, r := Target(m, e), ResponseIn(m, e).value;
      assert msgs == [CreateBearerRsp(m.ues[x].teid, r)];
      OneOnTunnel(m.ues[x].teid, r, u.teid);
      TunnelsDiffer(m, u, x);
    }
  }

  lemma OneOnTunnel(teid: nat, r: B.Response, teid': nat)
    ensures OnTunnel([CreateBearerRsp(teid, r)], teid') == if teid == teid' then [r] else []
  {
    assert [CreateBearerRsp(teid, r)][..0] == [];
  }

  lemma TunnelsDiffer(m: Mme, u: Ue, x: UeId)
    requires IndexOk(m) && u.id in m.ues && m.ues[u.id] == u && ValidTeid(u.teid) && x in m.ues
    ensures m.ues[x].teid == u.teid <==> x == u.id
  {
  }

  /** The context keeps the tunnel from state i to state j. */
  ghost predicate KeepsTunnel(states: seq<Mme>, i: nat, j: nat, id: UeId, teid: nat)
    requires i <= j < |states|
  {
    ValidTeid(teid) && forall k :: i <= k <= j ==> id in states[k].ues && states[k].ues[id].teid == teid
  }

  /** As long as a context keeps its tunnel, the create-bearer responses that go out on it are those sent
      about the context. */
  lemma {:induction false} RunTunnel(periodicTau: bool, states: seq<Mme>, events: seq<Event>, i: nat, j: nat, id: UeId, teid: nat)
    requires IsRun(periodicTau, states, events) && i <= j < |states| && KeepsTunnel(states, i, j, id, teid)
    ensures states[i].sent <= states[j].sent
    ensures OnTunnel(states[j].sent[|states[i].sent|..], teid) == ResponsesTo(states, events, i, j, id)
  {
    hide Step, TablesSized, Admissible, Start, OnTunnel, ResponseTo, Sends, UesOk, StatsOk, HistoryOk, Indexed, Covered;
    if i == j {
      NoneOnTunnel(states[i].sent, teid);
    } else {
      RunTunnel(periodicTau, states, events, i, j - 1, id, teid);
      RunStep(periodicTau, states, events, j - 1);
      RunInv(periodicTau, states, events, j - 1);
      var m, m' := states[j - 1], states[j];
      StepSends(m, events[j - 1]);
      StepOnTunnel(m, events[j - 1], m', m.ues[id]);
      Suffixes(states[i].sent, m.sent, m'.sent);
      OnTunnelJoins(m.sent[|states[i].sent|..], m'.sent[|m.sent|..], teid);
    }
  }

  lemma NoneOnTunnel(sent: seq<Message>, teid: nat)
    ensures OnTunnel(sent[|sent|..], teid) == []
  {
  }

  lemma Suffixes(a: seq<Message>, b: seq<Message>, c: seq<Message>)
    requires a <= b <= c
    ensures a <= c && c[|a|..] == b[|a|..] + c[|b|..]
  {
  }
}
