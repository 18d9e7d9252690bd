/** The S11 create-bearer procedure fans a request out into one NAS procedure per bearer and
    answers the gateway once, when the last of them has been decided. */
module CreateBearerFanIn {
  import opened Common
  import opened Bearers
  import opened BearerProofs

  predicate IsPending(s: Status) { s == Pending }

  predicate IsFailed(s: Status) { s == Failed }

  predicate IsDecided(s: Status) { s == Failed || s == Success }

  function Count(s: seq<Status>, p: Status -> bool): (n: nat)
    ensures n <= |s|
  {
    if s == [] then 0 else Count(s[..|s| - 1], p) + (if p(s[|s| - 1]) then 1 else 0)
  }

  function Pendings(s: seq<Status>): (n: nat) { Count(s, IsPending) }

  function Decideds(s: seq<Status>): (n: nat) { Count(s, IsDecided) }

  function Faileds(s: seq<Status>): (n: nat) { Count(s, IsFailed) }

  lemma {:induction false} CountUpdate(s: seq<Status>, i: nat, x: Status, p: Status -> bool)
    requires i < |s|
    ensures Count(s[i := x], p) == Count(s, p) - (if p(s[i]) then 1 else 0) + (if p(x) then 1 else 0)
  {
    var n := |s| - 1;
    if i < n {
      CountUpdate(s[..n], i, x, p);
      assert s[i := x][..n] == s[..n][i := x];
    } else {
      assert s[i := x][..n] == s[..n];
    }
  }

  lemma {:induction false} CountZero(s: seq<Status>, p: Status -> bool)
    ensures Count(s, p) == 0 <==> forall i :: 0 <= i < |s| ==> !p(s[i])
  {
    if s != [] {
      CountZero(s[..|s| - 1], p);
      assert forall i :: 0 <= i < |s| - 1 ==> s[..|s| - 1][i] == s[i];
    }
  }

  ghost predicate NoDuplicates(s: seq<nat>) {
    forall i, j :: 0 <= i < j < |s| ==> s[i] != s[j]
  }

  // ---------------------------------------------------------------- fan-out

  /** The EBIs that the first n bearer contexts of a request were given. */
  ghost function Resolved(t: Tables, cid: nat, ms: seq<BearerRequest>, n: nat): (r: seq<nat>)
    requires WellSized(t) && cid < MAX_APN_PER_UE && t.procs != [] && n <= |ms|
    requires RequestBearers(t, cid, ms, n).Some?
    ensures |r| == n
  {
    if n == 0 then []
    else Resolved(t, cid, ms, n - 1) + [ResolveEbi(RequestBearers(t, cid, ms, n - 1).value, ms[n - 1].ebi)]
  }

  /** Every slot the procedure has marked holds a bearer. */
  ghost predicate Backed(t: Tables, p: Proc) {
    && |t.bearers| == |p.status| == BEARERS_PER_UE
    && (forall i :: 0 <= i < BEARERS_PER_UE && p.status[i] != Unknown ==> t.bearers[i].Some?)
  }

  lemma RequestBearerShape(t: Tables, cid: nat, m: BearerRequest)
    requires WellSized(t) && cid < MAX_APN_PER_UE && t.pdns[cid].Some? && t.procs != []
    requires RequestBearer(t, cid, m).Some?
    ensures var r := RequestBearer(t, cid, m).value;
            var i := ResolveEbi(t, m.ebi) - EBI_FIRST;
            && 0 <= i < BEARERS_PER_UE
            && r.pdns[cid].Some?
            && r.bearers[i].Some?
            && (forall j :: 0 <= j < BEARERS_PER_UE && t.bearers[j].Some? ==> r.bearers[j].Some?)
            && r.procs == [t.procs[0].(numBearers := t.procs[0].numBearers + 1,
                                       status := t.procs[0].status[i := Pending])] + t.procs[1..]
  {
    var i := ResolveEbi(t, m.ebi) - EBI_FIRST;
    if t.bearers[i].None? {
      assert CanAdd(t, i + EBI_FIRST, cid);
    }
  }

  /** A status list in which exactly the given EBIs are pending and nothing is decided. */
  ghost predicate Marks(status: seq<Status>, ebis: seq<nat>) {
    && |status| == BEARERS_PER_UE
    && (forall i :: 0 <= i < BEARERS_PER_UE ==> status[i] == (if i + EBI_FIRST in ebis then Pending else Unknown))
    && Decideds(status) == 0
    && Pendings(status) <= |ebis|
    && (Pendings(status) == |ebis| <==> NoDuplicates(ebis))
  }

  lemma MarkOneMore(status: seq<Status>, ebis: seq<nat>, e: nat)
    requires Marks(status, ebis) && EbiInRange(e)
    ensures Marks(status[e - EBI_FIRST := Pending], ebis + [e])
  {
    CountUpdate(status, e - EBI_FIRST, Pending, IsPending);
    CountUpdate(status, e - EBI_FIRST, Pending, IsDecided);
    ExtendNoDuplicates(ebis, e);
  }

  lemma MarkNone(trxn: nat)
    ensures Marks(NewProc(trxn).status, [])
  {
    CountZero(NoStatus(), IsPending);
    CountZero(NoStatus(), IsDecided);
  }

  /** The newest procedure announces n bearers, nothing has been received for it, it marks exactly
      the given EBIs and every marked slot holds a bearer; `rest` are the older procedures. */
  ghost predicate Fanned(t: Tables, cid: nat, rest: seq<Proc>, trxn: nat, n: nat, ebis: seq<nat>) {
    && WellSized(t)
    && cid < MAX_APN_PER_UE
    && t.pdns[cid].Some?
    && |t.procs| > 0
    && t.procs[1..] == rest
    && t.procs[0].trxn == trxn
    && t.procs[0].numBearers == n
    && t.procs[0].numReceived == 0
    && Marks(t.procs[0].status, ebis)
    && Backed(t, t.procs[0])
  }

  lemma FanOutStep(t: Tables, cid: nat, rest: seq<Proc>, trxn: nat, n: nat, ebis: seq<nat>, m: BearerRequest)
    requires Fanned(t, cid, rest, trxn, n, ebis)
    requires RequestBearer(t, cid, m).Some?
    ensures Fanned(RequestBearer(t, cid, m).value, cid, rest, trxn, n + 1, ebis + [ResolveEbi(t, m.ebi)])
  {
    RequestBearerShape(t, cid, m);
    var e := ResolveEbi(t, m.ebi);
    MarkOneMore(t.procs[0].status, ebis, e);
    var r := RequestBearer(t, cid, m).value;
    assert r.procs[0].status == t.procs[0].status[e - EBI_FIRST := Pending];
  }

  /** After the fan-out the procedure announces one bearer per request, marks exactly the EBIs the
      requests were given, every marked slot holds a bearer, and the number of outstanding answers
      equals the number announced if and only if no two requests were given the same EBI. */
  lemma {:induction false} FanOut(t: Tables, cid: nat, trxn: nat, ms: seq<BearerRequest>, n: nat)
    requires WellSized(t) && cid < MAX_APN_PER_UE && t.pdns[cid].Some? && n <= |ms|
    requires RequestBearers(StartProc(t, trxn), cid, ms, n).Some?
    ensures var r := RequestBearers(StartProc(t, trxn), cid, ms, n).value;
            var ebis := Resolved(StartProc(t, trxn), cid, ms, n);
            && Fanned(r, cid, t.procs, trxn, n, ebis)
            && (Pendings(r.procs[0].status) == n <==> NoDuplicates(ebis))
  {
    hide RequestBearer, Count;
    var t0 := StartProc(t, trxn);
    if n == 0 {
      MarkNone(trxn);
      assert t0.procs[1..] == t.procs;
    } else {
      assert RequestBearers(t0, cid, ms, n - 1).Some?;
      FanOut(t, cid, trxn, ms, n - 1);
      FanOutStep(RequestBearers(t0, cid, ms, n - 1).value, cid, t.procs, trxn, n - 1, Resolved(t0, cid, ms, n - 1), ms[n - 1]);
    }
  }

  lemma ExtendNoDuplicates(s: seq<nat>, e: nat)
    ensures NoDuplicates(s + [e]) <==> NoDuplicates(s) && e !in s
  {
    var r := s + [e];
    if NoDuplicates(r) {
      assert forall i, j :: 0 <= i < j < |s| ==> s[i] == r[i] && s[j] == r[j];
      assert r[|s|] == e;
      assert forall i :: 0 <= i < |s| ==> s[i] == r[i] && r[i] != r[|s|];
    }
  }

  /** A request that names an EBI gets it; one that names none gets one that no earlier request got. */
  lemma ResolvedLast(t: Tables, cid: nat, trxn: nat, ms: seq<BearerRequest>, n: nat)
    requires WellSized(t) && cid < MAX_APN_PER_UE && t.pdns[cid].Some? && n < |ms|
    requires RequestBearers(StartProc(t, trxn), cid, ms, n + 1).Some?
    ensures var t0 := StartProc(t, trxn);
            && RequestBearers(t0, cid, ms, n).Some?
            && Resolved(t0, cid, ms, n + 1) == Resolved(t0, cid, ms, n) + [Resolved(t0, cid, ms, n + 1)[n]]
            && (EbiInRange(ms[n].ebi) ==> Resolved(t0, cid, ms, n + 1)[n] == ms[n].ebi)
            && (!EbiInRange(ms[n].ebi) ==> Resolved(t0, cid, ms, n + 1)[n] !in Resolved(t0, cid, ms, n))
  {
    var t0 := StartProc(t, trxn);
    FanOut(t, cid, trxn, ms, n);
    var r, ebis := RequestBearers(t0, cid, ms, n).value, Resolved(t0, cid, ms, n);
    hide Count;
    if !EbiInRange(ms[n].ebi) {
      var e := FreeEbi(r);
      assert RequestBearer(r, cid, ms[n]).Some? && EbiInRange(e);
    }
  }

  /** No named EBI was already given to an earlier bearer. */
  ghost predicate NamedFresh(ms: seq<BearerRequest>, ebis: seq<nat>) {
    |ebis| <= |ms| && forall k :: 0 <= k < |ebis| && EbiInRange(ms[k].ebi) ==> ms[k].ebi !in ebis[..k]
  }

  lemma ExtendNamedFresh(ms: seq<BearerRequest>, ebis: seq<nat>, e: nat)
    requires |ebis| < |ms|
    ensures NamedFresh(ms, ebis + [e]) <==> NamedFresh(ms, ebis) && (EbiInRange(ms[|ebis|].ebi) ==> ms[|ebis|].ebi !in ebis)
  {
    var r := ebis + [e];
    assert forall k :: 0 <= k < |ebis| ==> r[..k] == ebis[..k];
    assert r[..|ebis|] == ebis;
  }

  lemma NoneIsDistinct(ms: seq<BearerRequest>, ebis: seq<nat>)
    requires |ebis| == 0
    ensures NoDuplicates(ebis) && NamedFresh(ms, ebis)
  {
  }

  /** The EBIs of a request are distinct if and only if none that is named was already given to an
      earlier bearer of the request. */
  lemma {:induction false} DistinctIffNamedFresh(t: Tables, cid: nat, trxn: nat, ms: seq<BearerRequest>, n: nat)
    requires WellSized(t) && cid < MAX_APN_PER_UE && t.pdns[cid].Some? && n <= |ms|
    requires RequestBearers(StartProc(t, trxn), cid, ms, n).Some?
    ensures var ebis := Resolved(StartProc(t, trxn), cid, ms, n); NoDuplicates(ebis) <==> NamedFresh(ms, ebis)
  {
    hide RequestBearers, RequestBearer, NoDuplicates, NamedFresh, Resolved, WellSized, StartProc;
    StartSized(t, trxn);
    var t0 := StartProc(t, trxn);
    if n > 0 {
      ResolvedLast(t, cid, trxn, ms, n - 1);
      DistinctIffNamedFresh(t, cid, trxn, ms, n - 1);
      var before, e := Resolved(t0, cid, ms, n - 1), Resolved(t0, cid, ms, n)[n - 1];
      ExtendNoDuplicates(before, e);
      ExtendNamedFresh(ms, before, e);
    } else {
      NoneIsDistinct(ms, Resolved(t0, cid, ms, n));
    }
  }

  /** Requests that name no EBI are given different ones. */
  lemma UnnamedDistinct(t: Tables, cid: nat, trxn: nat, ms: seq<BearerRequest>)
    requires WellSized(t) && cid < MAX_APN_PER_UE && t.pdns[cid].Some?
    requires RequestBearers(StartProc(t, trxn), cid, ms, |ms|).Some?
    requires forall k :: 0 <= k < |ms| ==> !EbiInRange(ms[k].ebi)
    ensures NoDuplicates(Resolved(StartProc(t, trxn), cid, ms, |ms|))
  {
    hide RequestBearers, Resolved, NoDuplicates;
    DistinctIffNamedFresh(t, cid, trxn, ms, |ms|);
  }

  /** When every request names an EBI of its own, these are the EBIs given. */
  lemma {:induction false} ExplicitEbis(t: Tables, cid: nat, ms: seq<BearerRequest>, n: nat)
    requires WellSized(t) && cid < MAX_APN_PER_UE && t.procs != [] && n <= |ms|
    requires forall k :: 0 <= k < |ms| ==> EbiInRange(ms[k].ebi)
    ensures RequestBearers(t, cid, ms, n).Some?
    ensures forall k :: 0 <= k < n ==> Resolved(t, cid, ms, n)[k] == ms[k].ebi
  {
    if n > 0 {
      ExplicitEbis(t, cid, ms, n - 1);
    }
  }

  // ---------------------------------------------------------------- fan-in

  datatype NasAnswer = NasAnswer(ebi: nat, success: bool)

  datatype Answers = Answers(t: Tables, sent: seq<Response>)

  /** The first n answers of the NAS layer, in the order they arrive. */
  ghost function AnswerAll(t: Tables, answers: seq<NasAnswer>, n: nat): (r: Option<Answers>)
    requires WellSized(t) && n <= |answers|
    ensures r.Some? ==> WellSized(r.value.t)
  {
    if n == 0 then Some(Answers(t, []))
    else
      var r := AnswerAll(t, answers, n - 1);
      if r.None? then None
      else
        var a := Answer(r.value.t, answers[n - 1].ebi, answers[n - 1].success);
        if a.None? then None
        else Some(Answers(a.value.t, r.value.sent + (if a.value.sent.Some? then [a.value.sent.value] else [])))
  }

  /** At most one answer for every outstanding bearer, and none for others. */
  ghost predicate DistinctAnswers(p: Proc, answers: seq<NasAnswer>) {
    && |p.status| == BEARERS_PER_UE
    && (forall j :: 0 <= j < |answers| ==> EbiInRange(answers[j].ebi) && p.status[answers[j].ebi - EBI_FIRST] == Pending)
    && (forall i, j :: 0 <= i < j < |answers| ==> answers[i].ebi != answers[j].ebi)
  }

  /** Exactly one answer for every outstanding bearer. */
  ghost predicate OneAnswerEach(p: Proc, answers: seq<NasAnswer>) {
    DistinctAnswers(p, answers) && |answers| == Pendings(p.status)
  }

  function Marked(answer: NasAnswer): (s: Status) {
    if answer.success then Success else Failed
  }

  /** The procedure after n answers. */
  ghost function After(p: Proc, answers: seq<NasAnswer>, n: nat): (q: Proc)
    requires |p.status| == BEARERS_PER_UE && n <= |answers|
    requires forall j :: 0 <= j < |answers| ==> EbiInRange(answers[j].ebi)
    ensures |q.status| == BEARERS_PER_UE && q.trxn == p.trxn && q.numBearers == p.numBearers
    ensures q.numReceived == p.numReceived + n
  {
    if n == 0 then p
    else
      var q := After(p, answers, n - 1);
      q.(numReceived := q.numReceived + 1,
         status := q.status[answers[n - 1].ebi - EBI_FIRST := Marked(answers[n - 1])])
  }

  lemma {:induction false} AfterCounts(p: Proc, answers: seq<NasAnswer>, n: nat)
    requires DistinctAnswers(p, answers) && n <= |answers|
    ensures var q := After(p, answers, n);
            && Pendings(q.status) == Pendings(p.status) - n
            && Decideds(q.status) == Decideds(p.status) + n
            && (forall j :: n <= j < |answers| ==> q.status[answers[j].ebi - EBI_FIRST] == Pending)
            && (forall i :: 0 <= i < BEARERS_PER_UE && q.status[i] != Unknown ==> p.status[i] != Unknown)
  {
    hide Count;
    if n > 0 {
      AfterCounts(p, answers, n - 1);
      var q := After(p, answers, n - 1);
      var i := answers[n - 1].ebi - EBI_FIRST;
      CountUpdate(q.status, i, Marked(answers[n - 1]), IsPending);
      CountUpdate(q.status, i, Marked(answers[n - 1]), IsDecided);
      assert forall j :: n <= j < |answers| ==> answers[j].ebi != answers[n - 1].ebi;
    }
  }

  /** Once answered, a bearer is marked with its own answer. */
  lemma {:induction false} AfterTells(p: Proc, answers: seq<NasAnswer>, n: nat, j: nat)
    requires DistinctAnswers(p, answers) && j < n <= |answers|
    ensures var s := After(p, answers, n).status[answers[j].ebi - EBI_FIRST];
            if answers[j].success then s == Success else s == Failed
  {
    if j < n - 1 {
      AfterTells(p, answers, n - 1, j);
    }
  }

  /** What a response collects: one bearer for every decided slot, and in its only filled place the
      decided bearer with the highest EBI. */
  lemma {:induction false} CollectCounts(t: Tables, status: seq<Status>, n: nat)
    requires CrossLinked(t) && |status| == BEARERS_PER_UE && n <= BEARERS_PER_UE
    requires forall i :: 0 <= i < n && IsDecided(status[i]) ==> t.bearers[i].Some?
    ensures var c := Collect(t, status, n);
            && c.Some?
            && c.value.count == Decideds(status[..n])
            && (c.value.count == 0 ==> c.value.slot0.None?)
            && (c.value.count > 0 ==>
                  exists h :: IsHighest(status, n, h) && c.value.slot0 == Some(Described(t, status, h)) && c.value.sgwTeid == GatewayOf(t, h))
  {
    if n > 0 {
      CollectCounts(t, status, n - 1);
      assert status[..n][..n - 1] == status[..n - 1];
      if IsDecided(status[n - 1]) {
        assert Lists(t, t.bearers[n - 1].value.pdnCxId, n - 1);
        assert IsHighest(status, n, n - 1);
      } else {
        assert forall h :: IsHighest(status, n - 1, h) ==> IsHighest(status, n, h);
      }
    }
  }

  ghost predicate IsHighest(status: seq<Status>, n: nat, h: int)
    requires n <= |status|
  {
    0 <= h < n && IsDecided(status[h]) && forall j :: h < j < n ==> !IsDecided(status[j])
  }

  ghost function Described(t: Tables, status: seq<Status>, h: int): (b: RspBearer)
    requires WellSized(t) && |status| == BEARERS_PER_UE && 0 <= h < BEARERS_PER_UE
  {
    if t.bearers[h].Some? then
      RspBearer(h + EBI_FIRST, status[h] == Success, t.bearers[h].value.enbTeid, t.bearers[h].value.sgwTeid)
    else RspBearer(0, false, 0, 0)
  }

  /** The S11 TEID of the gateway of the PDN connection that has the bearer in slot h. */
  ghost function GatewayOf(t: Tables, h: int): (teid: nat)
    requires WellSized(t)
  {
    if 0 <= h < BEARERS_PER_UE && t.bearers[h].Some? && 0 <= t.bearers[h].value.pdnCxId < MAX_APN_PER_UE
       && t.pdns[t.bearers[h].value.pdnCxId].Some?
    then t.pdns[t.bearers[h].value.pdnCxId].value.sgwTeid else 0
  }

  /** However the marked slots of p are decided, a response can be made for them all. */
  ghost predicate Answerable(t: Tables, p: Proc) {
    && WellSized(t)
    && |p.status| == BEARERS_PER_UE
    && (forall q: Proc :: |q.status| == BEARERS_PER_UE && OnlyMarked(p.status, q.status) ==>
          && Respond(t, q).Some?
          && Respond(t, q).value.count == Decideds(q.status)
          && Respond(t, q).value.trxn == Some(q.trxn))
  }

  ghost predicate OnlyMarked(p: seq<Status>, q: seq<Status>) {
    |p| == |q| && forall i :: 0 <= i < |p| && q[i] != Unknown ==> p[i] != Unknown
  }

  lemma BackedIsAnswerable(t: Tables, p: Proc)
    requires CrossLinked(t) && Backed(t, p)
    ensures Answerable(t, p)
  {
    forall q: Proc | |q.status| == BEARERS_PER_UE && OnlyMarked(p.status, q.status)
      ensures Respond(t, q).Some? && Respond(t, q).value.count == Decideds(q.status) && Respond(t, q).value.trxn == Some(q.trxn)
    {
      CollectCounts(t, q.status, BEARERS_PER_UE);
      assert q.status[..BEARERS_PER_UE] == q.status;
    }
  }

  /** Over every order of the answers the newest procedure stays open, its received count equal to the
      number of decided bearers, until as many have come as it announced. That answer, if there is one,
      and no other, sends one response, which announces every bearer of the procedure with none still
      pending. */
  lemma {:induction false} FanIn(t: Tables, p: Proc, rest: seq<Proc>, answers: seq<NasAnswer>, n: nat)
    requires Answerable(t, p) && t.procs == [p] + rest && DistinctAnswers(p, answers) && n <= |answers|
    requires p.numReceived == Decideds(p.status) == 0 && p.numBearers >= Pendings(p.status) && p.numBearers > 0
    ensures var q := After(p, answers, n);
            && q.numReceived == Decideds(q.status) == n
            && Respond(t, q).Some?
            && AnswerAll(t, answers, n)
               == Some(if n < p.numBearers then Answers(t.(procs := [q] + rest), [])
                       else Answers(t.(procs := rest), [Respond(t, q).value]))
            && (n == p.numBearers ==>
                  && Pendings(q.status) == 0
                  && Respond(t, q).value.count == p.numBearers
                  && Respond(t, q).value.trxn == Some(p.trxn))
  {
    hide Answer, Respond, Count, Answerable, OnlyMarked;
    AnswerableAfter(t, p, answers, n);
    var q := After(p, answers, n);
    if n == 0 {
      assert t.(procs := [q] + rest) == t;
    } else {
      FanIn(t, p, rest, answers, n - 1);
      AnswerStep(t, After(p, answers, n - 1), q, rest, answers[n - 1]);
      var none: seq<Response> := [];
      assert none + none == none && none + [Respond(t, q).value] == [Respond(t, q).value];
    }
  }

  lemma AnswerableAfter(t: Tables, p: Proc, answers: seq<NasAnswer>, n: nat)
    requires Answerable(t, p) && DistinctAnswers(p, answers) && n <= |answers| && p.numReceived == Decideds(p.status) == 0
    ensures var q := After(p, answers, n);
            && WellSized(t)
            && q.numReceived == Decideds(q.status) == n
            && Pendings(q.status) == Pendings(p.status) - n
            && Respond(t, q).Some?
            && Respond(t, q).value.count == n
            && Respond(t, q).value.trxn == Some(p.trxn)
  {
    hide Respond, Count;
    AfterCounts(p, answers, n);
    assert OnlyMarked(p.status, After(p, answers, n).status);
  }

  /** One answer to the newest procedure: it stays open, or it responds and ends. */
  lemma AnswerStep(t: Tables, p: Proc, q: Proc, rest: seq<Proc>, a: NasAnswer)
    requires WellSized(t) && WellSized(t.(procs := [p] + rest)) && EbiInRange(a.ebi)
    requires |p.status| == BEARERS_PER_UE
    requires q == p.(numReceived := p.numReceived + 1, status := p.status[a.ebi - EBI_FIRST := Marked(a)])
    requires Respond(t, q).Some?
    ensures Answer(t.(procs := [p] + rest), a.ebi, a.success)
            == Some(if q.numReceived != q.numBearers then Answered(t.(procs := [q] + rest), None)
                    else Answered(t.(procs := rest), Respond(t, q)))
  {
    CollectIgnoresProcs(t, [p] + rest, q.status, BEARERS_PER_UE);
    assert ([p] + rest)[1..] == rest && ([p] + rest)[0] == p;
  }

  lemma {:induction false} CollectIgnoresProcs(t: Tables, procs: seq<Proc>, status: seq<Status>, n: nat)
    requires WellSized(t) && WellSized(t.(procs := procs)) && |status| == BEARERS_PER_UE && n <= BEARERS_PER_UE
    ensures Collect(t.(procs := procs), status, n) == Collect(t, status, n)
  {
    if n > 0 {
      CollectIgnoresProcs(t, procs, status, n - 1);
    }
  }

  /** Nothing is sent before the last answer, and the last one, answers being one to each outstanding
      bearer, sends one response that announces all. */
  ghost predicate AnsweredOnce(r: Tables, answers: seq<NasAnswer>, trxn: nat, count: nat)
    requires WellSized(r)
  {
    && (forall n :: 0 <= n < |answers| ==> AnswerAll(r, answers, n).Some? && AnswerAll(r, answers, n).value.sent == [])
    && AnswerAll(r, answers, |answers|).Some?
    && |AnswerAll(r, answers, |answers|).value.sent| == 1
    && AnswerAll(r, answers, |answers|).value.sent[0].count == count
    && AnswerAll(r, answers, |answers|).value.sent[0].trxn == Some(trxn)
  }

  /** Nothing is sent at all, and the procedure stays open. */
  ghost predicate NeverAnswered(r: Tables, answers: seq<NasAnswer>)
    requires WellSized(r) && r.procs != []
  {
    forall n :: 0 <= n <= |answers| ==>
      && AnswerAll(r, answers, n).Some?
      && AnswerAll(r, answers, n).value.sent == []
      && |AnswerAll(r, answers, n).value.t.procs| == |r.procs|
      && AnswerAll(r, answers, n).value.t.procs[0].trxn == r.procs[0].trxn
  }

  /** The whole exchange, with one answer to every outstanding bearer: the request is answered once, by
      the last answer, if the bearers were given different EBIs, and never if two were given the same. */
  lemma RequestAnsweredOnceIffDistinct(t: Tables, cid: nat, trxn: nat, ms: seq<BearerRequest>, answers: seq<NasAnswer>)
    requires TablesOk(t) && cid < MAX_APN_PER_UE && t.pdns[cid].Some? && ms != []
    requires RequestBearers(StartProc(t, trxn), cid, ms, |ms|).Some?
    requires OneAnswerEach(RequestBearers(StartProc(t, trxn), cid, ms, |ms|).value.procs[0], answers)
    ensures var r := RequestBearers(StartProc(t, trxn), cid, ms, |ms|).value;
            && (NoDuplicates(Resolved(StartProc(t, trxn), cid, ms, |ms|)) ==>
                  AnsweredOnce(r, answers, trxn, |ms|) && AnswerAll(r, answers, |answers|).value.t == r.(procs := t.procs))
            && (!NoDuplicates(Resolved(StartProc(t, trxn), cid, ms, |ms|)) ==> NeverAnswered(r, answers))
  {
    hide RequestBearers, Resolved, NoDuplicates, TablesOk, AnsweredOnce, NeverAnswered, Answerable, Count, WellSized, StartProc;
    hide OneAnswerEach, AnswerAll, Backed;
    Linked(t);
    StartSized(t, trxn);
    FannedIsAnswerable(t, cid, trxn, ms);
    var r := RequestBearers(StartProc(t, trxn), cid, ms, |ms|).value;
    AnswersCount(r.procs[0], answers);
    if |answers| == |ms| {
      AllAnswered(r, r.procs[0], t.procs, answers);
    } else {
      TooFewAnswers(r, r.procs[0], t.procs, answers);
    }
  }

  lemma AnswersCount(p: Proc, answers: seq<NasAnswer>)
    requires OneAnswerEach(p, answers)
    ensures |answers| == Pendings(p.status)
  {
  }

  lemma Linked(t: Tables)
    requires TablesOk(t)
    ensures CrossLinked(t) && WellSized(t)
  {
  }

  lemma FannedIsAnswerable(t: Tables, cid: nat, trxn: nat, ms: seq<BearerRequest>)
    requires TablesOk(t) && cid < MAX_APN_PER_UE && t.pdns[cid].Some?
    requires RequestBearers(StartProc(t, trxn), cid, ms, |ms|).Some?
    ensures var r := RequestBearers(StartProc(t, trxn), cid, ms, |ms|).value;
            var p := r.procs[0];
            && r.procs == [p] + t.procs
            && TablesOk(r) && Backed(r, p) && Answerable(r, p)
            && p.trxn == trxn && p.numBearers == |ms|
            && p.numReceived == Decideds(p.status) == 0
            && Pendings(p.status) <= |ms|
            && (Pendings(p.status) == |ms| <==> NoDuplicates(Resolved(StartProc(t, trxn), cid, ms, |ms|)))
  {
    hide RequestBearers, Resolved, NoDuplicates, TablesOk, CrossLinked, WellSized, StartProc, Answerable, Count, Backed;
    Linked(t);
    StartSized(t, trxn);
    StartProcKeeps(t, trxn);
    RequestBearersKeep(StartProc(t, trxn), cid, ms, |ms|);
    FanOut(t, cid, trxn, ms, |ms|);
    var r := RequestBearers(StartProc(t, trxn), cid, ms, |ms|).value;
    Linked(r);
    assert r.procs == [r.procs[0]] + r.procs[1..];
    BackedIsAnswerable(r, r.procs[0]);
  }

  lemma AllAnswered(r: Tables, p: Proc, rest: seq<Proc>, answers: seq<NasAnswer>)
    requires Answerable(r, p) && r.procs == [p] + rest && OneAnswerEach(p, answers)
    requires p.numReceived == Decideds(p.status) == 0 && p.numBearers == Pendings(p.status) > 0
    ensures AnsweredOnce(r, answers, p.trxn, p.numBearers)
    ensures AnswerAll(r, answers, |answers|).value.t == r.(procs := rest)
  {
    assert WellSized(r);
    hide Answerable, Count, AnswerAll, Respond;
    forall n | 0 <= n < |answers| ensures AnswerAll(r, answers, n).Some? && AnswerAll(r, answers, n).value.sent == [] {
      FanIn(r, p, rest, answers, n);
    }
    FanIn(r, p, rest, answers, |answers|);
  }

  lemma TooFewAnswers(r: Tables, p: Proc, rest: seq<Proc>, answers: seq<NasAnswer>)
    requires Answerable(r, p) && r.procs == [p] + rest && OneAnswerEach(p, answers)
    requires p.numReceived == Decideds(p.status) == 0 && p.numBearers > Pendings(p.status)
    ensures NeverAnswered(r, answers)
  {
    assert WellSized(r);
    hide Answerable, Count, AnswerAll, Respond;
    forall n | 0 <= n <= |answers|
      ensures AnswerAll(r, answers, n) == Some(Answers(r.(procs := [After(p, answers, n)] + rest), []))
    {
      FanIn(r, p, rest, answers, n);
    }
  }

  /** The bearer a response describes, if NAS has answered for it, is called accepted if and only if that answer
      was a success, and has the tunnel endpoints of the bearer. */
  lemma ResponseTells(t: Tables, p: Proc, answers: seq<NasAnswer>, n: nat, j: nat)
    requires CrossLinked(t) && Backed(t, p) && DistinctAnswers(p, answers) && j < n <= |answers| && p.numReceived == Decideds(p.status) == 0
    ensures var r := Respond(t, After(p, answers, n));
            && r.Some?
            && (r.value.slot0.Some? && r.value.slot0.value.ebi == answers[j].ebi ==>
                  && r.value.slot0.value.accepted == answers[j].success
                  && t.bearers[answers[j].ebi - EBI_FIRST].Some?
                  && r.value.slot0.value.enbTeid == t.bearers[answers[j].ebi - EBI_FIRST].value.enbTeid
                  && r.value.slot0.value.sgwTeid == t.bearers[answers[j].ebi - EBI_FIRST].value.sgwTeid)
  {
    var q := After(p, answers, n);
    BackedIsAnswerable(t, p);
    AnswerableAfter(t, p, answers, n);
    AfterTells(p, answers, n, j);
    AfterCounts(p, answers, n);
    hide Count, Respond, Answerable, After, Decideds, Pendings;
    RespondDescribes(t, q);
  }

  lemma RespondDescribes(t: Tables, q: Proc)
    requires CrossLinked(t) && |q.status| == BEARERS_PER_UE && Respond(t, q).Some?
    requires forall i :: 0 <= i < BEARERS_PER_UE && IsDecided(q.status[i]) ==> t.bearers[i].Some?
    ensures Respond(t, q).value.slot0.Some? ==>
              exists h :: IsHighest(q.status, BEARERS_PER_UE, h) && Respond(t, q).value.slot0 == Some(Described(t, q.status, h))
  {
    CollectCounts(t, q.status, BEARERS_PER_UE);
  }

  /** The cause sent is the one 3GPP TS 29.274 asks for, rejected when all bearers failed and
      partially accepted when some did, if and only if no bearer failed. */
  lemma CauseRightIffNoneFailed(t: Tables, p: Proc)
    requires WellSized(t) && |p.status| == BEARERS_PER_UE && Respond(t, p).Some?
    requires 0 < p.numBearers
    ensures Respond(t, p).value.cause == ResponseCause(p.numBearers, Faileds(p.status))
            <==> forall i :: 0 <= i < BEARERS_PER_UE ==> p.status[i] != Failed
  {
    CountZero(p.status, IsFailed);
  }

  /** The response describes all the bearers it announces if and only if it announces one. */
  lemma DescribesAllIffSingle(t: Tables, p: Proc)
    requires CrossLinked(t) && |p.status| == BEARERS_PER_UE && 0 < Decideds(p.status)
    requires forall i :: 0 <= i < BEARERS_PER_UE && IsDecided(p.status[i]) ==> t.bearers[i].Some?
    ensures Respond(t, p).Some?
    ensures exists h ::
              && IsHighest(p.status, BEARERS_PER_UE, h)
              && Respond(t, p).value.slot0 == Some(Described(t, p.status, h))
              && Respond(t, p).value.sgwTeid == GatewayOf(t, h)
    ensures (forall i :: 0 <= i < BEARERS_PER_UE && IsDecided(p.status[i]) ==>
               Respond(t, p).value.slot0 == Some(Described(t, p.status, i)))
            <==> Respond(t, p).value.count == 1
  {
    CollectCounts(t, p.status, BEARERS_PER_UE);
    assert p.status[..BEARERS_PER_UE] == p.status;
    var h :|
      && IsHighest(p.status, BEARERS_PER_UE, h)
      && Respond(t, p).value.slot0 == Some(Described(t, p.status, h))
      && Respond(t, p).value.sgwTeid == GatewayOf(t, h);
    CountUpdate(p.status, h, Unknown, IsDecided);
    CountZero(p.status[h := Unknown], IsDecided);
    if Respond(t, p).value.count == 1 {
      assert forall i :: 0 <= i < BEARERS_PER_UE && i != h ==> p.status[i] == p.status[h := Unknown][i];
    } else {
      var i :| 0 <= i < BEARERS_PER_UE && IsDecided(p.status[h := Unknown][i]);
      assert i != h && IsDecided(p.status[i]);
    }
  }
}
