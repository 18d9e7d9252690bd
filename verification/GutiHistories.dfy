/** Who has a GUTI and who is found by it, told from the steps of a run: which entries of the GUTI index
    are stale, which owners are lost, and when neither ever happens. */
module GutiHistories {
  import opened Common
  import opened UeModel
  import opened Registry
  import opened Handlers
  import opened Invariant
  import opened Runs
  import opened StepFrames
  import opened StaleEntries
  import EnbKey
  import B = Bearers

  // ---------------------------------------------------------------- owners

  /** The step gives the GUTI to the context: NAS does, or the UE comes back with it. */
  ghost predicate GivenGuti(m: Mme, e: Event, guti: Guti, id: UeId) {
    GutiEntry(m, e) == Some((guti, id)) || (e == EvNewGuti(id, guti) && id in m.ues)
  }

  /** The step takes the GUTI from the context: it is cleared, gets another one or goes. */
  ghost predicate GivesUpGuti(m: Mme, e: Event, m': Mme, guti: Guti, id: UeId) {
    && Target(m, e) == id
    && (e.EvClearIdentities? || GutiEntry(m, e).Some? || (e.EvNewGuti? && e.guti != guti) || id !in m'.ues)
  }

  /** The owners of valid GUTIs after a step: whom it gives one, and all others but those it takes one from. */
  ghost predicate OwnersFollow(m: Mme, e: Event, m': Mme) {
    forall guti: Guti, id: UeId :: ValidGuti(guti) ==>
      (Owns(m'.ues, GutiOf, id, guti) <==>
       GivenGuti(m, e, guti, id) || (Owns(m.ues, GutiOf, id, guti) && !GivesUpGuti(m, e, m', guti, id)))
  }

  ghost predicate SameGutis(m: Mme, m': Mme) {
    m'.ues.Keys == m.ues.Keys && forall id :: id in m.ues ==> m'.ues[id].guti == m.ues[id].guti
  }

  lemma SameOwners(m: Mme, e: Event, m': Mme)
    requires SameGutis(m, m') && GutiEntry(m, e).None? && !e.EvClearIdentities? && !e.EvNewGuti?
    ensures OwnersFollow(m, e, m')
  {
    hide GutiEntry, Target;
  }

  lemma DropOwners(m: Mme, e: Event, m': Mme)
    requires Drop(m, m', Target(m, e)) && GutiEntry(m, e).None? && !e.EvClearIdentities? && !e.EvNewGuti?
    ensures OwnersFollow(m, e, m')
  {
    hide GutiEntry, Target;
  }

  lemma PutSame(m: Mme, m': Mme, x: UeId, grows: bool)
    requires Put(m, m', x, grows)
    ensures SameGutis(m, m')
  {
    hide Grows;
  }

  lemma ClearOwners(m: Mme, id: UeId)
    requires IdsOk(m.ues)
    ensures OwnersFollow(m, EvClearIdentities(id), ClearIdentities(m, id))
  {
  }

  lemma SetImsiOwners(m: Mme, id: UeId, imsi: nat)
    requires IdsOk(m.ues)
    ensures OwnersFollow(m, EvSetImsi(id, imsi), SetValidImsi(m, id, imsi))
  {
    hide OwnersFollow;
    assert SameGutis(m, SetValidImsi(m, id, imsi));
    SameOwners(m, EvSetImsi(id, imsi), SetValidImsi(m, id, imsi));
  }

  lemma NewGutiOwners(m: Mme, id: UeId, guti: Guti)
    requires IdsOk(m.ues)
    ensures OwnersFollow(m, EvNewGuti(id, guti), NewGuti(m, id, guti))
  {
    if id in m.ues {
      assert NewGuti(m, id, guti).ues == m.ues[id := m.ues[id].(guti := guti)];
      hide NewGuti, SameGutiButMnc;
    }
  }

  lemma ReconnectOwners(m: Mme, enbId: nat, enbUeId: nat, guti: Guti)
    requires IdsOk(m.ues) && LookupGuti(m, guti).Some?
    ensures OwnersFollow(m, EvInitialUe(enbId, enbUeId, Some(guti)), Reconnect(m, LookupGuti(m, guti).value, enbId, enbUeId, guti))
  {
    hide Reconnect;
    var v := ReconnectNames(m, LookupGuti(m, guti).value, enbId, enbUeId, guti);
    hide SameGutiButMnc;
  }

  lemma AttachOwners(m: Mme, e: Event)
    requires IdsOk(m.ues) && e.EvInitialUe? && GutiEntry(m, e).None? && Target(m, e) == m.generator
    requires Attach(m, e.enbId, e.enbUeId).Done?
    ensures OwnersFollow(m, e, Attach(m, e.enbId, e.enbUeId).mme)
  {
    hide GutiEntry, Target, EnbKey.Pack, B.EmptyTables;
  }

  lemma InitialUeOwners(m: Mme, enbId: nat, enbUeId: nat, served: Option<Guti>)
    requires IdsOk(m.ues) && InitialUe(m, enbId, enbUeId, served).Done?
    ensures OwnersFollow(m, EvInitialUe(enbId, enbUeId, served), InitialUe(m, enbId, enbUeId, served).mme)
  {
    hide Reconnect, Attach, OwnersFollow;
    if served.Some? && LookupGuti(m, served.value).Some? {
      ReconnectOwners(m, enbId, enbUeId, served.value);
    } else {
      AttachOwners(m, EvInitialUe(enbId, enbUeId, served));
    }
  }

  lemma PdnConnectivityOwners(m: Mme, imsi: nat, cid: nat, teid: nat)
    requires IdsOk(m.ues) && TablesSized(m) && PdnConnectivity(m, imsi, cid, teid).Done?
    ensures OwnersFollow(m, EvPdnConnectivity(imsi, cid, teid), PdnConnectivity(m, imsi, cid, teid).mme)
  {
    hide OwnersFollow, B.StartSession;
    assert SameGutis(m, PdnConnectivity(m, imsi, cid, teid).mme);
    SameOwners(m, EvPdnConnectivity(imsi, cid, teid), PdnConnectivity(m, imsi, cid, teid).mme);
  }

  /** GUTIs change hands in these steps and in no others. */
  lemma StepOwners(m: Mme, e: Event)
    requires IndexOk(m) && TablesSized(m) && Step(m, e).Done?
    ensures OwnersFollow(m, e, Step(m, e).mme)
  {
    hide Indexed, Covered, IdsOk, TablesSized, OwnersFollow;
    if KeyStep(e) {
      hide InitialUe, SetValidImsi, ClearIdentities, NewGuti, PdnConnectivity;
      match e {
        case EvInitialUe(enbId, enbUeId, served) => InitialUeOwners(m, enbId, enbUeId, served);
        case EvSetImsi(id, imsi) => SetImsiOwners(m, id, imsi);
        case EvClearIdentities(id) => ClearOwners(m, id);
        case EvNewGuti(id, guti) => NewGutiOwners(m, id, guti);
        case EvPdnConnectivity(imsi, cid, teid) => PdnConnectivityOwners(m, imsi, cid, teid);
      }
    } else {
      hide Step, Target, Put, Drop, SameGutis;
      var m' := Step(m, e).mme;
      StepMoves(m, e);
      if Drop(m, m', Target(m, e)) {
        DropOwners(m, e, m');
      } else {
        PutSame(m, m', Target(m, e), !ProcedureStep(e));
        SameOwners(m, e, m');
      }
    }
  }

  // ---------------------------------------------------------------- stale entries

  /** The step takes the GUTI from the context id and leaves its entry: NAS clears it, or replaces it by
      one that differs in the MNC only. */
  ghost predicate ShedsGuti(m: Mme, e: Event, guti: Guti, id: UeId) {
    && Owns(m.ues, GutiOf, id, guti)
    && Leads(m.byGuti, guti, id)
    && ((e.EvClearIdentities? && e.id == id) || (e.EvNewGuti? && e.id == id && e.guti != guti && SameGutiButMnc(e.guti, guti)))
  }

  /** The step enters a context under the GUTI, takes its entry out or gives it back to the context id. */
  ghost predicate ReclaimsGuti(m: Mme, e: Event, m': Mme, guti: Guti, id: UeId) {
    TouchesGuti(m, e, m', guti) || (e == EvNewGuti(id, guti) && id in m.ues)
  }

  /** What becomes of stale GUTI entries in a step. */
  ghost predicate StaleGutisFollow(m: Mme, e: Event, m': Mme) {
    forall guti: Guti, id: UeId :: ValidGuti(guti) ==>
      (StaleGuti(m', guti, id) <==> ShedsGuti(m, e, guti, id) || (StaleGuti(m, guti, id) && !ReclaimsGuti(m, e, m', guti, id)))
  }

  /** Giving out or clearing an identity makes no context come or go. */
  ghost predicate NamingKeeps(m: Mme, e: Event, m': Mme) {
    e.EvClearIdentities? || e.EvNewGuti? ==> m'.ues.Keys == m.ues.Keys
  }

  lemma NamingKeepsAll(m: Mme, e: Event)
    requires IdsOk(m.ues) && TablesSized(m) && Step(m, e).Done?
    ensures NamingKeeps(m, e, Step(m, e).mme)
  {
    hide TablesSized;
    if e.EvClearIdentities? {
      assert Step(m, e).mme.ues.Keys == m.ues.Keys;
    } else if e.EvNewGuti? {
      assert Step(m, e).mme.ues.Keys == m.ues.Keys;
    }
  }

  /** Owner and entry of one GUTI after a step. */
  ghost predicate Follows(m: Mme, e: Event, m': Mme, guti: Guti, id: UeId) {
    && (Owns(m'.ues, GutiOf, id, guti) <==>
        GivenGuti(m, e, guti, id) || (Owns(m.ues, GutiOf, id, guti) && !GivesUpGuti(m, e, m', guti, id)))
    && (Leads(m'.byGuti, guti, id) <==>
        GutiEntry(m, e) == Some((guti, id)) || (Leads(m.byGuti, guti, id) && !TouchesGuti(m, e, m', guti)))
  }

  lemma FollowsAt(m: Mme, e: Event, m': Mme, guti: Guti, id: UeId)
    requires OwnersFollow(m, e, m') && GutiEntriesFollow(m, e, m') && ValidGuti(guti)
    ensures Follows(m, e, m', guti, id)
  {
    hide GutiEntry, TouchesGuti, GivesUpGuti, GivenGuti, Owns, Leads;
  }

  /** A step that leaves an entry behind, seen from before it. */
  lemma ShedsIff(m: Mme, e: Event, m': Mme, guti: Guti, id: UeId)
    requires IdsOk(m.ues) && ValidGuti(guti) && Owns(m.ues, GutiOf, id, guti) && Leads(m.byGuti, guti, id)
    requires NamingKeeps(m, e, m')
    ensures ShedsGuti(m, e, guti, id) <==>
            GivesUpGuti(m, e, m', guti, id) && !GivenGuti(m, e, guti, id) && !TouchesGuti(m, e, m', guti)
  {
    if !e.EvClearIdentities? && !e.EvNewGuti? {
      hide Target;
    }
  }

  lemma StaleAfter(m: Mme, e: Event, m': Mme, guti: Guti, id: UeId)
    requires IdsOk(m.ues) && ValidGuti(guti) && Follows(m, e, m', guti, id) && NamingKeeps(m, e, m')
    ensures StaleGuti(m', guti, id) <==> ShedsGuti(m, e, guti, id) || (StaleGuti(m, guti, id) && !ReclaimsGuti(m, e, m', guti, id))
  {
    hide GutiEntry, GutiTaken, GivesUpGuti, IdsOk, SameGutiButMnc, Owns, Leads, NamingKeeps;
    if Owns(m.ues, GutiOf, id, guti) && Leads(m.byGuti, guti, id) {
      ShedsIff(m, e, m', guti, id);
    }
  }

  lemma StepLeavesStale(m: Mme, e: Event)
    requires IndexOk(m) && TablesSized(m) && Step(m, e).Done?
    ensures StaleGutisFollow(m, e, Step(m, e).mme)
  {
    hide Step, Indexed, Covered, IdsOk, TablesSized, Follows, NamingKeeps, OwnersFollow, GutiEntriesFollow;
    hide Stale, ShedsGuti, ReclaimsGuti;
    var m' := Step(m, e).mme;
    StepOwners(m, e);
    StepEntries(m, e);
    NamingKeepsAll(m, e);
    forall guti: Guti, id: UeId | ValidGuti(guti)
      ensures StaleGuti(m', guti, id) <==> ShedsGuti(m, e, guti, id) || (StaleGuti(m, guti, id) && !ReclaimsGuti(m, e, m', guti, id))
    {
      FollowsAt(m, e, m', guti, id);
      StaleAfter(m, e, m', guti, id);
    }
  }

  // ---------------------------------------------------------------- lost owners

  /** The context id has the GUTI and is not found by it. */
  ghost predicate Lost(m: Mme, guti: Guti, id: UeId) {
    Owns(m.ues, GutiOf, id, guti) && !Leads(m.byGuti, guti, id)
  }

  /** The step loses the owner id: it is given a GUTI that differs from its last in the MNC only and has no
      entry, or a step about another context replaces the entry or takes it out. */
  ghost predicate LosesOwner(m: Mme, e: Event, m': Mme, guti: Guti, id: UeId) {
    || (&& e == EvNewGuti(id, guti)
        && id in m.ues
        && guti != m.ues[id].guti
        && SameGutiButMnc(guti, m.ues[id].guti)
        && !Leads(m.byGuti, guti, id))
    || (Owns(m.ues, GutiOf, id, guti) && Target(m, e) != id && TouchesGuti(m, e, m', guti))
  }

  ghost predicate LostFollow(m: Mme, e: Event, m': Mme) {
    forall guti: Guti, id: UeId :: ValidGuti(guti) ==>
      (Lost(m', guti, id) <==> LosesOwner(m, e, m', guti, id) || (Lost(m, guti, id) && !GivesUpGuti(m, e, m', guti, id)))
  }

  lemma EntryIsTarget(m: Mme, e: Event)
    ensures GutiEntry(m, e).Some? ==> GutiEntry(m, e).value.1 == Target(m, e)
  {
  }

  /** Nobody is entered under the GUTI it has. */
  lemma OwnerNotEntered(m: Mme, e: Event, guti: Guti, id: UeId)
    requires IdsOk(m.ues) && Owns(m.ues, GutiOf, id, guti)
    ensures GutiEntry(m, e) != Some((guti, id))
  {
  }

  /** A GUTI given out enters the context, or differs in the MNC only and touches no entry. */
  lemma GivenOut(m: Mme, m': Mme, guti: Guti, id: UeId)
    requires id in m.ues && id in m'.ues
    ensures var e := EvNewGuti(id, guti);
            if SameGutiButMnc(guti, m.ues[id].guti) then GutiEntry(m, e).None? && !TouchesGuti(m, e, m', guti)
            else GutiEntry(m, e) == Some((guti, id))
  {
    hide SameGutiButMnc;
  }

  /** A step about an owner that touches the GUTI takes it from the owner. */
  lemma OwnTouch(m: Mme, e: Event, m': Mme, guti: Guti, id: UeId)
    requires IdsOk(m.ues) && Owns(m.ues, GutiOf, id, guti) && Target(m, e) == id && TouchesGuti(m, e, m', guti)
    ensures GivesUpGuti(m, e, m', guti, id)
  {
    EntryIsTarget(m, e);
    OwnerNotEntered(m, e, guti, id);
    hide GutiEntry, Target, IdsOk;
  }

  lemma LostAfter(m: Mme, e: Event, m': Mme, guti: Guti, id: UeId)
    requires IdsOk(m.ues) && Follows(m, e, m', guti, id) && NamingKeeps(m, e, m')
    ensures Lost(m', guti, id) <==> LosesOwner(m, e, m', guti, id) || (Lost(m, guti, id) && !GivesUpGuti(m, e, m', guti, id))
  {
    hide GutiEntry, TouchesGuti, IdsOk, Target, Leads, GivesUpGuti, SameGutiButMnc;
    EntryIsTarget(m, e);
    if Owns(m.ues, GutiOf, id, guti) {
      OwnerNotEntered(m, e, guti, id);
      if Target(m, e) == id && TouchesGuti(m, e, m', guti) {
        OwnTouch(m, e, m', guti, id);
      }
      if GivesUpGuti(m, e, m', guti, id) {
        OnlyTargetGivesUp(m, e, m', guti, id);
      }
    }
    if e == EvNewGuti(id, guti) && id in m.ues {
      GivenOut(m, m', guti, id);
      if GutiEntry(m, e).None? {
        GivenNotGivenUp(m, m', guti, id);
      }
    }
  }

  lemma OnlyTargetGivesUp(m: Mme, e: Event, m': Mme, guti: Guti, id: UeId)
    requires GivesUpGuti(m, e, m', guti, id)
    ensures Target(m, e) == id
  {
  }

  lemma GivenNotGivenUp(m: Mme, m': Mme, guti: Guti, id: UeId)
    requires id in m.ues && id in m'.ues && GutiEntry(m, EvNewGuti(id, guti)).None?
    ensures !GivesUpGuti(m, EvNewGuti(id, guti), m', guti, id) && Target(m, EvNewGuti(id, guti)) == id
  {
  }

  lemma StepLoses(m: Mme, e: Event)
    requires IndexOk(m) && TablesSized(m) && Step(m, e).Done?
    ensures LostFollow(m, e, Step(m, e).mme)
  {
    hide Step, Indexed, Covered, IdsOk, TablesSized, Follows, NamingKeeps, OwnersFollow, GutiEntriesFollow;
    hide Lost, LosesOwner, GivesUpGuti;
    var m' := Step(m, e).mme;
    StepOwners(m, e);
    StepEntries(m, e);
    NamingKeepsAll(m, e);
    forall guti: Guti, id: UeId | ValidGuti(guti)
      ensures Lost(m', guti, id) <==> LosesOwner(m, e, m', guti, id) || (Lost(m, guti, id) && !GivesUpGuti(m, e, m', guti, id))
    {
      FollowsAt(m, e, m', guti, id);
      LostAfter(m, e, m', guti, id);
    }
  }

  // ---------------------------------------------------------------- all GUTI lookups are right

  /** The GUTI index agrees with the contexts. */
  ghost predicate GutisExact(m: Mme) { Indexed(m.byGuti, m.ues, GutiOf, ValidGuti) }

  /** If the step gives a GUTI out, it does so well, and if it clears identities, there is no GUTI among
      them. */
  ghost predicate KeepsGutis(m: Mme, e: Event) {
    GivenWell(m, e) && (e.EvClearIdentities? && e.id in m.ues ==> !ValidGuti(m.ues[e.id].guti))
  }

  ghost predicate NoneStale(m: Mme) {
    forall guti: Guti, id: UeId :: ValidGuti(guti) ==> !StaleGuti(m, guti, id)
  }

  lemma ExactIff(m: Mme)
    ensures GutisExact(m) <==> GutisFound(m) && NoneStale(m)
  {
    hide Covered;
    if GutisFound(m) && NoneStale(m) {
      forall guti: Guti | guti in m.byGuti && ValidGuti(guti) ensures Owns(m.ues, GutiOf, m.byGuti[guti], guti) {
        assert !StaleGuti(m, guti, m.byGuti[guti]);
      }
    }
  }

  /** While the index agrees, only the clearing of a GUTI or a new one that is not given well leaves an
      entry behind. */
  lemma ShedsWhenExact(m: Mme, e: Event, guti: Guti, id: UeId)
    requires GutisExact(m) && GivenWell(m, e) && ValidGuti(guti)
    ensures ShedsGuti(m, e, guti, id) ==> e.EvClearIdentities? && e.id == id && id in m.ues && m.ues[id].guti == guti
  {
  }

  lemma ClearedSheds(m: Mme, id: UeId)
    requires GutisExact(m) && id in m.ues && ValidGuti(m.ues[id].guti)
    ensures ShedsGuti(m, EvClearIdentities(id), m.ues[id].guti, id)
  {
  }

  lemma NoneStaleAfter(m: Mme, e: Event, m': Mme)
    requires GutisExact(m) && NoneStale(m) && StaleGutisFollow(m, e, m') && GivenWell(m, e)
    ensures NoneStale(m') <==> KeepsGutis(m, e)
  {
    hide GutisExact, GivenWell, Stale, ReclaimsGuti;
    if KeepsGutis(m, e) {
      forall guti: Guti, id: UeId | ValidGuti(guti) ensures !StaleGuti(m', guti, id) {
        ShedsWhenExact(m, e, guti, id);
      }
    } else {
      ClearedSheds(m, e.id);
      assert StaleGuti(m', m.ues[e.id].guti, e.id);
    }
  }

  lemma StepExact(m: Mme, e: Event)
    requires IndexOk(m) && TablesSized(m) && Step(m, e).Done? && GutisExact(m)
    ensures GutisExact(Step(m, e).mme) <==> KeepsGutis(m, e)
  {
    hide Step, TablesSized, IndexOk, GutisExact, GutisFound, NoneStale, StaleGutisFollow, GivenWell;
    ExactIff(m);
    ExactIff(Step(m, e).mme);
    StepFound(m, e);
    StepLeavesStale(m, e);
    if GivenWell(m, e) {
      NoneStaleAfter(m, e, Step(m, e).mme);
    }
  }

  // ---------------------------------------------------------------- runs

  lemma RunGutisFollow(periodicTau: bool, states: seq<Mme>, events: seq<Event>, i: nat)
    requires IsRun(periodicTau, states, events) && i < |events|
    ensures StaleGutisFollow(states[i], events[i], states[i + 1])
    ensures LostFollow(states[i], events[i], states[i + 1])
    ensures GutisExact(states[i]) ==> (GutisExact(states[i + 1]) <==> KeepsGutis(states[i], events[i]))
  {
    hide Step, TablesSized, Admissible, Start, StaleGutisFollow, LostFollow, UesOk, StatsOk, HistoryOk, IndexOk, GutisExact, KeepsGutis;
    RunInv(periodicTau, states, events, i);
    RunStep(periodicTau, states, events, i);
    StepLeavesStale(states[i], events[i]);
    StepLoses(states[i], events[i]);
    if GutisExact(states[i]) {
      StepExact(states[i], events[i]);
    }
  }

  /** In a run the GUTI index has agreed with the contexts so far if and only if every GUTI was given out
      well and NAS has cleared none. */
  lemma {:induction false} RunGutisExactIff(periodicTau: bool, states: seq<Mme>, events: seq<Event>, i: nat)
    requires IsRun(periodicTau, states, events) && i < |states|
    ensures (forall k :: 0 <= k <= i ==> GutisExact(states[k])) <==> (forall k :: 0 <= k < i ==> KeepsGutis(states[k], events[k]))
  {
    hide Step, TablesSized, Admissible, Inv, KeepsGutis, StaleGutisFollow, LostFollow, Indexed;
    if i > 0 {
      RunGutisExactIff(periodicTau, states, events, i - 1);
      RunGutisFollow(periodicTau, states, events, i - 1);
    } else {
      StartExact(periodicTau);
    }
  }

  lemma StartExact(periodicTau: bool)
    ensures GutisExact(Start(periodicTau))
  {
  }

  /** Some step before state i took the GUTI from context id and left its entry, and no step since has
      entered a context under it, taken the entry out or given the GUTI back. */
  ghost predicate GutiLeftBehind(states: seq<Mme>, events: seq<Event>, i: nat, guti: Guti, id: UeId)
    requires i < |states| == |events| + 1
  {
    exists j :: 0 <= j < i && GutiShedAt(states, events, j, i, guti, id)
  }

  ghost predicate GutiShedAt(states: seq<Mme>, events: seq<Event>, j: nat, i: nat, guti: Guti, id: UeId)
    requires j < i < |states| == |events| + 1
  {
    && ShedsGuti(states[j], events[j], guti, id)
    && (forall l :: j < l < i ==> !ReclaimsGuti(states[l], events[l], states[l + 1], guti, id))
  }

  lemma GutiLeftStep(states: seq<Mme>, events: seq<Event>, i: nat, guti: Guti, id: UeId)
    requires i + 1 < |states| == |events| + 1
    ensures GutiLeftBehind(states, events, i + 1, guti, id) <==>
            ShedsGuti(states[i], events[i], guti, id) ||
            (GutiLeftBehind(states, events, i, guti, id) && !ReclaimsGuti(states[i], events[i], states[i + 1], guti, id))
  {
    hide ShedsGuti, ReclaimsGuti;
    if ShedsGuti(states[i], events[i], guti, id) {
      assert GutiShedAt(states, events, i, i + 1, guti, id);
    }
    if GutiLeftBehind(states, events, i, guti, id) && !ReclaimsGuti(states[i], events[i], states[i + 1], guti, id) {
      var j :| 0 <= j < i && GutiShedAt(states, events, j, i, guti, id);
      assert GutiShedAt(states, events, j, i + 1, guti, id);
    }
    if GutiLeftBehind(states, events, i + 1, guti, id) && !ShedsGuti(states[i], events[i], guti, id) {
      var j :| 0 <= j < i + 1 && GutiShedAt(states, events, j, i + 1, guti, id);
      assert GutiShedAt(states, events, j, i, guti, id);
    }
  }

  /** Some step before state i has lost the owner id of the GUTI, and no step since has taken it from the
      owner. */
  ghost predicate GutiLost(states: seq<Mme>, events: seq<Event>, i: nat, guti: Guti, id: UeId)
    requires i < |states| == |events| + 1
  {
    exists j :: 0 <= j < i && GutiLostAt(states, events, j, i, guti, id)
  }

  ghost predicate GutiLostAt(states: seq<Mme>, events: seq<Event>, j: nat, i: nat, guti: Guti, id: UeId)
    requires j < i < |states| == |events| + 1
  {
    && LosesOwner(states[j], events[j], states[j + 1], guti, id)
    && (forall l :: j < l < i ==> !GivesUpGuti(states[l], events[l], states[l + 1], guti, id))
  }

  lemma GutiLostStep(states: seq<Mme>, events: seq<Event>, i: nat, guti: Guti, id: UeId)
    requires i + 1 < |states| == |events| + 1
    ensures GutiLost(states, events, i + 1, guti, id) <==>
            LosesOwner(states[i], events[i], states[i + 1], guti, id) ||
            (GutiLost(states, events, i, guti, id) && !GivesUpGuti(states[i], events[i], states[i + 1], guti, id))
  {
    hide LosesOwner, GivesUpGuti;
    if LosesOwner(states[i], events[i], states[i + 1], guti, id) {
      assert GutiLostAt(states, events, i, i + 1, guti, id);
    }
    if GutiLost(states, events, i, guti, id) && !GivesUpGuti(states[i], events[i], states[i + 1], guti, id) {
      var j :| 0 <= j < i && GutiLostAt(states, events, j, i, guti, id);
      assert GutiLostAt(states, events, j, i + 1, guti, id);
    }
    if GutiLost(states, events, i + 1, guti, id) && !LosesOwner(states[i], events[i], states[i + 1], guti, id) {
      var j :| 0 <= j < i + 1 && GutiLostAt(states, events, j, i + 1, guti, id);
      assert GutiLostAt(states, events, j, i, guti, id);
    }
  }

  lemma NoneAtStart(periodicTau: bool, states: seq<Mme>, events: seq<Event>, guti: Guti, id: UeId)
    requires |states| == |events| + 1 && states[0] == Start(periodicTau)
    ensures !StaleGuti(states[0], guti, id) && !GutiLeftBehind(states, events, 0, guti, id)
    ensures !Lost(states[0], guti, id) && !GutiLost(states, events, 0, guti, id)
  {
  }

  /** In every run a valid GUTI leads to a context that does not have it if and only if NAS took it from
      the context, by clearing it or by changing the MNC only, while the index led there, and since then
      no step has entered a context under it, taken the entry out or given the GUTI back. A context has a
      valid GUTI and is not found by it if and only if it was given it with another MNC while there was no
      such entry, or a step about another context replaced the entry or took it out, and it has kept the
      GUTI since. */
  lemma {:induction false} RunStaleGutiIff(periodicTau: bool, states: seq<Mme>, events: seq<Event>, i: nat, guti: Guti, id: UeId)
    requires IsRun(periodicTau, states, events) && i < |states| && ValidGuti(guti)
    ensures StaleGuti(states[i], guti, id) <==> GutiLeftBehind(states, events, i, guti, id)
    ensures Lost(states[i], guti, id) <==> GutiLost(states, events, i, guti, id)
  {
    hide GutiLeftBehind, GutiLost, Stale, Lost, Step, TablesSized, Admissible, Start, Inv;
    hide ShedsGuti, ReclaimsGuti, LosesOwner, GivesUpGuti, GutisExact, KeepsGutis;
    if i > 0 {
      RunStaleGutiIff(periodicTau, states, events, i - 1, guti, id);
      RunGutisFollow(periodicTau, states, events, i - 1);
      GutiLeftStep(states, events, i - 1, guti, id);
      GutiLostStep(states, events, i - 1, guti, id);
    } else {
      NoneAtStart(periodicTau, states, events, guti, id);
    }
  }
}
