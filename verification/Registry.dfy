/** The primary table of UE contexts and its four indexes: the operations that change them and what
    keeps an index in agreement with the contexts it leads to. */
module Registry {
  import opened Common
  import opened UeModel

  // ---------------------------------------------------------------- agreement of one index

  /** Every live context is found under its key. */
  ghost predicate Covered<K(!new)>(table: map<K, UeId>, ues: map<UeId, Ue>, key: Ue -> K, valid: K -> bool) {
    forall id :: id in ues && valid(key(ues[id])) ==> Leads(table, key(ues[id]), id)
  }

  /** On valid keys the table is the inverse of the key field of the live contexts. */
  ghost predicate Indexed<K(!new)>(table: map<K, UeId>, ues: map<UeId, Ue>, key: Ue -> K, valid: K -> bool) {
    && Covered(table, ues, key, valid)
    && (forall k :: k in table && valid(k) ==> Owns(ues, key, table[k], k))
  }

  predicate Leads<K>(table: map<K, UeId>, k: K, id: UeId) {
    k in table && table[k] == id
  }

  /** The live context id has key k. */
  predicate Owns<K(==)>(ues: map<UeId, Ue>, key: Ue -> K, id: UeId, k: K) {
    id in ues && key(ues[id]) == k
  }

  /** No context other than id has key k. */
  ghost predicate Unowned<K(!new)>(ues: map<UeId, Ue>, key: Ue -> K, id: UeId, k: K) {
    forall j :: j in ues && key(ues[j]) == k ==> j == id
  }

  /** The table leads from k to id, but the context id, if there is one, does not have that key. */
  ghost predicate Stale<K>(table: map<K, UeId>, ues: map<UeId, Ue>, key: Ue -> K, k: K, id: UeId) {
    Leads(table, k, id) && !Owns(ues, key, id, k)
  }

  /** Agreement is covering plus the absence of stale entries. */
  lemma IndexedIffNoneStale<K(!new)>(table: map<K, UeId>, ues: map<UeId, Ue>, key: Ue -> K, valid: K -> bool)
    ensures Indexed(table, ues, key, valid) <==>
            Covered(table, ues, key, valid) && forall k, id :: valid(k) ==> !Stale(table, ues, key, k, id)
  {
    if Covered(table, ues, key, valid) && !Indexed(table, ues, key, valid) {
      var k :| k in table && valid(k) && !Owns(ues, key, table[k], k);
      assert Stale(table, ues, key, k, table[k]);
    }
  }

  /** Moving a context from its key to that of u keeps it covered, and keeps the agreement, if and
      only if no other context has that key. */
  lemma Rekey<K(!new)>(table: map<K, UeId>, ues: map<UeId, Ue>, key: Ue -> K, valid: K -> bool, id: UeId, u: Ue)
    requires Covered(table, ues, key, valid) && id in ues
    ensures Covered((table - {key(ues[id])})[key(u) := id], ues[id := u], key, valid)
            <==> (valid(key(u)) ==> Unowned(ues, key, id, key(u)))
    ensures Indexed(table, ues, key, valid) ==>
              (Indexed((table - {key(ues[id])})[key(u) := id], ues[id := u], key, valid)
               <==> (valid(key(u)) ==> Unowned(ues, key, id, key(u))))
  {
    var table' := (table - {key(ues[id])})[key(u) := id];
    var ues' := ues[id := u];
    if valid(key(u)) && !Unowned(ues, key, id, key(u)) {
      var j :| j in ues && key(ues[j]) == key(u) && j != id;
      assert ues'[j] == ues[j] && table'[key(u)] == id;
    }
  }

  /** Entering a context under the key of u without taking its old entry out keeps all covered if and
      only if no other context has that key. It keeps the agreement if and only if, besides, the old
      key, if valid, is the same. */
  lemma OverwriteKey<K(!new)>(table: map<K, UeId>, ues: map<UeId, Ue>, key: Ue -> K, valid: K -> bool, id: UeId, u: Ue)
    requires Covered(table, ues, key, valid) && id in ues
    ensures Covered(table[key(u) := id], ues[id := u], key, valid) <==> (valid(key(u)) ==> Unowned(ues, key, id, key(u)))
    ensures Indexed(table, ues, key, valid) ==>
              (Indexed(table[key(u) := id], ues[id := u], key, valid)
               <==> (valid(key(u)) ==> Unowned(ues, key, id, key(u))) && (valid(key(ues[id])) ==> key(ues[id]) == key(u)))
  {
    var table' := table[key(u) := id];
    var ues' := ues[id := u];
    if valid(key(u)) && !Unowned(ues, key, id, key(u)) {
      var j :| j in ues && key(ues[j]) == key(u) && j != id;
      assert ues'[j] == ues[j] && table'[key(u)] == id;
    }
    if valid(key(ues[id])) && key(ues[id]) != key(u) {
      assert table'[key(ues[id])] == id;
    }
  }

  /** A context that gives its key up without telling the index stays covered; the agreement is kept
      if and only if the key was invalid. */
  lemma ClearKey<K(!new)>(table: map<K, UeId>, ues: map<UeId, Ue>, key: Ue -> K, valid: K -> bool, id: UeId, u: Ue)
    requires Covered(table, ues, key, valid) && id in ues && !valid(key(u))
    ensures Covered(table, ues[id := u], key, valid)
    ensures Indexed(table, ues, key, valid) ==> (Indexed(table, ues[id := u], key, valid) <==> !valid(key(ues[id])))
  {
    if valid(key(ues[id])) {
      assert table[key(ues[id])] == id;
    }
  }

  lemma SameKey<K(!new)>(table: map<K, UeId>, ues: map<UeId, Ue>, key: Ue -> K, valid: K -> bool, id: UeId, u: Ue)
    requires Covered(table, ues, key, valid) && id in ues && key(u) == key(ues[id])
    ensures Covered(table, ues[id := u], key, valid)
    ensures Indexed(table, ues, key, valid) ==> Indexed(table, ues[id := u], key, valid)
    ensures valid(key(u)) ==> Unowned(ues, key, id, key(u))
  {
  }

  /** A context that gives its key up may leave the index, and must unless the key is invalid. */
  lemma GiveUpKey<K(!new)>(table: map<K, UeId>, ues: map<UeId, Ue>, key: Ue -> K, valid: K -> bool, id: UeId, u: Ue)
    requires Indexed(table, ues, key, valid) && id in ues && !valid(key(u))
    ensures Indexed(table - {key(ues[id])}, ues[id := u], key, valid)
  {
  }

  lemma DropKey<K(!new)>(table: map<K, UeId>, ues: map<UeId, Ue>, key: Ue -> K, valid: K -> bool, id: UeId)
    requires Covered(table, ues, key, valid) && id in ues
    ensures Covered(table - {key(ues[id])}, ues - {id}, key, valid) && Covered(table, ues - {id}, key, valid)
    ensures Indexed(table, ues, key, valid) ==>
              && Indexed(table - {key(ues[id])}, ues - {id}, key, valid)
              && (!valid(key(ues[id])) ==> Indexed(table, ues - {id}, key, valid))
  {
  }

  lemma AddKey<K(!new)>(table: map<K, UeId>, ues: map<UeId, Ue>, key: Ue -> K, valid: K -> bool, id: UeId, u: Ue)
    requires Covered(table, ues, key, valid) && id !in ues
    requires valid(key(u)) ==> key(u) !in table
    ensures Covered(table[key(u) := id], ues[id := u], key, valid)
    ensures !valid(key(u)) ==> Covered(table, ues[id := u], key, valid)
    ensures Indexed(table, ues, key, valid) ==>
              && Indexed(table[key(u) := id], ues[id := u], key, valid)
              && (!valid(key(u)) ==> Indexed(table, ues[id := u], key, valid))
  {
  }

  /** An entry under an invalid key means nothing. */
  lemma DropInvalid<K(!new)>(table: map<K, UeId>, ues: map<UeId, Ue>, key: Ue -> K, valid: K -> bool, k: K)
    requires Covered(table, ues, key, valid) && !valid(k)
    ensures Covered(table - {k}, ues, key, valid)
    ensures Indexed(table, ues, key, valid) ==> Indexed(table - {k}, ues, key, valid)
  {
  }

  /** r is what a search through all live contexts for the key k finds: nothing if none has it,
      otherwise the only one that does. */
  ghost predicate SearchFinds<K(!new)>(ues: map<UeId, Ue>, key: Ue -> K, k: K, r: Option<Ue>) {
    match r
    case None => forall id :: id in ues ==> key(ues[id]) != k
    case Some(u) => key(u) == k && exists id :: id in ues && ues[id] == u && Unowned(ues, key, id, k)
  }

  function Found<K>(table: map<K, UeId>, ues: map<UeId, Ue>, k: K): (r: Option<Ue>) {
    if k in table && table[k] in ues then Some(ues[table[k]]) else None
  }

  /** A lookup gives what the search gives if and only if it leads to exactly those live contexts that
      have the key. */
  lemma LookupIsSearchIff<K(!new)>(table: map<K, UeId>, ues: map<UeId, Ue>, key: Ue -> K, k: K)
    ensures SearchFinds(ues, key, k, Found(table, ues, k)) <==>
            forall id :: id in ues ==> (Owns(ues, key, id, k) <==> Leads(table, k, id))
  {
    if k in table && table[k] in ues {
      if forall id :: id in ues ==> (Owns(ues, key, id, k) <==> Leads(table, k, id)) {
        assert Leads(table, k, table[k]);
        assert Unowned(ues, key, table[k], k);
      }
    }
  }

  /** On a valid key an index that covers all contexts gives what the search gives if and only if it
      does not lead to a live context that has another key. */
  lemma IndexIsSearchIff<K(!new)>(table: map<K, UeId>, ues: map<UeId, Ue>, key: Ue -> K, valid: K -> bool, k: K)
    requires Covered(table, ues, key, valid) && valid(k)
    ensures SearchFinds(ues, key, k, Found(table, ues, k)) <==> forall id :: id in ues ==> !Stale(table, ues, key, k, id)
    ensures Indexed(table, ues, key, valid) ==> SearchFinds(ues, key, k, Found(table, ues, k))
  {
    if k in table && table[k] in ues {
      if Owns(ues, key, table[k], k) {
        assert Unowned(ues, key, table[k], k);
      } else {
        assert Stale(table, ues, key, k, table[k]);
      }
    }
  }

  // ---------------------------------------------------------------- agreement of the registry

  function IdOf(u: Ue): UeId { u.id }
  function ImsiOf(u: Ue): nat { u.imsi }
  function TeidOf(u: Ue): nat { u.teid }
  function EnbKeyOf(u: Ue): nat { u.enbKey }
  function GutiOf(u: Ue): Guti { u.guti }

  /** Every context stands under its own identifier, which is a non-zero 32-bit number. */
  ghost predicate IdsOk(ues: map<UeId, Ue>) {
    forall id :: id in ues ==> ues[id].id == id && INVALID_UE_ID < id < UINT32
  }

  /** Every context is found under its identifier, IMSI, TEID and eNB key, and by the last two nothing
      else is found. */
  ghost predicate IndexOk(m: Mme) {
    && IdsOk(m.ues)
    && Covered(m.byImsi, m.ues, ImsiOf, ValidImsi)
    && Indexed(m.byTeid, m.ues, TeidOf, ValidTeid)
    && Indexed(m.byEnb, m.ues, EnbKeyOf, ValidEnbKey)
  }

  /** Every context is found under its GUTI. */
  ghost predicate GutisFound(m: Mme) { Covered(m.byGuti, m.ues, GutiOf, ValidGuti) }

  /** All four indexes agree with the contexts. */
  ghost predicate IndexExact(m: Mme) {
    && IndexOk(m)
    && GutisFound(m)
    && Indexed(m.byImsi, m.ues, ImsiOf, ValidImsi)
    && Indexed(m.byGuti, m.ues, GutiOf, ValidGuti)
  }

  ghost predicate StaleImsi(m: Mme, imsi: nat, id: UeId) { Stale(m.byImsi, m.ues, ImsiOf, imsi, id) }

  ghost predicate StaleGuti(m: Mme, guti: Guti, id: UeId) { Stale(m.byGuti, m.ues, GutiOf, guti, id) }

  ghost predicate SameKeys(u: Ue, v: Ue) {
    u.id == v.id && u.imsi == v.imsi && u.teid == v.teid && u.enbKey == v.enbKey && u.guti == v.guti
  }

  // ---------------------------------------------------------------- lookups

  function Lookup(m: Mme, id: UeId): (r: Option<Ue>) {
    if id in m.ues then Some(m.ues[id]) else None
  }

  function LookupImsi(m: Mme, imsi: nat): (r: Option<Ue>) {
    if imsi in m.byImsi then Lookup(m, m.byImsi[imsi]) else None
  }

  function LookupTeid(m: Mme, teid: nat): (r: Option<Ue>) {
    if teid in m.byTeid then Lookup(m, m.byTeid[teid]) else None
  }

  /** This lookup ignores the result of the table access: an absent key leads to identifier 0. */
  function LookupEnb(m: Mme, enbKey: nat): (r: Option<Ue>) {
    Lookup(m, if enbKey in m.byEnb then m.byEnb[enbKey] else INVALID_UE_ID)
  }

  function LookupGuti(m: Mme, guti: Guti): (r: Option<Ue>) {
    if guti in m.byGuti then Lookup(m, m.byGuti[guti]) else None
  }

  /** On valid keys the lookups by identifier, TEID and eNB key are searches through all live contexts.
      That by IMSI is if and only if no stale entry leads to a live context, that by GUTI if and only if
      the index leads to exactly the contexts that have it. */
  lemma LookupsAreSearches(m: Mme, id: UeId, imsi: nat, teid: nat, enbKey: nat, guti: Guti)
    requires IndexOk(m)
    ensures SearchFinds(m.ues, IdOf, id, Lookup(m, id))
    ensures ValidTeid(teid) ==> SearchFinds(m.ues, TeidOf, teid, LookupTeid(m, teid))
    ensures ValidEnbKey(enbKey) ==> SearchFinds(m.ues, EnbKeyOf, enbKey, LookupEnb(m, enbKey))
    ensures ValidImsi(imsi) ==>
              (SearchFinds(m.ues, ImsiOf, imsi, LookupImsi(m, imsi)) <==> forall j :: j in m.ues ==> !StaleImsi(m, imsi, j))
    ensures ValidGuti(guti) ==>
              (SearchFinds(m.ues, GutiOf, guti, LookupGuti(m, guti)) <==>
               forall j :: j in m.ues ==> (Owns(m.ues, GutiOf, j, guti) <==> Leads(m.byGuti, guti, j)))
  {
    hide Indexed, Covered, SearchFinds, Stale;
    IdSearch(m, id);
    AllCovered(m);
    if ValidImsi(imsi) {
      IndexIsSearchIff(m.byImsi, m.ues, ImsiOf, ValidImsi, imsi);
    }
    if ValidTeid(teid) {
      IndexIsSearchIff(m.byTeid, m.ues, TeidOf, ValidTeid, teid);
    }
    if ValidEnbKey(enbKey) {
      IndexIsSearchIff(m.byEnb, m.ues, EnbKeyOf, ValidEnbKey, enbKey);
    }
    LookupIsSearchIff(m.byGuti, m.ues, GutiOf, guti);
  }

  lemma IdSearch(m: Mme, id: UeId)
    requires IdsOk(m.ues)
    ensures SearchFinds(m.ues, IdOf, id, Lookup(m, id))
  {
    assert id in m.ues ==> Unowned(m.ues, IdOf, id, id);
  }

  lemma AllCovered(m: Mme)
    requires IndexOk(m)
    ensures Covered(m.byTeid, m.ues, TeidOf, ValidTeid) && Covered(m.byEnb, m.ues, EnbKeyOf, ValidEnbKey)
  {
    hide Covered;
  }

  // ---------------------------------------------------------------- operations

  function PutUe(m: Mme, u: Ue): (m': Mme) {
    m.(ues := m.ues[u.id := u])
  }

  /** A context with new keys. An eNB key is only replaced by a different valid one, a GUTI only by
      one that differs in more than the MNC digits. */
  function Rekeyed(u: Ue, enbKey: nat, imsi: nat, teid: nat, guti: Guti): (u': Ue) {
    u.(enbKey := if ValidEnbKey(enbKey) then enbKey else u.enbKey,
       imsi := imsi,
       teid := teid,
       guti := if SameGutiButMnc(guti, u.guti) then u.guti else guti)
  }

  /** Give a live context new keys in every table. */
  function CollKeys(m: Mme, u: Ue, enbKey: nat, imsi: nat, teid: nat, guti: Guti): (m': Mme) {
    m.(byEnb := if ValidEnbKey(enbKey) && u.enbKey != enbKey then (m.byEnb - {u.enbKey})[enbKey := u.id] else m.byEnb,
       byImsi := (m.byImsi - {u.imsi})[imsi := u.id],
       byTeid := (m.byTeid - {u.teid})[teid := u.id],
       byGuti := if SameGutiButMnc(guti, u.guti) then m.byGuti else (m.byGuti - {u.guti})[guti := u.id],
       ues := m.ues[u.id := Rekeyed(u, enbKey, imsi, teid, guti)])
  }

  function StopTimer(armed: set<TimerId>, t: TimerId): (armed': set<TimerId>) {
    if t != INACTIVE then armed - {t} else armed
  }

  /** Take a context out of every table and release what it holds. */
  function Remove(m: Mme, u: Ue): (m': Mme) {
    m.(byImsi := if u.imsi != INVALID_IMSI then m.byImsi - {u.imsi} else m.byImsi,
       byEnb := m.byEnb - {u.enbKey},
       byTeid := if u.teid != NO_TEID then m.byTeid - {u.teid} else m.byTeid,
       byGuti := if NonZeroGuti(u.guti) then m.byGuti - {u.guti} else m.byGuti,
       ues := m.ues - {u.id},
       armed := StopTimer(StopTimer(StopTimer(m.armed, u.reach), u.detach), u.setup),
       freed := m.freed + [u])
  }

  /** Register a new context. The eNB key is entered before the identifier is checked. */
  function Insert(m: Mme, u: Ue): (m': Mme) {
    m.(byEnb := m.byEnb[u.enbKey := u.id],
       ues := m.ues[u.id := u],
       byImsi := if u.imsi != INVALID_IMSI then m.byImsi[u.imsi := u.id] else m.byImsi,
       byTeid := if u.teid != NO_TEID then m.byTeid[u.teid := u.id] else m.byTeid,
       byGuti := if NonZeroGuti(u.guti) then m.byGuti[u.guti := u.id] else m.byGuti)
  }

  predicate InsertOk(m: Mme, u: Ue) {
    u.enbKey !in m.byEnb && u.id != INVALID_UE_ID && u.id !in m.ues
  }

  // ---------------------------------------------------------------- what they keep

  lemma PutUeKeepsIndex(m: Mme, u: Ue)
    requires IndexOk(m) && u.id in m.ues && SameKeys(u, m.ues[u.id])
    ensures IndexOk(PutUe(m, u))
  {
    hide Indexed, Covered;
    AllCovered(m);
    SameKey(m.byImsi, m.ues, ImsiOf, ValidImsi, u.id, u);
    SameKey(m.byTeid, m.ues, TeidOf, ValidTeid, u.id, u);
    SameKey(m.byEnb, m.ues, EnbKeyOf, ValidEnbKey, u.id, u);
  }

  /** The new keys of a context belong to no other. */
  ghost predicate FreshKeys(ues: map<UeId, Ue>, id: UeId, enbKey: nat, imsi: nat, teid: nat) {
    && (ValidEnbKey(enbKey) ==> Unowned(ues, EnbKeyOf, id, enbKey))
    && (ValidImsi(imsi) ==> Unowned(ues, ImsiOf, id, imsi))
    && (ValidTeid(teid) ==> Unowned(ues, TeidOf, id, teid))
  }

  ghost predicate FreshGuti(ues: map<UeId, Ue>, id: UeId, guti: Guti) {
    ValidGuti(guti) && id in ues && !SameGutiButMnc(guti, ues[id].guti) ==> Unowned(ues, GutiOf, id, guti)
  }

  /** Giving a context new keys keeps all contexts findable if and only if none of the keys belongs to
      another context; under the same condition it keeps all indexes in agreement. */
  lemma CollKeysKeepsIndexIffFresh(m: Mme, id: UeId, enbKey: nat, imsi: nat, teid: nat, guti: Guti)
    requires IndexOk(m) && id in m.ues
    ensures IndexOk(CollKeys(m, m.ues[id], enbKey, imsi, teid, guti)) <==> FreshKeys(m.ues, id, enbKey, imsi, teid)
    ensures GutisFound(m) ==> (GutisFound(CollKeys(m, m.ues[id], enbKey, imsi, teid, guti)) <==> FreshGuti(m.ues, id, guti))
    ensures IndexExact(m) ==>
              (IndexExact(CollKeys(m, m.ues[id], enbKey, imsi, teid, guti)) <==>
               FreshKeys(m.ues, id, enbKey, imsi, teid) && FreshGuti(m.ues, id, guti))
  {
    hide Indexed, Covered, Unowned;
    var u := m.ues[id];
    var u' := CollKeys(m, u, enbKey, imsi, teid, guti).ues[id];
    AllCovered(m);
    Rekey(m.byImsi, m.ues, ImsiOf, ValidImsi, id, u');
    Rekey(m.byTeid, m.ues, TeidOf, ValidTeid, id, u');
    if u'.enbKey == u.enbKey {
      SameKey(m.byEnb, m.ues, EnbKeyOf, ValidEnbKey, id, u');
    } else {
      Rekey(m.byEnb, m.ues, EnbKeyOf, ValidEnbKey, id, u');
    }
    if GutisFound(m) {
      if SameGutiButMnc(guti, u.guti) {
        SameKey(m.byGuti, m.ues, GutiOf, ValidGuti, id, u');
      } else {
        Rekey(m.byGuti, m.ues, GutiOf, ValidGuti, id, u');
      }
    }
  }

  lemma RemoveKeepsIndex(m: Mme, id: UeId)
    requires IndexOk(m) && id in m.ues
    ensures IndexOk(Remove(m, m.ues[id]))
    ensures IndexExact(m) ==> IndexExact(Remove(m, m.ues[id]))
  {
    hide Indexed, Covered;
    AllCovered(m);
    DropKey(m.byImsi, m.ues, ImsiOf, ValidImsi, id);
    DropKey(m.byTeid, m.ues, TeidOf, ValidTeid, id);
    DropKey(m.byEnb, m.ues, EnbKeyOf, ValidEnbKey, id);
    if GutisFound(m) {
      DropKey(m.byGuti, m.ues, GutiOf, ValidGuti, id);
    }
  }

  lemma InsertKeepsIndex(m: Mme, u: Ue)
    requires IndexOk(m) && InsertOk(m, u) && u.id < UINT32
    requires ValidEnbKey(u.enbKey) && !ValidImsi(u.imsi) && !ValidTeid(u.teid) && !ValidGuti(u.guti)
    ensures IndexOk(Insert(m, u))
    ensures IndexExact(m) ==> IndexExact(Insert(m, u))
  {
    hide Indexed, Covered;
    AllCovered(m);
    AddKey(m.byImsi, m.ues, ImsiOf, ValidImsi, u.id, u);
    AddKey(m.byTeid, m.ues, TeidOf, ValidTeid, u.id, u);
    AddKey(m.byEnb, m.ues, EnbKeyOf, ValidEnbKey, u.id, u);
    if GutisFound(m) {
      AddKey(m.byGuti, m.ues, GutiOf, ValidGuti, u.id, u);
    }
  }

  /** The index has no entry that leads to id, at least not under a valid key. */
  ghost predicate Unreached<K(!new)>(table: map<K, UeId>, id: UeId, valid: K -> bool) {
    forall k :: k in table && valid(k) ==> table[k] != id
  }

  /** No valid TEID or eNB key leads to an identifier without a live context. */
  lemma DeadIsUnreachable(m: Mme, id: UeId)
    requires IndexOk(m) && id !in m.ues
    ensures Unreached(m.byTeid, id, ValidTeid) && Unreached(m.byEnb, id, ValidEnbKey)
  {
  }
}
