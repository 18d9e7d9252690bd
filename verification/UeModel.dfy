/** The state of the MME application layer as a value: the UE contexts of 3GPP TS 23.401
    section 5.7.2, the primary table that holds them and the four indexes that lead to it. */
module UeModel {
  import opened Common
  import Bearers

  type UeId = nat
  type TimerId = int

  const INVALID_UE_ID: UeId := 0
  const INVALID_M_TMSI: nat := 0xFFFF_FFFF
  const INVALID_IMSI: nat := 0
  const NO_TEID: nat := 0
  const INACTIVE: TimerId := -1

  datatype Guti = Guti(plmn: Plmn, mmeGid: nat, mmeCode: nat, mTmsi: nat)

  const CLEARED_GUTI := Guti(Plmn(0, 0, 0, 0, 0, 0), 0, 0, INVALID_M_TMSI)

  datatype MmState = Unregistered | Registered
  datatype EcmState = Idle | Connected

  datatype Cause =
    | InvalidCause
    | NasNormalRelease
    | NasDetach
    | RadioGenerated
    | ImplicitRelease
    | InitialContextSetupFailed
    | SctpReset

  /** `serial` numbers the contexts in the order they were created; it only records history. */
  datatype Ue = Ue(
    serial: nat,
    id: UeId,
    enbKey: nat,
    enbUeId: nat,
    imsi: nat,
    teid: nat,
    guti: Guti,
    mm: MmState,
    ecm: EcmState,
    relCause: Cause,
    reach: TimerId,
    detach: TimerId,
    setup: TimerId,
    activePdns: int,
    tables: Bearers.Tables)

  /** What the handlers hand to the other tasks. */
  datatype Message =
    | S1ReleaseCommand(id: UeId, enbUeId: nat, cause: Cause)
    | ImplicitDetachInd(id: UeId)
    | NasDownlink(id: UeId, enbUeId: nat)
    | UeIdNotification(id: UeId, enbUeId: nat)
    | CreateSessionReq(imsi: nat, localTeid: nat, ebi: nat)
    | DeleteSessionReq(localTeid: nat, sgwTeid: nat, lbi: nat)
    | ReleaseAccessBearersReq(localTeid: nat, sgwTeid: nat)
    | PdnConnectivityRsp(id: UeId, cid: int, ebi: nat)
    | PdnConnectivityFail(id: UeId)
    | DedicatedBearerReq(id: UeId, cid: int, ebi: nat, linkedEbi: nat)
    | CreateBearerRsp(localTeid: nat, response: Bearers.Response)
    | ConnectionEstablishment(id: UeId, erabs: seq<Bearers.ErabItem>, nas: Option<Bearers.NasPdu>)

  datatype Stats = Stats(connected: nat, attached: nat, defaultBearers: nat, s1uBearers: nat)

  /** `armed` holds the timers the timer service will still fire, `sent` the messages sent so far,
      `freed` the contexts removed so far, oldest first. */
  datatype Mme = Mme(
    ues: map<UeId, Ue>,
    byImsi: map<nat, UeId>,
    byTeid: map<nat, UeId>,
    byEnb: map<nat, UeId>,
    byGuti: map<Guti, UeId>,
    generator: UeId,
    created: nat,
    armed: set<TimerId>,
    periodicTau: bool,
    stats: Stats,
    sent: seq<Message>,
    freed: seq<Ue>)

  /** What `timer_setup` did: the number it wrote, or a failure. */
  datatype TimerSetup = Started(id: TimerId) | Failed

  /** `AssertFatal`, `DevAssert` and dereferences of NULL end the process. */
  datatype Outcome = Done(mme: Mme) | Abort

  predicate NonZeroGuti(g: Guti) {
    g.mmeCode != 0 || g.mmeGid != 0 || g.mTmsi != 0 || g.plmn.mcc1 != 0 || g.plmn.mcc2 != 0 || g.plmn.mcc3 != 0
  }

  /** The comparison made when keys are updated leaves the MNC digits out. */
  predicate SameGutiButMnc(a: Guti, b: Guti) {
    && a.mmeCode == b.mmeCode
    && a.mmeGid == b.mmeGid
    && a.mTmsi == b.mTmsi
    && a.plmn.mcc1 == b.plmn.mcc1
    && a.plmn.mcc2 == b.plmn.mcc2
    && a.plmn.mcc3 == b.plmn.mcc3
  }

  // Keys that identify a UE. Every other value of a key field means "none".
  predicate ValidImsi(k: nat) { k != INVALID_IMSI }
  predicate ValidTeid(k: nat) { k != NO_TEID }
  predicate ValidEnbKey(k: nat) { k != INVALID_ENB_KEY }
  predicate ValidGuti(g: Guti) { g.mTmsi != INVALID_M_TMSI && NonZeroGuti(g) }
}
