/** The 64-bit key under which a UE is known by its eNB: the eNB identity above the 24-bit
    eNB UE S1AP identity. */
module EnbKey {
  import opened Bits
  import opened Common

  const ENB_UE_S1AP_ID_BITS: nat := 24
  const ENB_UE_S1AP_ID_MASK: nat := 0x00FF_FFFF

  lemma Pow24()
    ensures Pow2(24) == 0x100_0000
  {
    assert Pow2(4) == 16;
    assert Pow2(8) == 256;
    assert Pow2(12) == 0x1000;
    assert Pow2(16) == 0x1_0000;
    assert Pow2(20) == 0x10_0000;
  }

  function Pack(enbId: nat, enbUeId: nat): (key: nat) {
    Or(Shl(enbId, ENB_UE_S1AP_ID_BITS), enbUeId)
  }

  function UnpackUeId(key: nat): (enbUeId: nat) {
    And(key, ENB_UE_S1AP_ID_MASK)
  }

  /** For 24-bit identities the key determines both halves, fits 64 bits and is never the
      invalid one. */
  lemma PackUnpacks(enbId: nat, enbUeId: nat)
    requires enbId < UINT32 && enbUeId <= ENB_UE_S1AP_ID_MASK
    ensures UnpackUeId(Pack(enbId, enbUeId)) == enbUeId
    ensures Shr(Pack(enbId, enbUeId), ENB_UE_S1AP_ID_BITS) == enbId
    ensures Pack(enbId, enbUeId) == enbId * 0x100_0000 + enbUeId < INVALID_ENB_KEY
  {
    Pow24();
    SplitPacked(enbId, enbUeId, ENB_UE_S1AP_ID_BITS);
    OrAdds(enbId, enbUeId, ENB_UE_S1AP_ID_BITS);
  }

  lemma PackInjective(e1: nat, u1: nat, e2: nat, u2: nat)
    requires e1 < UINT32 && e2 < UINT32 && u1 <= ENB_UE_S1AP_ID_MASK && u2 <= ENB_UE_S1AP_ID_MASK
    ensures Pack(e1, u1) == Pack(e2, u2) <==> e1 == e2 && u1 == u2
  {
    PackUnpacks(e1, u1);
    PackUnpacks(e2, u2);
  }
}
