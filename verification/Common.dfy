/** Values shared by every part of the model. */
module Common {
  datatype Option<+T> = None | Some(value: T)

  const UINT32: nat := 0x1_0000_0000

  /** The key at an eNB that means "none". */
  const INVALID_ENB_KEY: nat := 0xFFFF_FFFF_FFFF_FFFF

  type Nibble = n: nat | n < 16

  datatype Plmn = Plmn(mcc1: Nibble, mcc2: Nibble, mcc3: Nibble, mnc1: Nibble, mnc2: Nibble, mnc3: Nibble)
}
