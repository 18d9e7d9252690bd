/** The mobile identity of 3GPP TS 24.008 section 10.5.1.4: one of five identities, or none, told
    apart by three bits of its first octet. */
module MobileIdentity {
  import opened Common
  import opened Octets
  import opened PlmnList
  import Bits

  const MOBILE_IEI: Octet := 0x23
  const IE_MIN_LENGTH: nat := 3
  const END_MARK: Nibble := 0xF

  datatype Digits15 = Digits15(
    d1: Nibble, d2: Nibble, d3: Nibble, d4: Nibble, d5: Nibble, d6: Nibble, d7: Nibble, d8: Nibble, d9: Nibble,
    d10: Nibble, d11: Nibble, d12: Nibble, d13: Nibble, d14: Nibble, d15: Nibble)
  datatype Digits17 = Digits17(
    d1: Nibble, d2: Nibble, d3: Nibble, d4: Nibble, d5: Nibble, d6: Nibble, d7: Nibble, d8: Nibble, d9: Nibble,
    d10: Nibble, d11: Nibble, d12: Nibble, d13: Nibble, d14: Nibble, d15: Nibble, d16: Nibble, d17: Nibble)

  /** `odd` is the odd/even indication. The digits of an IMEI end with the check digit, those of an
      IMEISV with the two digits of the software version and the last half octet. */
  datatype Identity =
    | Imsi(odd: bool, digits: Digits15)
    | Imei(odd: bool, digits: Digits15)
    | Imeisv(odd: bool, sv: Digits17)
    | Tmsi(odd: bool, filler: Nibble, t0: Octet, t1: Octet, t2: Octet, t3: Octet)
    | Tmgi(odd: bool, sessionIndication: bool, plmnIndication: bool, service: Word32, plmn: Plmn, session: Octet)
    | NoIdentity(odd: bool)

  // ---------------------------------------------------------------- encoding

  /** The first octet: a digit, the odd/even bit and the type. */
  function First(digit: Nibble, odd: bool, kind: nat): (o: Octet)
    requires kind < 8
  {
    Pair(digit, (if odd then 8 else 0) + kind)
  }

  /** Digits 6 to 15 of an IMSI: pairs until the first digit of one is missing. When the indication is
      even, the second digit of every pair gives way to the end mark. */
  function ImsiTail(odd: bool, d: Digits15): (s: seq<Octet>) {
    ImsiTailFrom(odd, d.d6, d.d7,
      ImsiTailFrom(odd, d.d8, d.d9,
        ImsiTailFrom(odd, d.d10, d.d11, ImsiTailFrom(odd, d.d12, d.d13, ImsiTailFrom(odd, d.d14, d.d15, [])))))
  }

  function ImsiTailFrom(odd: bool, first: Nibble, second: Nibble, rest: seq<Octet>): (s: seq<Octet>) {
    if first == END_MARK then [] else [ImsiPair(odd, second, first)] + rest
  }

  function ImsiPair(odd: bool, second: Nibble, first: Nibble): (o: Octet) {
    Pair(if odd then second else END_MARK, first)
  }

  function ImsiBody(odd: bool, d: Digits15): (s: seq<Octet>) {
    [First(d.d1, odd, 1), Pair(d.d3, d.d2), Pair(if d.d4 != END_MARK then d.d5 else END_MARK, d.d4)] + ImsiTail(odd, d)
  }

  function ImeiBody(odd: bool, d: Digits15): (s: seq<Octet>) {
    [First(d.d1, odd, 2), Pair(d.d3, d.d2), Pair(d.d5, d.d4), Pair(d.d7, d.d6), Pair(d.d9, d.d8), Pair(d.d11, d.d10),
     Pair(d.d13, d.d12), Pair(if odd then d.d15 else END_MARK, d.d14)]
  }

  lemma OrOfNibbles(a: Nibble, b: Nibble)
    ensures Bits.Or(a, b) < 16 && Bits.Or(0, b) == b
  {
    assert Bits.Pow2(4) == 16;
    Bits.OrFits(a, b, 4);
    Bits.OrZero(b);
  }

  /** When the indication is odd, the last half octet is or-ed into the low one. */
  function ImeisvLast(odd: bool, svn2: Nibble, last: Nibble): (o: Octet) {
    OrOfNibbles(last, svn2);
    if odd then Bits.Or(last, svn2) else Pair(END_MARK, svn2)
  }

  function ImeisvBody(odd: bool, d: Digits17): (s: seq<Octet>) {
    [First(d.d1, odd, 3), Pair(d.d3, d.d2), Pair(d.d5, d.d4), Pair(d.d7, d.d6), Pair(d.d9, d.d8), Pair(d.d11, d.d10),
     Pair(d.d13, d.d12), Pair(d.d15, d.d14), ImeisvLast(odd, d.d16, d.d17)]
  }

  function TmgiFirst(x: Identity): (n: Nibble)
    requires x.Tmgi?
  {
    (if x.sessionIndication then 2 else 0) + (if x.plmnIndication then 1 else 0)
  }

  /** The service identity is written as four octets of which the encoder counts three. */
  function TmgiBody(x: Identity): (s: seq<Octet>)
    requires x.Tmgi?
    ensures |s| == 8
  {
    [First(TmgiFirst(x), x.odd, 5)] + U32(x.service)[..3] + Three(x.plmn) + [x.session]
  }

  function Body(x: Identity): (s: seq<Octet>) {
    match x
    case Imsi(odd, d) => ImsiBody(odd, d)
    case Imei(odd, d) => ImeiBody(odd, d)
    case Imeisv(odd, d) => ImeisvBody(odd, d)
    case Tmsi(odd, _, t0, t1, t2, t3) => [First(END_MARK, odd, 4), t0, t1, t2, t3]
    case Tmgi(_, _, _, _, _, _) => TmgiBody(x)
    case NoIdentity(_) => [0]
  }

  /** The length octet: that of the body, except that a missing identity claims three. */
  function LengthOf(x: Identity): (n: Octet)
  {
    BodyLength(x);
    if x.NoIdentity? then 3 else |Body(x)|
  }

  lemma BodyLength(x: Identity)
    ensures 0 < |Body(x)| <= 9
  {
    hide Pair, First, U32, ImeisvLast, Three, ImsiPair;
  }

  function Ie(x: Identity, withIei: bool): (s: seq<Octet>) {
    (if withIei then [MOBILE_IEI] else []) + [LengthOf(x)] + Body(x)
  }

  // ---------------------------------------------------------------- decoding

  predicate OddOf(o: Octet) { (o / 8) % 2 == 1 }

  /** The digits in eight octets: the first one stands in the upper half of octet 1, the others
      follow with the lower half of each octet first. */
  function Digits8(b: seq<Octet>): (d: Digits15)
    requires |b| >= 8
  {
    Digits15(High(b[0]), Low4(b[1]), High(b[1]), Low4(b[2]), High(b[2]), Low4(b[3]), High(b[3]), Low4(b[4]), High(b[4]),
     Low4(b[5]), High(b[5]), Low4(b[6]), High(b[6]), Low4(b[7]), High(b[7]))
  }

  function Digits9(b: seq<Octet>): (d: Digits17)
    requires |b| >= 9
  {
    Digits17(High(b[0]), Low4(b[1]), High(b[1]), Low4(b[2]), High(b[2]), Low4(b[3]), High(b[3]), Low4(b[4]), High(b[4]),
     Low4(b[5]), High(b[5]), Low4(b[6]), High(b[6]), Low4(b[7]), High(b[7]), Low4(b[8]), High(b[8]))
  }

  /** An even indication demands the end mark in the upper half of octets 3 to 8. */
  predicate EndMarks(d: Digits15) {
    d.d5 == END_MARK && d.d7 == END_MARK && d.d9 == END_MARK && d.d11 == END_MARK && d.d13 == END_MARK && d.d15 == END_MARK
  }

  function DecodeImsi(b: seq<Octet>): (r: Decoded<Identity>) {
    if |b| < 8 then Error(BUFFER_TOO_SHORT)
    else if !OddOf(b[0]) && !EndMarks(Digits8(b)) then Error(VALUE_DOESNT_MATCH)
    else Ok(Imsi(OddOf(b[0]), Digits8(b)), 8)
  }

  function DecodeImei(b: seq<Octet>): (r: Decoded<Identity>) {
    if |b| < 8 then Error(BUFFER_TOO_SHORT)
    else if !OddOf(b[0]) && Digits8(b).d15 != END_MARK then Error(VALUE_DOESNT_MATCH)
    else Ok(Imei(OddOf(b[0]), Digits8(b)), 8)
  }

  function DecodeImeisv(b: seq<Octet>): (r: Decoded<Identity>) {
    if |b| < 9 then Error(BUFFER_TOO_SHORT)
    else if !OddOf(b[0]) && Digits9(b).d17 != END_MARK then Error(VALUE_DOESNT_MATCH)
    else Ok(Imeisv(OddOf(b[0]), Digits9(b)), 9)
  }

  function DecodeTmsi(b: seq<Octet>): (r: Decoded<Identity>) {
    if |b| < 5 then Error(BUFFER_TOO_SHORT)
    else if High(b[0]) != END_MARK then Error(VALUE_DOESNT_MATCH)
    else Ok(Tmsi(OddOf(b[0]), High(b[0]), b[1], b[2], b[3], b[4]), 5)
  }

  /** Nine octets are demanded, eight are read. Of the two spare bits only the upper one is checked. */
  function DecodeTmgi(b: seq<Octet>): (r: Decoded<Identity>) {
    if |b| < 9 then Error(BUFFER_TOO_SHORT)
    else if b[0] / 128 != 0 then Error(VALUE_DOESNT_MATCH)
    else Ok(Tmgi(OddOf(b[0]), (b[0] / 32) % 2 == 1, (b[0] / 16) % 2 == 1, FromU32([0] + b[1..4]), Read(b, 4), b[7]), 8)
  }

  /** What the digits of a missing identity hold is not modelled. */
  function DecodeNone(b: seq<Octet>): (r: Decoded<Identity>) {
    if |b| < 1 then Error(BUFFER_TOO_SHORT)
    else Ok(NoIdentity(OddOf(b[0])), if |b| > 2 then 3 else |b|)
  }

  /** `b` is the part of the buffer that the length octet announces. */
  function DecodeBody(b: seq<Octet>, kind: nat): (r: Decoded<Identity>) {
    if kind == 1 then DecodeImsi(b)
    else if kind == 2 then DecodeImei(b)
    else if kind == 3 then DecodeImeisv(b)
    else if kind == 4 then DecodeTmsi(b)
    else if kind == 5 then DecodeTmgi(b)
    else if kind == 0 then DecodeNone(b)
    else Error(VALUE_DOESNT_MATCH)
  }

  function Shifted<T>(r: Decoded<T>, n: nat): (r': Decoded<T>) {
    match r
    case Ok(value, used) => Ok(value, used + n)
    case Error(code) => Error(code)
    case Overrun => Overrun
    case Abort => Abort
  }

  function Decode(b: seq<Octet>, withIei: bool): (r: Decoded<Identity>) {
    if |b| < (if withIei then IE_MIN_LENGTH else IE_MIN_LENGTH - 1) then Error(BUFFER_TOO_SHORT)
    else if withIei && b[0] != MOBILE_IEI then Error(UNEXPECTED_IEI)
    else
      var at := if withIei then 2 else 1;
      if |b| - at < b[at - 1] then Error(BUFFER_TOO_SHORT)
      else Shifted(DecodeBody(b[at..at + b[at - 1]], b[at] % 8), at)
  }

  // ---------------------------------------------------------------- round trip

  lemma FirstParts(digit: Nibble, odd: bool, kind: nat)
    requires kind < 8
    ensures var o := First(digit, odd, kind); High(o) == digit && OddOf(o) == odd && o % 8 == kind
  {
    var x: nat := if odd then 1 else 0;
    Eights(2 * digit + x, kind);
    Twos(digit, x);
  }

  lemma Eights(n: nat, kind: nat)
    requires n < 32 && kind < 8
    ensures (8 * n + kind) / 8 == n && (8 * n + kind) % 8 == kind && (8 * n + kind) / 16 == n / 2
  {
  }

  lemma Twos(digit: Nibble, x: nat)
    requires x < 2
    ensures (2 * digit + x) / 2 == digit && (2 * digit + x) % 2 == x
  {
  }

  /** The identities that survive: what the encoder leaves out must be what the decoder puts there. */
  ghost predicate Survives(x: Identity) {
    match x
    case Imsi(odd, d) =>
      && d.d6 != END_MARK && d.d8 != END_MARK && d.d10 != END_MARK && d.d12 != END_MARK && d.d14 != END_MARK
      && (d.d4 == END_MARK ==> d.d5 == END_MARK)
      && (!odd ==> EndMarks(d))
    case Imei(odd, d) => !odd ==> d.d15 == END_MARK
    case Imeisv(odd, d) => d.d17 == if odd then 0 else END_MARK
    case Tmsi(_, filler, _, _, _, _) => filler == END_MARK
    case Tmgi(_, _, _, _, _, _) => false
    case NoIdentity(_) => false
  }

  /** An IMSI takes eight octets exactly when none of its even-numbered digits from 6 on is missing. */
  lemma ImsiTailFull(odd: bool, d: Digits15)
    ensures |ImsiTail(odd, d)| >= 5 <==>
            d.d6 != END_MARK && d.d8 != END_MARK && d.d10 != END_MARK && d.d12 != END_MARK && d.d14 != END_MARK
    ensures |ImsiTail(odd, d)| >= 5 ==>
            && |ImsiTail(odd, d)| == 5
            && ImsiTail(odd, d)[0] == ImsiPair(odd, d.d7, d.d6) && ImsiTail(odd, d)[1] == ImsiPair(odd, d.d9, d.d8)
            && ImsiTail(odd, d)[2] == ImsiPair(odd, d.d11, d.d10) && ImsiTail(odd, d)[3] == ImsiPair(odd, d.d13, d.d12)
            && ImsiTail(odd, d)[4] == ImsiPair(odd, d.d15, d.d14)
  {
    hide ImsiPair;
  }

  lemma ImsiPairParts(odd: bool, second: Nibble, first: Nibble)
    ensures High(ImsiPair(odd, second, first)) == (if odd then second else END_MARK)
    ensures Low4(ImsiPair(odd, second, first)) == first
  {
    PairParts(if odd then second else END_MARK, first);
  }

  /** The digits the decoder finds in an IMSI of eight octets. */
  function ImsiArrives(odd: bool, d: Digits15): (e: Digits15) {
    Digits15(d.d1, d.d2, d.d3, d.d4, if d.d4 != END_MARK then d.d5 else END_MARK,
     d.d6, if odd then d.d7 else END_MARK, d.d8, if odd then d.d9 else END_MARK, d.d10, if odd then d.d11 else END_MARK,
     d.d12, if odd then d.d13 else END_MARK, d.d14, if odd then d.d15 else END_MARK)
  }

  lemma ImsiDigits(odd: bool, d: Digits15)
    requires |ImsiBody(odd, d)| >= 8
    ensures |ImsiBody(odd, d)| == 8 && Digits8(ImsiBody(odd, d)) == ImsiArrives(odd, d) && OddOf(ImsiBody(odd, d)[0]) == odd
  {
    hide Pair, High, Low4, First, OddOf, ImsiTail, ImsiPair;
    ImsiTailFull(odd, d);
    FirstParts(d.d1, odd, 1);
    PairParts(d.d3, d.d2);
    PairParts(if d.d4 != END_MARK then d.d5 else END_MARK, d.d4);
    ImsiPairParts(odd, d.d7, d.d6);
    ImsiPairParts(odd, d.d9, d.d8);
    ImsiPairParts(odd, d.d11, d.d10);
    ImsiPairParts(odd, d.d13, d.d12);
    ImsiPairParts(odd, d.d15, d.d14);
  }

  lemma ImsiRoundTripIff(odd: bool, d: Digits15)
    ensures DecodeImsi(ImsiBody(odd, d)) == Ok(Imsi(odd, d), |ImsiBody(odd, d)|) <==> Survives(Imsi(odd, d))
  {
    hide Pair, First, OddOf, ImsiTail, Digits8;
    ImsiTailFull(odd, d);
    if |ImsiBody(odd, d)| >= 8 {
      ImsiDigits(odd, d);
      ImsiArrivesIff(odd, d);
      hide ImsiArrives;
    }
  }

  lemma ImsiArrivesIff(odd: bool, d: Digits15)
    ensures ImsiArrives(odd, d) == d <==>
            (d.d4 == END_MARK ==> d.d5 == END_MARK) &&
            (odd || (d.d7 == END_MARK && d.d9 == END_MARK && d.d11 == END_MARK && d.d13 == END_MARK && d.d15 == END_MARK))
    ensures EndMarks(ImsiArrives(odd, d)) && !odd && ImsiArrives(odd, d) == d ==> EndMarks(d)
  {
  }

  lemma ImeiDigits(odd: bool, d: Digits15)
    ensures |ImeiBody(odd, d)| == 8 && OddOf(ImeiBody(odd, d)[0]) == odd
    ensures Digits8(ImeiBody(odd, d)) == d.(d15 := if odd then d.d15 else END_MARK)
  {
    hide Pair, High, Low4, First, OddOf;
    FirstParts(d.d1, odd, 2);
    PairParts(d.d3, d.d2);
    PairParts(d.d5, d.d4);
    PairParts(d.d7, d.d6);
    PairParts(d.d9, d.d8);
    PairParts(d.d11, d.d10);
    PairParts(d.d13, d.d12);
    PairParts(if odd then d.d15 else END_MARK, d.d14);
  }

  lemma ImeiRoundTripIff(odd: bool, d: Digits15)
    ensures DecodeImei(ImeiBody(odd, d)) == Ok(Imei(odd, d), |ImeiBody(odd, d)|) <==> Survives(Imei(odd, d))
  {
    hide OddOf, ImeiBody, Digits8;
    ImeiDigits(odd, d);
  }

  lemma ImeisvLastParts(odd: bool, svn2: Nibble, last: Nibble)
    ensures var o := ImeisvLast(odd, svn2, last);
            && High(o) == (if odd then 0 else END_MARK)
            && (Low4(o) == svn2 || (odd && last != 0))
  {
    OrOfNibbles(last, svn2);
    PairParts(END_MARK, svn2);
  }

  function ImeisvArrives(odd: bool, d: Digits17): (e: Digits17) {
    var last := ImeisvLast(odd, d.d16, d.d17);
    Digits17(d.d1, d.d2, d.d3, d.d4, d.d5, d.d6, d.d7, d.d8, d.d9, d.d10, d.d11, d.d12, d.d13, d.d14, d.d15, Low4(last), High(last))
  }

  lemma ImeisvDigits(odd: bool, d: Digits17)
    ensures |ImeisvBody(odd, d)| == 9 && OddOf(ImeisvBody(odd, d)[0]) == odd
    ensures Digits9(ImeisvBody(odd, d)) == ImeisvArrives(odd, d)
  {
    hide Pair, High, Low4, First, OddOf, ImeisvLast;
    FirstParts(d.d1, odd, 3);
    PairParts(d.d3, d.d2);
    PairParts(d.d5, d.d4);
    PairParts(d.d7, d.d6);
    PairParts(d.d9, d.d8);
    PairParts(d.d11, d.d10);
    PairParts(d.d13, d.d12);
    PairParts(d.d15, d.d14);
  }

  lemma ImeisvArrivesIff(odd: bool, d: Digits17)
    ensures ImeisvArrives(odd, d).d17 == if odd then 0 else END_MARK
    ensures ImeisvArrives(odd, d) == d <==> Survives(Imeisv(odd, d))
  {
    hide High, Low4, ImeisvLast;
    ImeisvLastParts(odd, d.d16, d.d17);
  }

  lemma ImeisvRoundTripIff(odd: bool, d: Digits17)
    ensures DecodeImeisv(ImeisvBody(odd, d)) == Ok(Imeisv(odd, d), |ImeisvBody(odd, d)|) <==> Survives(Imeisv(odd, d))
  {
    ImeisvDigits(odd, d);
    ImeisvArrivesIff(odd, d);
    hide ImeisvArrives, OddOf, ImeisvBody, Digits9;
  }

  lemma TmsiRoundTripIff(x: Identity)
    requires x.Tmsi?
    ensures DecodeTmsi(Body(x)) == Ok(x, |Body(x)|) <==> Survives(x)
  {
    FirstParts(END_MARK, x.odd, 4);
    hide High, First, OddOf;
  }

  function Kind(x: Identity): (k: nat)
    ensures k < 8
  {
    match x
    case Imsi(_, _) => 1
    case Imei(_, _) => 2
    case Imeisv(_, _) => 3
    case Tmsi(_, _, _, _, _, _) => 4
    case Tmgi(_, _, _, _, _, _) => 5
    case NoIdentity(_) => 0
  }

  lemma KindRead(x: Identity)
    ensures Body(x) != [] && Body(x)[0] % 8 == Kind(x)
  {
    match x
    case Imsi(odd, d) => FirstParts(d.d1, odd, 1);
    case Imei(odd, d) => FirstParts(d.d1, odd, 2);
    case Imeisv(odd, d) => FirstParts(d.d1, odd, 3);
    case Tmsi(odd, _, _, _, _, _) => FirstParts(END_MARK, odd, 4);
    case Tmgi(odd, _, _, _, _, _) => FirstParts(TmgiFirst(x), odd, 5);
    case NoIdentity(_) =>
  }

  /** The body alone, when the whole of it is handed to the decoder of its type. */
  lemma BodyRoundTripIff(x: Identity)
    requires !x.NoIdentity?
    ensures DecodeBody(Body(x), Kind(x)) == Ok(x, |Body(x)|) <==> Survives(x)
  {
    hide DecodeImsi, DecodeImei, DecodeImeisv, DecodeTmsi, ImsiBody, ImeiBody, ImeisvBody, TmgiBody, Survives;
    match x
    case Imsi(odd, d) => ImsiRoundTripIff(odd, d);
    case Imei(odd, d) => ImeiRoundTripIff(odd, d);
    case Imeisv(odd, d) => ImeisvRoundTripIff(odd, d);
    case Tmsi(_, _, _, _, _, _) => TmsiRoundTripIff(x);
    case Tmgi(_, _, _, _, _, _) => TmgiNeverSurvives(x);
  }

  lemma TmgiNeverSurvives(x: Identity)
    requires x.Tmgi?
    ensures DecodeBody(Body(x), 5) == Error(BUFFER_TOO_SHORT) && !Survives(x)
  {
    hide First, U32, Three;
  }

  /** Decoding an encoded identity, with or without its identifier and whatever follows it in the
      buffer, gives it back from exactly its octets if and only if it survives. */
  lemma RoundTripIff(x: Identity, withIei: bool, post: seq<Octet>)
    ensures Decode(Ie(x, withIei) + post, withIei) == Ok(x, |Ie(x, withIei)|) <==> Survives(x)
  {
    BodyLength(x);
    KindRead(x);
    if x.NoIdentity? {
      NoneTakesThree(x, withIei, post);
    } else {
      BodyRoundTripIff(x);
      var pre := (if withIei then [MOBILE_IEI] else []) + [LengthOf(x)];
      assert Ie(x, withIei) + post == pre + Body(x) + post;
      Middle(pre, Body(x), post);
      hide Body, DecodeBody, Survives;
    }
  }

  /** One octet is written for a missing identity, three are announced. */
  lemma NoneTakesThree(x: Identity, withIei: bool, post: seq<Octet>)
    requires x.NoIdentity?
    ensures Decode(Ie(x, withIei) + post, withIei) != Ok(x, |Ie(x, withIei)|)
  {
  }

  /** A 15-digit IMSI with an odd indication survives; one with an even indication whose fifth digit
      is a digit does not. */
  lemma ImsiByLength(odd: bool, d: Digits15)
    requires d.d1 <= 9 && d.d2 <= 9 && d.d3 <= 9 && d.d4 <= 9 && d.d5 <= 9 && d.d6 <= 9 && d.d7 <= 9
    requires d.d8 <= 9 && d.d9 <= 9 && d.d10 <= 9 && d.d11 <= 9 && d.d12 <= 9 && d.d13 <= 9 && d.d14 <= 9
    requires odd ==> d.d15 <= 9
    ensures Survives(Imsi(odd, d)) <==> odd
  {
  }
}
