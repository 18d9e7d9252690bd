/** The PLMN list of 3GPP TS 24.008 section 10.5.1.13: up to 15 PLMNs of three octets, two digits to
    the octet. */
module PlmnList {
  import opened Common
  import opened Octets

  const IEI: Octet := 0x4A
  const MAX_PLMN: nat := 15

  /** Two digits in an octet. */
  function Pair(high: Nibble, low: Nibble): (o: Octet) { high * 16 + low }
  function High(o: Octet): (n: Nibble) { o / 16 }
  function Low4(o: Octet): (n: Nibble) { o % 16 }

  lemma PairParts(high: Nibble, low: Nibble)
    ensures High(Pair(high, low)) == high && Low4(Pair(high, low)) == low
  {
  }

  // ---------------------------------------------------------------- encoding

  function Three(p: Plmn): (s: seq<Octet>)
    ensures |s| == 3
  {
    [Pair(p.mcc2, p.mcc1), Pair(p.mnc3, p.mcc3), Pair(p.mnc2, p.mnc1)]
  }

  function Body(ps: seq<Plmn>): (s: seq<Octet>)
    ensures |s| == 3 * |ps|
  {
    if ps == [] then [] else Body(ps[..|ps| - 1]) + Three(ps[|ps| - 1])
  }

  function Ie(ps: seq<Plmn>, withIei: bool): (s: seq<Octet>)
    requires |ps| <= MAX_PLMN
    ensures |s| == (if withIei then 2 else 1) + 3 * |ps|
  {
    (if withIei then [IEI] else []) + [3 * |ps|] + Body(ps)
  }

  // ---------------------------------------------------------------- decoding

  function Read(b: seq<Octet>, at: nat): (p: Plmn)
    requires at + 3 <= |b|
  {
    Plmn(Low4(b[at]), High(b[at]), Low4(b[at + 1]), Low4(b[at + 2]), High(b[at + 2]), High(b[at + 1]))
  }

  /** PLMNs are read to the end of the buffer; there is room for 15. */
  function ReadAll(b: seq<Octet>, at: nat, ps: seq<Plmn>): (r: Decoded<seq<Plmn>>)
    decreases |b| - at
  {
    if at >= |b| then Ok(ps, at)
    else if |ps| >= MAX_PLMN || at + 3 > |b| then Overrun
    else ReadAll(b, at + 3, ps + [Read(b, at)])
  }

  /** `before` is the number of PLMNs that the result structure holds before the call. */
  function Decode(b: seq<Octet>, withIei: bool, before: nat): (r: Decoded<seq<Plmn>>) {
    if |b| < 3 * before + (if withIei then 2 else 1) then Error(BUFFER_TOO_SHORT)
    else if withIei && b[0] != IEI then Error(UNEXPECTED_IEI)
    else
      var at := if withIei then 1 else 0;
      if |b| - (at + 1) < b[at] then Error(BUFFER_TOO_SHORT) else ReadAll(b, at + 1, [])
  }

  // ---------------------------------------------------------------- round trip

  ghost predicate StandAt(b: seq<Octet>, at: nat, ps: seq<Plmn>) {
    at + 3 * |ps| <= |b| && forall i :: 0 <= i < |ps| ==> Stands(b, at + 3 * i, ps[i])
  }

  ghost predicate Stands(b: seq<Octet>, at: nat, p: Plmn) {
    at + 3 <= |b| && b[at] == Three(p)[0] && b[at + 1] == Three(p)[1] && b[at + 2] == Three(p)[2]
  }

  lemma {:induction false} BodyStands(pre: seq<Octet>, ps: seq<Plmn>, post: seq<Octet>)
    ensures StandAt(pre + Body(ps) + post, |pre|, ps)
  {
    if ps != [] {
      var n := |ps| - 1;
      var body, three := Body(ps[..n]), Three(ps[n]);
      assert Body(ps) == body + three && |body| == 3 * n;
      hide Body, Three, StandAt, Stands;
      BodyStands(pre, ps[..n], three + post);
      Reassociate(pre, body, three, post);
      LastStands(pre + body, ps[n], post);
      OneMoreStands(pre + Body(ps) + post, |pre|, ps);
    }
  }

  lemma OneMoreStands(b: seq<Octet>, at: nat, ps: seq<Plmn>)
    requires ps != [] && StandAt(b, at, ps[..|ps| - 1]) && Stands(b, at + 3 * (|ps| - 1), ps[|ps| - 1])
    ensures StandAt(b, at, ps)
  {
    assert forall i :: 0 <= i < |ps| - 1 ==> ps[i] == ps[..|ps| - 1][i];
  }

  lemma LastStands(pre: seq<Octet>, p: Plmn, post: seq<Octet>)
    ensures Stands(pre + Three(p) + post, |pre|, p)
  {
    hide Pair;
  }

  lemma StandsReads(b: seq<Octet>, at: nat, p: Plmn)
    requires Stands(b, at, p)
    ensures Read(b, at) == p
  {
    PairParts(p.mcc2, p.mcc1);
    PairParts(p.mnc3, p.mcc3);
    PairParts(p.mnc2, p.mnc1);
    hide Pair, High, Low4;
  }

  lemma OneOf(b: seq<Octet>, at: nat, ps: seq<Plmn>, i: nat)
    requires StandAt(b, at, ps) && i < |ps|
    ensures Stands(b, at + 3 * i, ps[i])
  {
    hide Stands;
  }

  lemma {:induction false} AllRead(b: seq<Octet>, at: nat, ps: seq<Plmn>, i: nat)
    requires StandAt(b, at, ps) && at + 3 * |ps| == |b| && i <= |ps| <= MAX_PLMN
    ensures ReadAll(b, at + 3 * i, ps[..i]) == Ok(ps, |b|)
    decreases |ps| - i
  {
    hide StandAt, Stands, Read;
    if i < |ps| {
      OneOf(b, at, ps, i);
      StandsReads(b, at + 3 * i, ps[i]);
      assert ps[..i] + [ps[i]] == ps[..i + 1];
      AllRead(b, at, ps, i + 1);
    } else {
      assert ps[..i] == ps;
    }
  }

  lemma {:induction false} ReadsToEnd(b: seq<Octet>, at: nat, ps: seq<Plmn>)
    ensures ReadAll(b, at, ps).Ok? ==> ReadAll(b, at, ps).used >= |b|
    decreases |b| - at
  {
    if at < |b| && |ps| < MAX_PLMN && at + 3 <= |b| {
      ReadsToEnd(b, at + 3, ps + [Read(b, at)]);
    }
  }

  /** Decoding an encoded list gives it back from exactly its octets if and only if nothing follows
      it in the buffer and the result structure held no more PLMNs before than the list has. */
  lemma RoundTripIff(ps: seq<Plmn>, withIei: bool, before: nat, post: seq<Octet>)
    requires |ps| <= MAX_PLMN
    ensures Decode(Ie(ps, withIei) + post, withIei, before) == Ok(ps, |Ie(ps, withIei)|) <==> post == [] && before <= |ps|
  {
    var pre := (if withIei then [IEI] else []) + [3 * |ps|];
    var b := Ie(ps, withIei) + post;
    BodyStands(pre, ps, post);
    ReadsToEnd(b, |pre|, []);
    hide Body, StandAt, ReadAll;
    if post == [] {
      AllRead(b, |pre|, ps, 0);
      assert ps[..0] == [];
    }
  }

  // ---------------------------------------------------------------- the code

  /** `encode_plmn_list_ie`. */
  method Encode(ps: seq<Plmn>, withIei: bool, buffer: array<Octet>) returns (r: int)
    requires |ps| <= MAX_PLMN
    modifies buffer
    ensures r < 0 <==> buffer.Length < |Ie(ps, withIei)|
    ensures r < 0 ==> r == BUFFER_TOO_SHORT && buffer[..] == old(buffer[..])
    ensures r >= 0 ==> r == |Ie(ps, withIei)| && Written(buffer[..], old(buffer[..]), 0, Ie(ps, withIei))
  {
    hide Written, Three;
    if buffer.Length < (if withIei then 2 else 1) + 3 * |ps| {
      return BUFFER_TOO_SHORT;
    }
    ghost var b0 := buffer[..];
    var encoded: nat := 0;
    if withIei {
      PutOctet(buffer, encoded, IEI);
      encoded := encoded + 1;
    }
    ghost var b1 := buffer[..];
    var lenPtr := encoded;
    encoded := encoded + 1;
    EncodeBody(ps, buffer, encoded);
    ghost var b2 := buffer[..];
    encoded := encoded + 3 * |ps|;
    PutOctet(buffer, lenPtr, encoded - 1 - (if withIei then 1 else 0));
    ElementWritten(buffer[..], b2, b1, b0, withIei, IEI, 3 * |ps|, Body(ps));
    r := encoded;
  }

  method EncodeBody(ps: seq<Plmn>, buffer: array<Octet>, at: nat)
    requires at + 3 * |ps| <= buffer.Length
    modifies buffer
    ensures Written(buffer[..], old(buffer[..]), at, Body(ps))
  {
    ghost var b0 := buffer[..];
    var i := 0;
    assert ps[..0] == [];
    while i < |ps|
      invariant i <= |ps| && Written(buffer[..], b0, at, Body(ps[..i]))
    {
      hide Written, Three;
      ghost var b1 := buffer[..];
      CopyOctets(buffer, at + 3 * i, Three(ps[i]));
      WrittenTwice(buffer[..], b1, b0, at, Body(ps[..i]), Three(ps[i]));
      assert ps[..i + 1][..i] == ps[..i];
      i := i + 1;
    }
    assert ps[..i] == ps;
  }

  /** `decode_plmn_list_ie`, reading only inside the buffer. */
  method DecodeIe(b: seq<Octet>, withIei: bool, before: nat) returns (r: Decoded<seq<Plmn>>)
    ensures r == Decode(b, withIei, before)
  {
    hide Read;
    var decoded := 0;
    if withIei {
      if |b| < 3 * before + 2 {
        return Error(BUFFER_TOO_SHORT);
      }
      if b[0] != IEI {
        return Error(UNEXPECTED_IEI);
      }
      decoded := decoded + 1;
    } else if |b| < 3 * before + 1 {
      return Error(BUFFER_TOO_SHORT);
    }
    var ielen := b[decoded];
    decoded := decoded + 1;
    if |b| - decoded < ielen {
      return Error(BUFFER_TOO_SHORT);
    }
    var ps: seq<Plmn> := [];
    while decoded < |b|
      invariant decoded >= 0 && Decode(b, withIei, before) == ReadAll(b, decoded, ps)
    {
      if |ps| >= MAX_PLMN || decoded + 3 > |b| {
        return Overrun;
      }
      ps := ps + [Read(b, decoded)];
      decoded := decoded + 3;
    }
    return Ok(ps, decoded);
  }
}
