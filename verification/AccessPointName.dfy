/** The access point name of 3GPP TS 24.008 section 10.5.6.1: a dotted name travels as a sequence
    of labels, each behind its length. */
module AccessPointName {
  import opened Common
  import opened Octets

  const IEI: Octet := 0x28
  const IE_MIN_LENGTH: nat := 3
  const IE_MAX_LENGTH: nat := 102
  const DOT: Octet := 46
  const NUL: Octet := 0

  type Name = seq<Octet>

  // ---------------------------------------------------------------- what is encoded

  /** The encoder stops at the first NUL. */
  function UpToNul(name: Name): (p: Name)
    ensures |p| <= |name| && p == name[..|p|] && (forall i :: 0 <= i < |p| ==> name[i] != NUL)
    ensures |p| < |name| ==> name[|p|] == NUL
  {
    if name == [] || name[0] == NUL then [] else [name[0]] + UpToNul(name[1..])
  }

  /** Where the first dot at or after i is, or the length of the name. */
  function NextDot(s: Name, i: nat): (k: nat)
    requires i <= |s|
    ensures i <= k <= |s| && (k < |s| ==> s[k] == DOT) && forall j :: i <= j < k ==> s[j] != DOT
    decreases |s| - i
  {
    if i == |s| || s[i] == DOT then i else NextDot(s, i + 1)
  }

  lemma NextDotIs(s: Name, i: nat, k: nat)
    requires i <= k <= |s| && (k < |s| ==> s[k] == DOT) && forall j :: i <= j < k ==> s[j] != DOT
    ensures NextDot(s, i) == k
  {
  }

  /** The octet at place j of the labels of a name: the length of the label that starts there, or the
      octet of the name before it. */
  function LabelOctet(s: Name, j: nat): (o: Octet)
    requires j <= |s| < 255
  {
    if j == 0 || s[j - 1] == DOT then NextDot(s, j) - j else s[j - 1]
  }

  /** The labels of a name, each behind its length. */
  function Labels(s: Name): (b: seq<Octet>)
    requires |s| < 255
    ensures |b| == |s| + 1
  {
    seq(|s| + 1, j requires 0 <= j <= |s| => LabelOctet(s, j))
  }

  function Ie(name: Name, withIei: bool): (b: seq<Octet>)
    requires |name| < 254
  {
    (if withIei then [IEI] else []) + [|name| + 1] + Labels(name)
  }

  // ---------------------------------------------------------------- decoding

  /** The labels after the first one; `ielen` octets are left. */
  function DecodeLabels(b: seq<Octet>, at: nat, ielen: Octet, name: Name): (r: Decoded<Option<Name>>)
    decreases ielen
  {
    if ielen == 0 then Ok(Some(name), at)
    else if at >= |b| then Overrun
    else
      var k := b[at];
      if k == 0 then DecodeLabels(b, at + 1, ielen - 1, name + [DOT])
      else if ielen - 1 < k then Abort
      else if at + 1 + k > |b| then Overrun
      else DecodeLabels(b, at + 1 + k, ielen - 1 - k, name + [DOT] + b[at + 1..at + 1 + k])
  }

  /** The length that is left after the first label, in an 8-bit variable. */
  function LeftAfter(ielen: Octet, k: Octet): (left: Octet) {
    if k < ielen then ielen - 1 - k else ielen + 255 - k
  }

  function DecodeBody(b: seq<Octet>, at: nat, ielen: Octet): (r: Decoded<Option<Name>>)
  {
    if ielen <= 1 then Ok(None, at)
    else if at >= |b| || at + 1 + b[at] > |b| then Overrun
    else DecodeLabels(b, at + 1 + b[at], LeftAfter(ielen, b[at]), b[at + 1..at + 1 + b[at]])
  }

  function Decode(b: seq<Octet>, withIei: bool): (r: Decoded<Option<Name>>)
  {
    if |b| < (if withIei then IE_MIN_LENGTH else IE_MIN_LENGTH - 1) then Error(BUFFER_TOO_SHORT)
    else if withIei && b[0] != IEI then Error(UNEXPECTED_IEI)
    else
      var at := if withIei then 1 else 0;
      if |b| - (at + 1) < b[at] then Error(BUFFER_TOO_SHORT)
      else DecodeBody(b, at + 1, b[at])
  }

  // ---------------------------------------------------------------- round trip

  /** The labels of the name stand in the buffer at `at`. */
  ghost predicate StandAt(b: seq<Octet>, at: nat, s: Name) {
    |s| < 254 && at + |s| + 1 <= |b| && forall j :: 0 <= j <= |s| ==> b[at + j] == LabelOctet(s, j)
  }

  /** The label that starts at place i of a name, found in the buffer. */
  lemma LabelStands(b: seq<Octet>, at: nat, s: Name, i: nat)
    requires StandAt(b, at, s) && i <= |s| && (i == 0 || s[i - 1] == DOT)
    ensures var k := NextDot(s, i);
            b[at + i] == k - i && b[at + i + 1..at + k + 1] == s[i..k]
  {
    var k := NextDot(s, i);
    assert b[at + i] == LabelOctet(s, i);
    forall j | i <= j < k ensures b[at + j + 1] == s[j] {
      assert b[at + (j + 1)] == LabelOctet(s, j + 1);
    }
    hide NextDot, LabelOctet;
    var l := b[at + i + 1..at + k + 1];
    forall j | 0 <= j < k - i ensures l[j] == s[i..k][j] {
      assert l[j] == b[at + (i + j) + 1];
    }
  }

  /** Once the name is known up to a dot, the decoder finds the rest. */
  lemma {:induction false} LabelsDecode(b: seq<Octet>, at: nat, s: Name, i: nat)
    requires StandAt(b, at, s) && 0 < i <= |s| && s[i - 1] == DOT
    ensures DecodeLabels(b, at + i, |s| - i + 1, s[..i - 1]) == Ok(Some(s), at + |s| + 1)
    decreases |s| - i
  {
    var k := NextDot(s, i);
    LabelStands(b, at, s, i);
    NameGrows(s, i, k);
    DecodeOne(b, at + i, |s| - i + 1, s[..i - 1]);
    hide DecodeLabels;
    if k < |s| {
      LabelsDecode(b, at, s, k + 1);
    } else {
      NoneLeft(b, at + |s| + 1, s);
      assert s[..k] == s;
    }
  }

  lemma NameGrows(s: Name, i: nat, k: nat)
    requires 0 < i <= k <= |s| && s[i - 1] == DOT
    ensures s[..i - 1] + [DOT] + s[i..k] == s[..k]
  {
  }

  lemma NoneLeft(b: seq<Octet>, at: nat, name: Name)
    ensures DecodeLabels(b, at, 0, name) == Ok(Some(name), at)
  {
  }

  lemma DecodeOne(b: seq<Octet>, at: nat, ielen: Octet, name: Name)
    requires at < |b| && at + 1 + b[at] <= |b| && 0 < ielen && b[at] < ielen
    ensures DecodeLabels(b, at, ielen, name) ==
            DecodeLabels(b, at + 1 + b[at], ielen - 1 - b[at], name + [DOT] + b[at + 1..at + 1 + b[at]])
  {
    assert b[at] == 0 ==> name + [DOT] + b[at + 1..at + 1 + b[at]] == name + [DOT];
  }

  /** The remaining length never wraps: no label is longer than what is left. */
  lemma NeverWraps(s: Name)
    requires s != [] && |s| < 254
    ensures Labels(s)[0] <= |s| && LeftAfter(|s| + 1, Labels(s)[0]) == |s| - Labels(s)[0]
  {
    assert Labels(s)[0] == LabelOctet(s, 0);
  }

  lemma BodyDecodes(b: seq<Octet>, at: nat, s: Name)
    requires s != [] && StandAt(b, at, s)
    ensures DecodeBody(b, at, |s| + 1) == Ok(Some(s), at + |s| + 1)
  {
    LabelStands(b, at, s, 0);
    var k := NextDot(s, 0);
    hide DecodeLabels;
    assert s[0..k] == s[..k];
    assert DecodeBody(b, at, |s| + 1) == DecodeLabels(b, at + 1 + k, |s| - k, s[..k]);
    if k < |s| {
      LabelsDecode(b, at, s, k + 1);
    } else {
      NoneLeft(b, at + 1 + k, s);
      assert s[..k] == s;
    }
  }

  lemma LabelsStand(pre: seq<Octet>, s: Name, post: seq<Octet>)
    requires |s| < 254
    ensures StandAt(pre + Labels(s) + post, |pre|, s)
  {
    hide LabelOctet;
    forall j | 0 <= j <= |s| ensures (pre + Labels(s) + post)[|pre| + j] == LabelOctet(s, j) {
      assert (pre + Labels(s) + post)[|pre| + j] == Labels(s)[j];
    }
  }

  /** Decoding what was encoded gives the name back and takes exactly the octets produced, whatever
      follows in the buffer. The empty name decodes to none, and its empty label is left unread. */
  lemma RoundTrip(name: Name, withIei: bool, post: seq<Octet>)
    requires |name| < 254
    ensures Decode(Ie(name, withIei) + post, withIei) ==
            if name == [] then Ok(None, |Ie(name, withIei)| - 1) else Ok(Some(name), |Ie(name, withIei)|)
  {
    var pre := (if withIei then [IEI] else []) + [|name| + 1];
    LabelsStand(pre, name, post);
    hide Labels, StandAt;
    if name != [] {
      BodyDecodes(Ie(name, withIei) + post, |pre|, name);
      hide DecodeBody;
    }
  }

  // ---------------------------------------------------------------- the code

  /** `encode_access_point_name_ie`. The labels are collected in an array of 102 octets; the length
      of a label is patched in when its end is known. */
  method Encode(name: Name, withIei: bool, buffer: array<Octet>) returns (r: int)
    requires |UpToNul(name)| < IE_MAX_LENGTH
    modifies buffer
    ensures r < 0 <==> buffer.Length < (if withIei then IE_MAX_LENGTH else IE_MIN_LENGTH - 1)
                       || buffer.Length < |Ie(UpToNul(name), withIei)|
    ensures r < 0 ==> r == BUFFER_TOO_SHORT
    ensures r >= 0 ==> r == |Ie(UpToNul(name), withIei)| && Written(buffer[..], old(buffer[..]), 0, Ie(UpToNul(name), withIei))
  {
    hide UpToNul, Labels, Written;
    ghost var p, b0 := UpToNul(name), buffer[..];
    var encoded: nat := 0;
    if withIei {
      if buffer.Length < IE_MAX_LENGTH {
        return BUFFER_TOO_SHORT;
      }
      PutOctet(buffer, encoded, IEI);
      encoded := encoded + 1;
    } else if buffer.Length < IE_MIN_LENGTH - 1 {
      return BUFFER_TOO_SHORT;
    }
    ghost var b1 := buffer[..];
    var lenPtr := encoded;
    encoded := encoded + 1;
    var apn, indexCopy := CollectLabels(name);
    if buffer.Length - encoded < indexCopy {
      return BUFFER_TOO_SHORT;
    }
    CopyOctets(buffer, encoded, apn[..indexCopy]);
    ghost var b2 := buffer[..];
    encoded := encoded + indexCopy;
    PutOctet(buffer, lenPtr, encoded - 1 - (if withIei then 1 else 0));
    ElementWritten(buffer[..], b2, b1, b0, withIei, IEI, |p| + 1, Labels(p));
    r := encoded;
  }

  method CollectLabels(name: Name) returns (apn: array<Octet>, indexCopy: nat)
    requires |UpToNul(name)| < IE_MAX_LENGTH
    ensures fresh(apn) && indexCopy == |UpToNul(name)| + 1 <= apn.Length && apn[..indexCopy] == Labels(UpToNul(name))
  {
    apn := new Octet[IE_MAX_LENGTH](_ => 0);
    var index, lengthIndex := 0, 0;
    indexCopy := 1;
    ghost var p := UpToNul(name);
    while index < |name| && name[index] != NUL
      invariant lengthIndex <= index <= |p| && indexCopy == index + 1
      invariant lengthIndex == 0 || p[lengthIndex - 1] == DOT
      invariant forall j :: lengthIndex <= j < index ==> p[j] != DOT
      invariant forall j :: 0 <= j <= index && j != lengthIndex ==> apn[j] == LabelOctet(p, j)
    {
      assert p[index] == name[index];
      if name[index] == DOT {
        NextDotIs(p, lengthIndex, index);
        apn[lengthIndex] := indexCopy - lengthIndex - 1;
        lengthIndex := indexCopy;
        indexCopy := lengthIndex + 1;
      } else {
        apn[indexCopy] := name[index];
        indexCopy := indexCopy + 1;
      }
      index := index + 1;
    }
    NextDotIs(p, lengthIndex, index);
    apn[lengthIndex] := indexCopy - lengthIndex - 1;
  }

  /** `decode_access_point_name_ie`, reading only inside the buffer. */
  method DecodeIe(b: seq<Octet>, withIei: bool) returns (r: Decoded<Option<Name>>)
    ensures r == Decode(b, withIei)
  {
    var decoded: nat := 0;
    if withIei {
      if |b| < IE_MIN_LENGTH {
        return Error(BUFFER_TOO_SHORT);
      }
      if b[0] != IEI {
        return Error(UNEXPECTED_IEI);
      }
      decoded := decoded + 1;
    } else if |b| < IE_MIN_LENGTH - 1 {
      return Error(BUFFER_TOO_SHORT);
    }
    var ielen := b[decoded];
    decoded := decoded + 1;
    if |b| - decoded < ielen {
      return Error(BUFFER_TOO_SHORT);
    }
    if !(1 < ielen) {
      return Ok(None, decoded);
    }
    if decoded >= |b| || decoded + 1 + b[decoded] > |b| {
      return Overrun;
    }
    var lengthApn := b[decoded];
    decoded := decoded + 1;
    var name := b[decoded..decoded + lengthApn];
    decoded := decoded + lengthApn;
    ielen := LeftAfter(ielen, lengthApn);
    while 1 <= ielen
      invariant Decode(b, withIei) == DecodeLabels(b, decoded, ielen, name)
      decreases ielen
    {
      name := name + [DOT];
      if decoded >= |b| {
        return Overrun;
      }
      lengthApn := b[decoded];
      decoded := decoded + 1;
      ielen := ielen - 1;
      if lengthApn > 0 {
        if !(ielen >= lengthApn) {
          return Abort;
        }
        if decoded + lengthApn > |b| {
          return Overrun;
        }
        name := name + b[decoded..decoded + lengthApn];
        decoded := decoded + lengthApn;
        ielen := ielen - lengthApn;
      }
    }
    return Ok(Some(name), decoded);
  }

  /** Encoding a name into a buffer and decoding that buffer gives the name back, and as many octets
      are read as were written, if and only if the name is not empty and has no NUL. */
  lemma RoundTripIff(name: Name, withIei: bool, post: seq<Octet>)
    requires |UpToNul(name)| < IE_MAX_LENGTH
    ensures var b := Ie(UpToNul(name), withIei);
            Decode(b + post, withIei) == Ok(Some(name), |b|) <==> name != [] && NUL !in name
  {
    var p := UpToNul(name);
    assert p == name <==> NUL !in name by {
      hide *;
      if p != name {
        assert name[|p|] in name;
      }
    }
    RoundTrip(p, withIei, post);
    hide *;
  }
}
