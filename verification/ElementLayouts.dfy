/** Information elements octet by octet: what their encoders put where, and what their decoders make of
    octets no encoder writes. */
module ElementLayouts {
  import opened Common
  import opened Octets
  import AccessPointName
  import ProtocolConfigurationOptions
  import PlmnList
  import MobileIdentity
  import TrafficFlowTemplate
  import PacketFilter
  import FilterWire

  // ---------------------------------------------------------------- access point name

  /** Identifier, length, and the labels, each behind its length and without its dot: the octet in place of
      a dot is the length of the label behind it. */
  lemma AccessPointNameLayout(name: seq<Octet>, withIei: bool, j: nat)
    requires |name| < 254 && j < |name|
    ensures var s, at := AccessPointName.Ie(name, withIei), if withIei then 2 else 1;
            && |s| == at + |name| + 1
            && (withIei ==> s[0] == 0x28)
            && s[at - 1] == |name| + 1
            && (name[j] != 46 ==> s[at + 1 + j] == name[j])
            && (name[j] == 46 ==>
                  && j + 1 + s[at + 1 + j] <= |name|
                  && (forall i :: j < i < j + 1 + s[at + 1 + j] ==> name[i] != 46)
                  && (j + 1 + s[at + 1 + j] < |name| ==> name[j + 1 + s[at + 1 + j]] == 46))
  {
    var at := if withIei then 2 else 1;
    assert AccessPointName.Labels(name)[j + 1] == AccessPointName.LabelOctet(name, j + 1);
    assert AccessPointName.Ie(name, withIei)[at + (j + 1)] == AccessPointName.Labels(name)[j + 1];
  }

  /** The length of the first label. */
  lemma FirstLabelLayout(name: seq<Octet>, withIei: bool)
    requires |name| < 254
    ensures var s, at := AccessPointName.Ie(name, withIei), if withIei then 2 else 1;
            && |s| > at && s[at] <= |name|
            && (forall i :: 0 <= i < s[at] ==> name[i] != 46)
            && (s[at] < |name| ==> name[s[at]] == 46)
  {
    var at := if withIei then 2 else 1;
    assert AccessPointName.Labels(name)[0] == AccessPointName.LabelOctet(name, 0);
    assert AccessPointName.Ie(name, withIei)[at] == AccessPointName.Labels(name)[0];
  }

  /** Labels one behind the other, each behind its length. */
  ghost predicate LabelsAt(b: seq<Octet>, at: nat, ls: seq<seq<Octet>>, end: nat)
    decreases |ls|
  {
    if ls == [] then at == end
    else
      var n := |ls[0]|;
      n < 256 && at + 1 + n <= end <= |b| && b[at] == n && b[at + 1..at + 1 + n] == ls[0] && LabelsAt(b, at + 1 + n, ls[1..], end)
  }

  /** Labels with a dot before each. */
  function Dotted(ls: seq<seq<Octet>>): (s: seq<Octet>) {
    if ls == [] then [] else [46] + ls[0] + Dotted(ls[1..])
  }

  lemma {:induction false} LabelsRead(b: seq<Octet>, at: nat, ls: seq<seq<Octet>>, end: nat, name: seq<Octet>)
    requires LabelsAt(b, at, ls, end) && at <= end < at + 256
    ensures AccessPointName.DecodeLabels(b, at, end - at, name) == Ok(Some(name + Dotted(ls)), end)
    decreases |ls|
  {
    hide AccessPointName.DecodeLabels, Dotted;
    DottedStep(ls, name);
    if ls == [] {
      AccessPointName.NoneLeft(b, at, name);
    } else {
      var n := |ls[0]|;
      LabelsEnd(b, at + 1 + n, ls[1..], end);
      AccessPointName.DecodeOne(b, at, end - at, name);
      LabelsRead(b, at + 1 + n, ls[1..], end, name + [46] + ls[0]);
    }
  }

  lemma DottedStep(ls: seq<seq<Octet>>, name: seq<Octet>)
    ensures name + Dotted(ls) == if ls == [] then name else name + [46] + ls[0] + Dotted(ls[1..])
  {
  }

  lemma {:induction false} LabelsEnd(b: seq<Octet>, at: nat, ls: seq<seq<Octet>>, end: nat)
    requires LabelsAt(b, at, ls, end)
    ensures at <= end
    decreases |ls|
  {
    if ls != [] {
      LabelsEnd(b, at + 1 + |ls[0]|, ls[1..], end);
    }
  }

  /** The decoder on any labels, with or without dots in them: it joins them with dots and takes exactly
      their octets. */
  lemma AnyLabelsRead(b: seq<Octet>, withIei: bool, ls: seq<seq<Octet>>, end: nat)
    requires var at := if withIei then 2 else 1;
             && at < |b| && (withIei ==> b[0] == 0x28)
             && ls != [] && LabelsAt(b, at, ls, end) && at + 1 < end == at + b[at - 1] && |b| >= (if withIei then 3 else 2)
    ensures AccessPointName.Decode(b, withIei) == Ok(Some(ls[0] + Dotted(ls[1..])), end)
  {
    hide AccessPointName.DecodeLabels, Dotted;
    var at := if withIei then 2 else 1;
    var n := |ls[0]|;
    LabelsEnd(b, at + 1 + n, ls[1..], end);
    LabelsRead(b, at + 1 + n, ls[1..], end, ls[0]);
  }

  // ---------------------------------------------------------------- refusals

  /** Every decoder refuses a buffer that is too short with -12, another identifier with -2, and a length that
      goes beyond the buffer with -12. A template is checked for the identifier of another element. */
  lemma Refusals(b: seq<Octet>, withIei: bool, before: nat)
    ensures |b| < (if withIei then 3 else 2) ==>
              && AccessPointName.Decode(b, withIei) == Error(-12)
              && ProtocolConfigurationOptions.DecodeIe(b, withIei) == Error(-12)
              && MobileIdentity.Decode(b, withIei) == Error(-12)
              && TrafficFlowTemplate.DecodeIe(b, |b|, withIei) == Error(-12)
    ensures |b| < (if withIei then 2 else 1) + 3 * before ==> PlmnList.Decode(b, withIei, before) == Error(-12)
    ensures withIei && |b| >= 3 ==>
              && (b[0] != 0x28 ==> AccessPointName.Decode(b, true) == Error(-2))
              && (b[0] != 0x27 ==> ProtocolConfigurationOptions.DecodeIe(b, true) == Error(-2))
              && (b[0] != 0x23 ==> MobileIdentity.Decode(b, true) == Error(-2))
              && (b[0] != 0x27 ==> TrafficFlowTemplate.DecodeIe(b, |b|, true) == Error(-2))
              && (b[0] != 0x4A && |b| >= 2 + 3 * before ==> PlmnList.Decode(b, true, before) == Error(-2))
    ensures !withIei && |b| >= 2 && |b| - 1 < b[0] ==>
              && AccessPointName.Decode(b, false) == Error(-12)
              && ProtocolConfigurationOptions.DecodeIe(b, false) == Error(-12)
              && MobileIdentity.Decode(b, false) == Error(-12)
              && TrafficFlowTemplate.DecodeIe(b, |b|, false) == Error(-12)
              && PlmnList.Decode(b, false, before) == Error(-12)
  {
  }

  // ---------------------------------------------------------------- PLMN list

  /** Identifier, length, and three octets a PLMN: MCC digits 2 and 1, MNC digit 3 and MCC digit 3, MNC digits
      2 and 1. */
  lemma {:induction false} PlmnBodyLayout(ps: seq<Plmn>, i: nat)
    requires i < |ps|
    ensures var s := PlmnList.Body(ps);
            && |s| == 3 * |ps|
            && s[3 * i] == ps[i].mcc2 * 16 + ps[i].mcc1
            && s[3 * i + 1] == ps[i].mnc3 * 16 + ps[i].mcc3
            && s[3 * i + 2] == ps[i].mnc2 * 16 + ps[i].mnc1
  {
    var n := |ps| - 1;
    if i < n {
      PlmnBodyLayout(ps[..n], i);
    }
  }

  lemma PlmnListLayout(ps: seq<Plmn>, withIei: bool, i: nat)
    requires |ps| <= 15 && i < |ps|
    ensures var s, at := PlmnList.Ie(ps, withIei), if withIei then 2 else 1;
            && |s| == at + 3 * |ps|
            && (withIei ==> s[0] == 0x4A)
            && s[at - 1] == 3 * |ps|
            && s[at + 3 * i] == ps[i].mcc2 * 16 + ps[i].mcc1
            && s[at + 3 * i + 1] == ps[i].mnc3 * 16 + ps[i].mcc3
            && s[at + 3 * i + 2] == ps[i].mnc2 * 16 + ps[i].mnc1
  {
    PlmnBodyLayout(ps, i);
    hide PlmnList.Body;
  }

  // ---------------------------------------------------------------- protocol configuration options

  /** Containers one behind the other: two octets of identifier, one of length, the contents. */
  ghost predicate ContainersAt(b: seq<Octet>, at: nat, cs: seq<ProtocolConfigurationOptions.Container>, end: nat)
    decreases |cs|
  {
    if cs == [] then at == end
    else
      var c, s := cs[0], ProtocolConfigurationOptions.Contents(cs[0]);
      && at + 3 + |s| <= |b|
      && b[at] == c.id / 256 && b[at + 1] == c.id % 256 && b[at + 2] == c.length
      && b[at + 3..at + 3 + |s|] == s
      && ContainersAt(b, at + 3 + |s|, cs[1..], end)
  }

  lemma OneContainer(b: seq<Octet>, at: nat, c: ProtocolConfigurationOptions.Container)
    ensures at + |ProtocolConfigurationOptions.One(c)| <= |b| && b[at..at + |ProtocolConfigurationOptions.One(c)|] == ProtocolConfigurationOptions.One(c) <==>
            var s := ProtocolConfigurationOptions.Contents(c);
            && at + 3 + |s| <= |b|
            && b[at] == c.id / 256 && b[at + 1] == c.id % 256 && b[at + 2] == c.length
            && b[at + 3..at + 3 + |s|] == s
  {
    var one, s := ProtocolConfigurationOptions.One(c), ProtocolConfigurationOptions.Contents(c);
    assert one == [c.id / 256, c.id % 256, c.length] + s;
    hide ProtocolConfigurationOptions.One, ProtocolConfigurationOptions.Contents;
    if at + 3 + |s| <= |b| {
      var p := b[at..at + 3 + |s|];
      assert p == [b[at], b[at + 1], b[at + 2]] + b[at + 3..at + 3 + |s|];
      if p == one {
        assert p[0] == one[0] && p[1] == one[1] && p[2] == one[2] && p[3..] == one[3..];
      }
    }
  }

  lemma {:induction false} ContainersStand(b: seq<Octet>, at: nat, cs: seq<ProtocolConfigurationOptions.Container>, end: nat)
    ensures ContainersAt(b, at, cs, end) <==> ProtocolConfigurationOptions.StandAt(b, at, cs, end)
    decreases |cs|
  {
    hide ProtocolConfigurationOptions.One, ProtocolConfigurationOptions.Contents;
    if cs != [] {
      OneContainer(b, at, cs[0]);
      OneLength(cs[0]);
      ContainersStand(b, at + |ProtocolConfigurationOptions.One(cs[0])|, cs[1..], end);
    }
  }

  lemma OneLength(c: ProtocolConfigurationOptions.Container)
    ensures |ProtocolConfigurationOptions.One(c)| == 3 + |ProtocolConfigurationOptions.Contents(c)|
  {
  }

  /** Identifier, length, an octet with the top bit and the configuration protocol, and the containers. */
  lemma PcoLayout(p: ProtocolConfigurationOptions.Pco, withIei: bool)
    ensures var s, at := ProtocolConfigurationOptions.Ie(p, withIei), if withIei then 2 else 1;
            && |s| > at
            && (withIei ==> s[0] == 0x27)
            && s[at - 1] == (|s| - at) % 256
            && s[at] == 0x80 + p.protocol
            && ContainersAt(s, at + 1, p.containers, |s|)
  {
    hide ContainersAt, ProtocolConfigurationOptions.All, ProtocolConfigurationOptions.StandAt;
    var s, at := ProtocolConfigurationOptions.Ie(p, withIei), if withIei then 2 else 1;
    var pre := (if withIei then [0x27] else []) + [Low(|ProtocolConfigurationOptions.Body(p)|)];
    assert s == pre + ProtocolConfigurationOptions.Body(p) + [];
    ProtocolConfigurationOptions.BodyStands(pre, p, []);
    ContainersStand(s, at + 1, p.containers, |s|);
  }

  /** The decoder on any first octet: the top bit must be set and the four bits below it clear, the protocol
      is in the three bits above the lowest. */
  lemma PcoFirstOctet(b: seq<Octet>, at: nat, cs: seq<ProtocolConfigurationOptions.Container>, end: nat)
    requires at < |b| && ContainersAt(b, at + 1, cs, end) && ProtocolConfigurationOptions.AllCanonical(cs) && |cs| <= 8 && |b| - end < 3
    ensures ProtocolConfigurationOptions.DecodeAt(b, at) ==
            if 0x80 <= b[at] < 0x88 then Ok(ProtocolConfigurationOptions.Pco((b[at] - 0x80) / 2, cs), end) else Error(-4)
  {
    hide ContainersAt, ProtocolConfigurationOptions.DecodeContainers, ProtocolConfigurationOptions.AllCanonical, ProtocolConfigurationOptions.StandAt;
    ContainersStand(b, at + 1, cs, end);
    ProtocolConfigurationOptions.ContainersDecode(b, at + 1, [], cs, end);
    assert [] + cs == cs;
    FirstOctetBits(b[at]);
  }

  lemma FirstOctetBits(o: Octet)
    ensures ProtocolConfigurationOptions.FirstOctetOk(o) <==> 0x80 <= o < 0x88
    ensures 0x80 <= o < 0x88 ==> ProtocolConfigurationOptions.ProtocolOf(o) == (o - 0x80) / 2
  {
  }

  // ---------------------------------------------------------------- mobile identity

  /** Identifier and length of a mobile identity; only a missing one announces another length. */
  lemma MobileIdentityHead(x: MobileIdentity.Identity, withIei: bool)
    ensures var s, at := MobileIdentity.Ie(x, withIei), if withIei then 2 else 1;
            && |s| > at
            && (withIei ==> s[0] == 0x23)
            && s[at - 1] == (if x.NoIdentity? then 3 else |s| - at)
            && s[at..] == MobileIdentity.Body(x)
  {
    MobileIdentity.BodyLength(x);
    hide MobileIdentity.Body;
  }

  /** An IMEI: its first digit beside the odd bit and type 2, then two digits to the octet, the earlier one
      below; an even indication puts 0xF in place of the last digit. */
  lemma ImeiLayout(odd: bool, d: MobileIdentity.Digits15)
    ensures MobileIdentity.Body(MobileIdentity.Imei(odd, d)) ==
            [d.d1 * 16 + (if odd then 10 else 2), d.d3 * 16 + d.d2, d.d5 * 16 + d.d4, d.d7 * 16 + d.d6, d.d9 * 16 + d.d8,
             d.d11 * 16 + d.d10, d.d13 * 16 + d.d12, (if odd then d.d15 else 0xF) * 16 + d.d14]
  {
  }

  /** An IMEISV, type 3. When the indication is odd and the last half octet is 0, the last octet is the
      second digit of the version number. */
  lemma ImeisvLayout(odd: bool, d: MobileIdentity.Digits17)
    requires odd ==> d.d17 == 0
    ensures MobileIdentity.Body(MobileIdentity.Imeisv(odd, d)) ==
            [d.d1 * 16 + (if odd then 11 else 3), d.d3 * 16 + d.d2, d.d5 * 16 + d.d4, d.d7 * 16 + d.d6, d.d9 * 16 + d.d8,
             d.d11 * 16 + d.d10, d.d13 * 16 + d.d12, d.d15 * 16 + d.d14, (if odd then 0 else 0xF0) + d.d16]
  {
    MobileIdentity.OrOfNibbles(0, d.d16);
  }

  /** An IMSI with all its digits, type 1. An even indication puts 0xF in place of digits 7, 9, 11, 13 and 15. */
  lemma ImsiLayout(odd: bool, d: MobileIdentity.Digits15)
    requires d.d4 != 0xF && d.d6 != 0xF && d.d8 != 0xF && d.d10 != 0xF && d.d12 != 0xF && d.d14 != 0xF
    ensures MobileIdentity.Body(MobileIdentity.Imsi(odd, d)) ==
            [d.d1 * 16 + (if odd then 9 else 1), d.d3 * 16 + d.d2, d.d5 * 16 + d.d4, (if odd then d.d7 else 0xF) * 16 + d.d6,
             (if odd then d.d9 else 0xF) * 16 + d.d8, (if odd then d.d11 else 0xF) * 16 + d.d10,
             (if odd then d.d13 else 0xF) * 16 + d.d12, (if odd then d.d15 else 0xF) * 16 + d.d14]
  {
  }

  /** An IMSI ends before the first of the digits 6, 8, 10, 12 and 14 that is missing. */
  lemma ImsiEnds(odd: bool, d: MobileIdentity.Digits15)
    ensures |MobileIdentity.Body(MobileIdentity.Imsi(odd, d))| ==
            if d.d6 == 0xF then 3 else if d.d8 == 0xF then 4 else if d.d10 == 0xF then 5
            else if d.d12 == 0xF then 6 else if d.d14 == 0xF then 7 else 8
  {
    hide MobileIdentity.ImsiPair, PlmnList.Pair;
  }

  /** A TMSI, type 4, behind 0xF; a missing identity is one octet of 0; a TMGI, type 5, has three octets of
      service identity, the PLMN and the session. */
  lemma OtherLayouts(x: MobileIdentity.Identity)
    ensures x.Tmsi? ==> MobileIdentity.Body(x) == [0xF0 + (if x.odd then 12 else 4), x.t0, x.t1, x.t2, x.t3]
    ensures x.NoIdentity? ==> MobileIdentity.Body(x) == [0]
    ensures x.Tmgi? ==>
              MobileIdentity.Body(x) ==
              [(if x.sessionIndication then 32 else 0) + (if x.plmnIndication then 16 else 0) + (if x.odd then 13 else 5),
               x.service / 0x100_0000, (x.service / 0x1_0000) % 256, (x.service / 256) % 256,
               x.plmn.mcc2 * 16 + x.plmn.mcc1, x.plmn.mnc3 * 16 + x.plmn.mcc3, x.plmn.mnc2 * 16 + x.plmn.mnc1, x.session]
  {
    if x.Tmgi? {
      var n := x.service;
      assert n / 0x1_0000 / 256 == n / 0x100_0000;
      assert n % 0x1_0000 / 256 == (n / 256) % 256;
    }
  }

  /** The decoder of a TMGI, on nine octets or more: no encoder writes them, so this is all there is to say
      about it. */
  lemma TmgiRead(b: seq<Octet>)
    requires |b| >= 9
    ensures MobileIdentity.DecodeBody(b, 5) ==
            if b[0] >= 128 then Error(-4)
            else Ok(MobileIdentity.Tmgi((b[0] / 8) % 2 == 1, (b[0] / 32) % 2 == 1, (b[0] / 16) % 2 == 1,
                                        b[1] as nat * 0x1_0000 + b[2] as nat * 256 + b[3] as nat,
                                        Plmn(b[4] % 16, b[4] / 16, b[5] % 16, b[6] % 16, b[6] / 16, b[5] / 16), b[7]), 8)
  {
    var s := [0] + b[1..4];
    assert s[..2] == [0, b[1]] && s[2..] == [b[2], b[3]];
  }

  /** The type in the three low bits decides; 6 and 7 are refused. */
  lemma TypesOfIdentity(b: seq<Octet>, withIei: bool)
    requires MobileIdentity.Decode(b, withIei).Ok?
    ensures var at, x := if withIei then 2 else 1, MobileIdentity.Decode(b, withIei).value;
            && at < |b|
            && b[at] % 8 == (match x case NoIdentity(_) => 0 case Imsi(_, _) => 1 case Imei(_, _) => 2 case Imeisv(_, _) => 3
                             case Tmsi(_, _, _, _, _, _) => 4 case Tmgi(_, _, _, _, _, _) => 5)
            && x.odd == ((b[at] / 8) % 2 == 1)
  {
    hide MobileIdentity.Digits8, MobileIdentity.Digits9, MobileIdentity.EndMarks, FromU32;
  }

  // ---------------------------------------------------------------- traffic flow template

  /** Filters one behind the other. */
  ghost predicate FiltersAt(b: seq<Octet>, at: nat, fs: seq<PacketFilter.Filter>, i: nat, end: nat)
    requires i <= |fs|
    decreases |fs| - i
  {
    if i == |fs| then at == end
    else
      exists ks: seq<PacketFilter.Component>, next: nat ::
        FilterWire.FilterAt(b, at, fs[i], ks, next) && FiltersAt(b, next, fs, i + 1, end)
  }

  lemma {:induction false} FiltersKeepBefore(b: seq<Octet>, at: nat, fs: seq<PacketFilter.Filter>, i: nat, j: nat)
    requires i <= |fs| && TrafficFlowTemplate.FiltersEnd(at, fs, i) < |b| && j < at
    ensures TrafficFlowTemplate.PutFilters(b, at, fs, i)[j] == b[j]
    decreases |fs| - i
  {
    hide PacketFilter.Put, PacketFilter.End;
    if i < |fs| {
      TrafficFlowTemplate.PutLeaves(b, at, fs[i], j);
      FiltersKeepBefore(PacketFilter.Put(b, at, fs[i]), TrafficFlowTemplate.FilterEnd(at, fs[i]), fs, i + 1, j);
    }
  }

  lemma {:induction false} FiltersLaid(b: seq<Octet>, at: nat, fs: seq<PacketFilter.Filter>, i: nat)
    requires i <= |fs| && TrafficFlowTemplate.FiltersEnd(at, fs, i) < |b|
    ensures FiltersAt(TrafficFlowTemplate.PutFilters(b, at, fs, i), at, fs, i, TrafficFlowTemplate.FiltersEnd(at, fs, i))
    decreases |fs| - i
  {
    if i < |fs| {
      hide PacketFilter.Put, PacketFilter.End, FilterWire.FilterAt;
      var next := TrafficFlowTemplate.FilterEnd(at, fs[i]);
      var b1 := PacketFilter.Put(b, at, fs[i]);
      var b' := TrafficFlowTemplate.PutFilters(b1, next, fs, i + 1);
      var ks := FilterWire.FilterOnWire(b, at, fs[i]);
      forall j | at <= j < next && j < |b| ensures b1[j] == b'[j] {
        FiltersKeepBefore(b1, next, fs, i + 1, j);
      }
      FilterWire.FilterPrefix(b1, b', at, fs[i], ks, next);
      FiltersLaid(b1, next, fs, i + 1);
    }
  }

  lemma TftBody(b: seq<Octet>, at: nat, t: TrafficFlowTemplate.Tft)
    requires TrafficFlowTemplate.TftOk(t) && TrafficFlowTemplate.TftEnd(at, t) < |b|
    ensures var s, end := TrafficFlowTemplate.PutTft(b, at, t), TrafficFlowTemplate.TftEnd(at, t);
            && s[at] == t.opcode * 32 + t.ebit * 16 + t.number
            && (forall j :: 0 <= j < at ==> s[j] == b[j])
            && (t.opcode == 5 ==> end == at + 1 + t.number && s[at + 1..at + 1 + t.number] == t.ids)
            && (t.opcode != 5 ==> FiltersAt(s, at + 1, t.filters, 0, end))
  {
    hide FiltersAt, PacketFilter.End, PacketFilter.Put, TrafficFlowTemplate.PutFilters, TrafficFlowTemplate.FiltersEnd;
    if t.opcode != 5 {
      var head := TrafficFlowTemplate.Head(t);
      FiltersLaid(b[at := head], at + 1, t.filters, 0);
      forall j | 0 <= j <= at ensures TrafficFlowTemplate.PutTft(b, at, t)[j] == b[at := head][j] {
        FiltersKeepBefore(b[at := head], at + 1, t.filters, 0, j);
      }
    }
  }

  lemma FirstFilter(b: seq<Octet>, at: nat, fs: seq<PacketFilter.Filter>, i: nat, end: nat)
    returns (ks: seq<PacketFilter.Component>, next: nat)
    requires i < |fs| && FiltersAt(b, at, fs, i, end)
    ensures FilterWire.FilterAt(b, at, fs[i], ks, next) && FiltersAt(b, next, fs, i + 1, end)
  {
    hide FilterWire.FilterAt;
    ks, next :| FilterWire.FilterAt(b, at, fs[i], ks, next) && FiltersAt(b, next, fs, i + 1, end);
  }

  lemma OneMoreFilter(b: seq<Octet>, at: nat, fs: seq<PacketFilter.Filter>, i: nat, ks: seq<PacketFilter.Component>, next: nat, end: nat)
    requires i < |fs| && FilterWire.FilterAt(b, at, fs[i], ks, next) && FiltersAt(b, next, fs, i + 1, end)
    ensures FiltersAt(b, at, fs, i, end)
  {
    hide FilterWire.FilterAt;
  }

  lemma NoMoreFilters(b: seq<Octet>, b': seq<Octet>, at: nat, fs: seq<PacketFilter.Filter>, end: nat)
    ensures FiltersAt(b, at, fs, |fs|, end) <==> FiltersAt(b', at, fs, |fs|, end)
  {
  }

  lemma {:induction false} FiltersFrame(b: seq<Octet>, b': seq<Octet>, at: nat, fs: seq<PacketFilter.Filter>, i: nat, end: nat)
    requires i <= |fs| && FiltersAt(b, at, fs, i, end) && |b| == |b'| && forall j :: at <= j < |b| ==> b[j] == b'[j]
    ensures FiltersAt(b', at, fs, i, end)
    decreases |fs| - i
  {
    hide FilterWire.FilterAt, FiltersAt;
    if i == |fs| {
      NoMoreFilters(b, b', at, fs, end);
    } else {
      var ks, next := FirstFilter(b, at, fs, i, end);
      FilterWire.FilterPrefix(b, b', at, fs[i], ks, next);
      AfterFilter(b, at, fs[i], ks, next);
      FiltersFrame(b, b', next, fs, i + 1, end);
      OneMoreFilter(b', at, fs, i, ks, next, end);
    }
  }

  lemma AfterFilter(b: seq<Octet>, at: nat, f: PacketFilter.Filter, ks: seq<PacketFilter.Component>, end: nat)
    requires FilterWire.FilterAt(b, at, f, ks, end)
    ensures at < end
  {
  }

  /** Identifier, length, an octet with operation, E bit and number, and behind it the identifiers of the
      filters to delete, or the filters. */
  lemma TftLayout(b: seq<Octet>, t: TrafficFlowTemplate.Tft, withIei: bool)
    requires TrafficFlowTemplate.TftOk(t)
    requires TrafficFlowTemplate.TftEnd(TrafficFlowTemplate.IeStart(withIei), t) < |b|
    ensures var s, at := TrafficFlowTemplate.PutIe(b, t, withIei), if withIei then 2 else 1;
            var end := TrafficFlowTemplate.TftEnd(at, t);
            && |s| == |b|
            && (withIei ==> s[0] == 0x36)
            && s[at - 1] == (end - at) % 256
            && s[at] == t.opcode * 32 + t.ebit * 16 + t.number
            && (t.opcode == 5 ==> end == at + 1 + t.number && s[at + 1..at + 1 + t.number] == t.ids)
            && (t.opcode != 5 ==> FiltersAt(s, at + 1, t.filters, 0, end))
  {
    hide FiltersAt, TrafficFlowTemplate.PutTft, TrafficFlowTemplate.TftEnd;
    var at, b0 := if withIei then 2 else 1, if withIei then b[0 := 0x36] else b;
    TftBody(b0, at, t);
    var s := TrafficFlowTemplate.PutTft(b0, at, t);
    if t.opcode != 5 {
      FiltersFrame(s, TrafficFlowTemplate.PutIe(b, t, withIei), at + 1, t.filters, 0, TrafficFlowTemplate.TftEnd(at, t));
    }
  }

  /** Which operations carry filters, and what the decoder takes from the first octet. */
  lemma TftFirstOctet(b: seq<Octet>, at: nat, end: nat)
    requires at < |b| && TrafficFlowTemplate.DecodeTft(b, at, end).Ok?
    ensures var t := TrafficFlowTemplate.DecodeTft(b, at, end).value;
            && t.opcode == b[at] / 32 && t.ebit == (b[at] / 16) % 2 && t.number == b[at] % 16
            && (t.opcode in [0, 2, 6, 7] ==> t.filters == [] && t.ids == [])
            && (t.opcode in [1, 3, 4] ==> t.ids == [])
            && (t.opcode == 5 ==> t.filters == [] && |t.ids| == t.number && t.ids == b[at + 1..at + 1 + t.number])
  {
    hide TrafficFlowTemplate.ReadFilters;
  }
}
