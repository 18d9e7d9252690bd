/** The list of tracking areas an MME serves: how the configuration sorts it and picks the type of
    the TAI list it sends to UEs (3GPP TS 24.301 section 9.9.3.33). */
module ServedTai {
  import opened Common

  datatype Tai = Tai(mcc: nat, mnc: nat, tac: nat)

  datatype ListType = NonConsecutiveTacs | ConsecutiveTacs | ManyPlmns

  // ---------------------------------------------------------------- order

  predicate Less(a: Tai, b: Tai) {
    a.mcc < b.mcc || (a.mcc == b.mcc && (a.mnc < b.mnc || (a.mnc == b.mnc && a.tac < b.tac)))
  }

  ghost predicate Sorted(s: seq<Tai>) {
    SortedFrom(s, 0)
  }

  /** No element at or after n is smaller than one before it. */
  ghost predicate SortedFrom(s: seq<Tai>, n: nat) {
    SortedBetween(s, n, |s|)
  }

  ghost predicate SortedBetween(s: seq<Tai>, from: nat, to: nat)
    requires to <= |s|
  {
    forall j, k :: 0 <= j < k && from <= k < to ==> !Less(s[k], s[j])
  }

  function Swapped(s: seq<Tai>, i: nat): (t: seq<Tai>)
    requires 0 < i < |s|
  {
    s[i - 1 := s[i]][i := s[i - 1]]
  }

  lemma SwapPermutes(s: seq<Tai>, i: nat)
    requires 0 < i < |s|
    ensures multiset(Swapped(s, i)) == multiset(s)
  {
    assert s == s[..i - 1] + [s[i - 1], s[i]] + s[i + 1..];
    assert Swapped(s, i) == s[..i - 1] + [s[i], s[i - 1]] + s[i + 1..];
  }

  // ---------------------------------------------------------------- classification

  predicate SamePlmn(a: Tai, b: Tai) { a.mcc == b.mcc && a.mnc == b.mnc }

  ghost predicate OnePlmn(s: seq<Tai>) {
    forall i :: 0 <= i < |s| ==> SamePlmn(s[i], s[0])
  }

  ghost predicate CountsUp(s: seq<Tai>) {
    forall i :: 0 <= i < |s| ==> s[i].tac == s[0].tac + i
  }

  /** What the list type says about the list. */
  ghost function TypeOf(s: seq<Tai>): ListType {
    if !OnePlmn(s) then ManyPlmns else if CountsUp(s) then ConsecutiveTacs else NonConsecutiveTacs
  }

  // ---------------------------------------------------------------- the list

  /** `served_tai` of the configuration: parallel arrays, one element per tracking area. */
  class TaiList {
    const nbTai: nat
    const plmnMcc: array<nat>
    const plmnMnc: array<nat>
    const plmnMncLen: array<nat>
    const tac: array<nat>
    var listType: ListType

    ghost predicate Valid() {
      && plmnMcc.Length == plmnMnc.Length == plmnMncLen.Length == tac.Length == nbTai
      && plmnMcc != plmnMnc && plmnMcc != tac && plmnMnc != tac
      && plmnMncLen != plmnMcc && plmnMncLen != plmnMnc && plmnMncLen != tac
    }

    ghost function Entries(): (s: seq<Tai>)
      requires Valid()
      reads plmnMcc, plmnMnc, tac
      ensures |s| == nbTai
    {
      seq(nbTai, i requires 0 <= i < nbTai reads plmnMcc, plmnMnc, tac => Tai(plmnMcc[i], plmnMnc[i], tac[i]))
    }

    constructor (mccs: seq<nat>, mncs: seq<nat>, mncLens: seq<nat>, tacs: seq<nat>)
      requires |mccs| == |mncs| == |mncLens| == |tacs|
      ensures Valid() && nbTai == |mccs| && plmnMncLen[..] == mncLens
      ensures forall i :: 0 <= i < nbTai ==> Entries()[i] == Tai(mccs[i], mncs[i], tacs[i])
    {
      nbTai := |mccs|;
      plmnMcc := new nat[|mccs|](i requires 0 <= i < |mccs| => mccs[i]);
      plmnMnc := new nat[|mccs|](i requires 0 <= i < |mncs| => mncs[i]);
      plmnMncLen := new nat[|mccs|](i requires 0 <= i < |mncLens| => mncLens[i]);
      tac := new nat[|mccs|](i requires 0 <= i < |tacs| => tacs[i]);
      listType := ConsecutiveTacs;
    }

    method Swap(i: nat)
      requires Valid() && 0 < i < nbTai
      modifies plmnMcc, plmnMnc, tac
      ensures Entries() == Swapped(old(Entries()), i)
    {
      var swap16 := plmnMcc[i - 1];
      plmnMcc[i - 1] := plmnMcc[i];
      plmnMcc[i] := swap16;

      swap16 := plmnMnc[i - 1];
      plmnMnc[i - 1] := plmnMnc[i];
      plmnMnc[i] := swap16;

      swap16 := tac[i - 1];
      tac[i - 1] := tac[i];
      tac[i] := swap16;
    }

    method OutOfOrder(i: nat) returns (swap: bool)
      requires Valid() && 0 < i < nbTai
      ensures swap == Less(Entries()[i], Entries()[i - 1])
    {
      swap := false;
      if plmnMcc[i - 1] > plmnMcc[i] {
        swap := true;
      } else if plmnMcc[i - 1] == plmnMcc[i] {
        if plmnMnc[i - 1] > plmnMnc[i] {
          swap := true;
        } else if plmnMnc[i - 1] == plmnMnc[i] {
          if tac[i - 1] > tac[i] {
            swap := true;
          }
        }
      }
    }

    /** One pass over the first n elements; everything from the place of the last swap on is then in
        its final place. */
    method Pass(n: nat) returns (stopIndex: nat)
      requires Valid() && n <= nbTai && SortedFrom(Entries(), n)
      modifies plmnMcc, plmnMnc, tac
      ensures SortedFrom(Entries(), stopIndex) && stopIndex <= n && (n > 0 ==> stopIndex < n)
      ensures multiset(Entries()) == old(multiset(Entries()))
    {
      stopIndex := 0;
      var i := 1;
      while i < n
        invariant 1 <= i && (n > 0 ==> i <= n)
        invariant stopIndex < i && (stopIndex == 0 || stopIndex < n)
        invariant SortedFrom(Entries(), n) && SortedBetween(Entries(), stopIndex, if i <= n then i else n)
        invariant i <= n ==> Highest(Entries(), i)
        invariant multiset(Entries()) == old(multiset(Entries()))
      {
        ghost var s := Entries();
        var swap := OutOfOrder(i);
        if swap {
          Swap(i);
          stopIndex := i;
          SwapPermutes(s, i);
          SwapSorts(s, n, i);
        } else {
          StaysSorted(s, stopIndex, i);
        }
        i := i + 1;
      }
    }

    method Sort()
      requires Valid()
      modifies plmnMcc, plmnMnc, tac
      ensures Sorted(Entries())
      ensures multiset(Entries()) == old(multiset(Entries()))
    {
      var n: nat := nbTai;
      while true
        invariant n <= nbTai && SortedFrom(Entries(), n)
        invariant multiset(Entries()) == old(multiset(Entries()))
        decreases n
      {
        n := Pass(n);
        if 0 == n {
          break;
        }
      }
    }

    method Classify()
      requires Valid()
      modifies this
      ensures listType == TypeOf(Entries())
    {
      listType := ConsecutiveTacs;
      var i := 1;
      while i < nbTai
        invariant 1 <= i && (nbTai > 0 ==> i <= nbTai)
        invariant i <= nbTai ==> listType == TypeOf(Entries()[..i]) && OnePlmn(Entries()[..i])
        invariant nbTai == 0 ==> listType == ConsecutiveTacs
      {
        ghost var s := Entries();
        Extend(s, i);
        assert SamePlmn(s[i - 1], s[0]) by {
          assert s[..i][i - 1] == s[i - 1] && s[..i][0] == s[0];
        }
        if plmnMcc[i] != plmnMcc[0] || plmnMnc[i] != plmnMnc[0] {
          listType := ManyPlmns;
          assert !SamePlmn(s[i], s[0]);
          return;
        } else if plmnMcc[i] != plmnMcc[i - 1] || plmnMnc[i] != plmnMnc[i - 1] {
          assert false;
        }
        if tac[i] != tac[i - 1] + 1 {
          listType := NonConsecutiveTacs;
        }
        i := i + 1;
      }
      assert Entries()[..nbTai] == Entries();
    }

    /** Sort the list and find its type. */
    method Prepare()
      requires Valid()
      modifies this, plmnMcc, plmnMnc, tac
      ensures Sorted(Entries()) && multiset(Entries()) == old(multiset(Entries()))
      ensures listType == TypeOf(Entries())
    {
      Sort();
      Classify();
    }

    /** `mme_config_find_mnc_length`; None when a digit is out of range and the process ends. */
    method FindMncLength(mcc1: int, mcc2: int, mcc3: int, mnc1: int, mnc2: int, mnc3: int) returns (r: Option<nat>)
      requires Valid()
      ensures r == (if Digit(mcc1) && Digit(mcc2) && Digit(mcc3) && Digit(mnc1) && Digit(mnc2)
                    then Some(MncLength(Entries(), plmnMncLen[..], Number(mcc1, mcc2, mcc3), 10 * mnc1 + mnc2, Number(mnc1, mnc2, mnc3), 0))
                    else None)
    {
      if !(Digit(mcc1) && Digit(mcc2) && Digit(mcc3)) || !(Digit(mnc1) && Digit(mnc2)) {
        return None;
      }
      var mcc := Number(mcc1, mcc2, mcc3);
      var long := Number(mnc1, mnc2, mnc3);
      var short := 10 * mnc1 + mnc2;
      var plmnIndex := 0;
      while plmnIndex < nbTai
        invariant plmnIndex <= nbTai
        invariant MncLength(Entries(), plmnMncLen[..], mcc, short, long, 0) ==
                  MncLength(Entries(), plmnMncLen[..], mcc, short, long, plmnIndex)
      {
        if plmnMcc[plmnIndex] == mcc {
          if plmnMnc[plmnIndex] == short && plmnMncLen[plmnIndex] == 2 {
            return Some(2);
          } else if plmnMnc[plmnIndex] == long && plmnMncLen[plmnIndex] == 3 {
            return Some(3);
          }
        }
        plmnIndex := plmnIndex + 1;
      }
      return Some(0);
    }
  }

  // ---------------------------------------------------------------- the sort

  /** No element before i is greater than the last of them. */
  ghost predicate Highest(s: seq<Tai>, i: nat)
    requires 0 < i <= |s|
  {
    forall j :: 0 <= j < i ==> !Less(s[i - 1], s[j])
  }

  lemma SwapSorts(s: seq<Tai>, n: nat, i: nat)
    requires 0 < i < n <= |s| && SortedFrom(s, n) && Highest(s, i) && Less(s[i], s[i - 1])
    ensures SortedFrom(Swapped(s, i), n) && Highest(Swapped(s, i), i + 1) && SortedBetween(Swapped(s, i), i, i + 1)
  {
    var t := Swapped(s, i);
    assert forall k :: n <= k < |s| ==> t[k] == s[k];
    assert forall j :: 0 <= j < i - 1 ==> t[j] == s[j];
  }

  lemma StaysSorted(s: seq<Tai>, stop: nat, i: nat)
    requires stop < i < |s| && SortedBetween(s, stop, i) && Highest(s, i) && !Less(s[i], s[i - 1])
    ensures Highest(s, i + 1) && SortedBetween(s, stop, i + 1)
  {
  }

  /** The three 16-bit fields of a tracking area read as one number, MCC first. */
  function Rank(a: Tai): (n: nat) { a.mcc * 0x1_0000_0000 + a.mnc * 0x1_0000 + a.tac }

  predicate Fits16(a: Tai) { a.mcc < 0x1_0000 && a.mnc < 0x1_0000 && a.tac < 0x1_0000 }

  lemma LessIsRank(a: Tai, b: Tai)
    requires Fits16(a) && Fits16(b)
    ensures Less(a, b) <==> Rank(a) < Rank(b)
  {
  }

  /** A list is sorted if and only if these numbers never fall from one entry to the next. */
  lemma SortedIffRanksRise(s: seq<Tai>)
    requires forall i :: 0 <= i < |s| ==> Fits16(s[i])
    ensures Sorted(s) <==> forall i :: 0 < i < |s| ==> Rank(s[i - 1]) <= Rank(s[i])
  {
    hide Less, Rank;
    if Sorted(s) {
      forall i | 0 < i < |s| ensures Rank(s[i - 1]) <= Rank(s[i]) {
        LessIsRank(s[i], s[i - 1]);
      }
    } else {
      var j, k :| 0 <= j < k < |s| && Less(s[k], s[j]);
      LessIsRank(s[k], s[j]);
      if forall i :: 0 < i < |s| ==> Rank(s[i - 1]) <= Rank(s[i]) {
        RanksRise(s, j, k);
        assert false;
      }
    }
  }

  lemma {:induction false} RanksRise(s: seq<Tai>, j: nat, k: nat)
    requires j <= k < |s| && forall i :: 0 < i < |s| ==> Rank(s[i - 1]) <= Rank(s[i])
    ensures Rank(s[j]) <= Rank(s[k])
  {
    hide Rank;
    if j < k {
      RanksRise(s, j, k - 1);
      assert Rank(s[k - 1]) <= Rank(s[k]);
    }
  }

  /** In a sorted list the entries of a PLMN stand together, with their tracking area codes rising. */
  lemma PlmnsStandTogether(s: seq<Tai>, i: nat, j: nat, k: nat)
    requires Sorted(s) && i < j < k < |s| && SamePlmn(s[i], s[k])
    ensures SamePlmn(s[i], s[j]) && s[i].tac <= s[j].tac <= s[k].tac
  {
    assert !Less(s[j], s[i]) && !Less(s[k], s[j]);
  }

  /** There is only one sorted order: two sorted lists with the same elements are the same list. */
  lemma {:induction false} SortedUnique(s: seq<Tai>, t: seq<Tai>)
    requires Sorted(s) && Sorted(t) && multiset(s) == multiset(t)
    ensures s == t
  {
    hide Sorted;
    SameCount(s, t);
    if s != [] {
      var n := |s| - 1;
      SameLast(s, t);
      WithoutLast(s);
      WithoutLast(t);
      SortedUnique(s[..n], t[..n]);
      FrontAndLast(s, t);
    }
  }

  lemma SameLast(s: seq<Tai>, t: seq<Tai>)
    requires Sorted(s) && Sorted(t) && multiset(s) == multiset(t) && |s| == |t| > 0
    ensures s[|s| - 1] == t[|t| - 1]
  {
    hide Sorted;
    var n := |s| - 1;
    assert s[n] in multiset(s) && t[n] in multiset(t);
    LastIsGreatest(s, t[n]);
    LastIsGreatest(t, s[n]);
  }

  lemma FrontAndLast(s: seq<Tai>, t: seq<Tai>)
    requires |s| == |t| > 0 && s[..|s| - 1] == t[..|s| - 1] && s[|s| - 1] == t[|s| - 1]
    ensures s == t
  {
    var n := |s| - 1;
    assert s == s[..n] + [s[n]] && t == t[..n] + [t[n]];
  }

  lemma LastIsGreatest(s: seq<Tai>, x: Tai)
    requires Sorted(s) && s != [] && x in multiset(s)
    ensures !Less(s[|s| - 1], x)
  {
  }

  lemma WithoutLast(s: seq<Tai>)
    requires Sorted(s) && s != []
    ensures Sorted(s[..|s| - 1]) && multiset(s[..|s| - 1]) == multiset(s) - multiset{s[|s| - 1]}
  {
    assert s == s[..|s| - 1] + [s[|s| - 1]];
  }

  lemma SameCount(s: seq<Tai>, t: seq<Tai>)
    requires multiset(s) == multiset(t)
    ensures |s| == |t|
  {
    assert |multiset(s)| == |s| && |multiset(t)| == |t|;
  }

  /** The order in which the tracking areas are configured does not matter: what the sort leaves and
      the list type are the same for every arrangement of the same entries. */
  lemma ArrangementIrrelevant(configured: seq<Tai>, configured': seq<Tai>, sorted: seq<Tai>, sorted': seq<Tai>)
    requires multiset(configured) == multiset(configured')
    requires Sorted(sorted) && multiset(sorted) == multiset(configured)
    requires Sorted(sorted') && multiset(sorted') == multiset(configured')
    ensures sorted == sorted' && TypeOf(sorted) == TypeOf(sorted')
  {
    SortedUnique(sorted, sorted');
  }

  // ---------------------------------------------------------------- the type

  lemma Extend(s: seq<Tai>, i: nat)
    requires 0 < i < |s| && OnePlmn(s[..i])
    ensures OnePlmn(s[..i + 1]) <==> SamePlmn(s[i], s[0])
    ensures CountsUp(s[..i + 1]) <==> CountsUp(s[..i]) && s[i].tac == s[i - 1].tac + 1
    ensures !SamePlmn(s[i], s[0]) ==> !OnePlmn(s)
  {
    var a, b := s[..i], s[..i + 1];
    assert forall j :: 0 <= j < i ==> b[j] == a[j];
    assert b[i] == s[i] && b[i - 1] == s[i - 1] == a[i - 1] && b[0] == s[0] == a[0];
    if OnePlmn(b) {
      assert SamePlmn(b[i], b[0]);
    }
    if CountsUp(b) {
      assert forall j :: 0 <= j < i ==> a[j].tac == b[j].tac;
    }
  }

  // ---------------------------------------------------------------- MNC lengths

  predicate Digit(d: int) { 0 <= d <= 9 }

  /** Three digits in a 16-bit variable; the third one may be any `char`. */
  function Number(d1: int, d2: int, d3: int): (n: nat) { (100 * d1 + 10 * d2 + d3) % 0x1_0000 }

  /** The length of the first entry at or after i that has the PLMN, or 0. */
  function MncLength(s: seq<Tai>, lens: seq<nat>, mcc: nat, short: int, long: nat, i: nat): (r: nat)
    requires |s| == |lens| && i <= |s|
    decreases |s| - i
  {
    if i == |s| then 0
    else if s[i].mcc == mcc && s[i].mnc == short && lens[i] == 2 then 2
    else if s[i].mcc == mcc && s[i].mnc == long && lens[i] == 3 then 3
    else MncLength(s, lens, mcc, short, long, i + 1)
  }

  /** The entry has the PLMN, its MNC read as two digits or as three, as its length says. */
  predicate HasPlmn(s: seq<Tai>, lens: seq<nat>, mcc: nat, short: int, long: nat, i: nat)
    requires i < |s| == |lens|
  {
    s[i].mcc == mcc && ((lens[i] == 2 && s[i].mnc == short) || (lens[i] == 3 && s[i].mnc == long))
  }

  ghost predicate FirstMatch(s: seq<Tai>, lens: seq<nat>, mcc: nat, short: int, long: nat, i: nat, k: nat)
    requires |s| == |lens|
  {
    i <= k < |s| && HasPlmn(s, lens, mcc, short, long, k) && forall l :: i <= l < k ==> !HasPlmn(s, lens, mcc, short, long, l)
  }

  /** The search answers the configured length of the first entry that has the PLMN, and 0 if and only if
      none has it. */
  lemma {:induction false} FirstMatchDecides(s: seq<Tai>, lens: seq<nat>, mcc: nat, short: int, long: nat, i: nat)
    requires |s| == |lens| && i <= |s|
    ensures var r := MncLength(s, lens, mcc, short, long, i);
            if r == 0 then forall k :: i <= k < |s| ==> !HasPlmn(s, lens, mcc, short, long, k)
            else exists k: nat :: FirstMatch(s, lens, mcc, short, long, i, k) && r == lens[k]
    decreases |s| - i
  {
    if i < |s| {
      FirstMatchDecides(s, lens, mcc, short, long, i + 1);
      if HasPlmn(s, lens, mcc, short, long, i) {
        assert FirstMatch(s, lens, mcc, short, long, i, i);
      } else if MncLength(s, lens, mcc, short, long, i) != 0 {
        var k: nat :| FirstMatch(s, lens, mcc, short, long, i + 1, k) && MncLength(s, lens, mcc, short, long, i + 1) == lens[k];
        assert FirstMatch(s, lens, mcc, short, long, i, k);
      }
    }
  }

  lemma NumberOfDigits(d1: int, d2: int, d3: int)
    requires Digit(d1) && Digit(d2) && Digit(d3)
    ensures Number(d1, d2, d3) == 100 * d1 + 10 * d2 + d3
  {
  }

  /** The sort moves the entries but not their MNC lengths: with different lengths the answers change. */
  lemma LengthsLeftBehind()
    ensures var s, t, lens := [Tai(2, 1, 1), Tai(1, 1, 1)], [Tai(1, 1, 1), Tai(2, 1, 1)], [2, 3];
            Sorted(t) && multiset(s) == multiset(t) &&
            MncLength(s, lens, 2, 1, 10, 0) == 2 && MncLength(t, lens, 2, 1, 10, 0) == 0
  {
    var s, t, lens := [Tai(2, 1, 1), Tai(1, 1, 1)], [Tai(1, 1, 1), Tai(2, 1, 1)], [2, 3];
    assert MncLength(t, lens, 2, 1, 10, 1) == MncLength(t, lens, 2, 1, 10, 2) == 0;
  }

  /** With one length for all entries the search answers that length exactly when an entry matches,
      so the sort changes no answer. */
  lemma {:induction false} UniformLength(s: seq<Tai>, lens: seq<nat>, len: nat, mcc: nat, short: int, long: nat, i: nat)
    requires |s| == |lens| && i <= |s| && (len == 2 || len == 3) && forall j :: 0 <= j < |lens| ==> lens[j] == len
    ensures MncLength(s, lens, mcc, short, long, i) ==
            if exists j :: i <= j < |s| && s[j].mcc == mcc && s[j].mnc == (if len == 2 then short else long) then len else 0
    decreases |s| - i
  {
    if i < |s| {
      UniformLength(s, lens, len, mcc, short, long, i + 1);
    }
  }

  lemma SortKeepsUniformLengths(s: seq<Tai>, t: seq<Tai>, lens: seq<nat>, len: nat, mcc: nat, short: int, long: nat)
    requires |s| == |lens| && (len == 2 || len == 3) && forall j :: 0 <= j < |lens| ==> lens[j] == len
    requires multiset(s) == multiset(t)
    ensures |t| == |lens| && MncLength(s, lens, mcc, short, long, 0) == MncLength(t, lens, mcc, short, long, 0)
  {
    SameCount(s, t);
    UniformLength(s, lens, len, mcc, short, long, 0);
    UniformLength(t, lens, len, mcc, short, long, 0);
    assert forall x :: x in s <==> x in multiset(s);
    assert forall x :: x in t <==> x in multiset(t);
    assert forall j :: 0 <= j < |s| ==> s[j] in s && s[j] in t;
    assert forall j :: 0 <= j < |t| ==> t[j] in t && t[j] in s;
  }

  /** Whatever is configured with these MNC lengths, the sort changes no answer. */
  ghost predicate SortSafe(lens: seq<nat>) {
    forall s: seq<Tai>, t: seq<Tai>, mcc: nat, short: nat, long: nat ::
      |s| == |t| == |lens| && Sorted(t) && multiset(s) == multiset(t) ==>
      MncLength(s, lens, mcc, short, long, 0) == MncLength(t, lens, mcc, short, long, 0)
  }

  ghost predicate Uniform(lens: seq<nat>) {
    forall j :: 0 <= j < |lens| ==> lens[j] == lens[0]
  }

  lemma SortSafeIffUniform(lens: seq<nat>)
    requires forall j :: 0 <= j < |lens| ==> lens[j] == 2 || lens[j] == 3
    ensures SortSafe(lens) <==> Uniform(lens)
  {
    if Uniform(lens) {
      forall s: seq<Tai>, t: seq<Tai>, mcc: nat, short: nat, long: nat
        | |s| == |t| == |lens| && Sorted(t) && multiset(s) == multiset(t)
        ensures MncLength(s, lens, mcc, short, long, 0) == MncLength(t, lens, mcc, short, long, 0)
      {
        SortKeepsUniformLengths(s, t, lens, if lens == [] then 2 else lens[0], mcc, short, long);
      }
    } else {
      var k := Neighbours(lens, |lens|);
      var t := InOrder(|lens|);
      var s := Swapped(t, k);
      SwapPermutes(t, k);
      OnlyMatch(t, lens, k, k, 0);
      OnlyMatch(s, lens, k, k - 1, 0);
    }
  }

  /** Lengths that are not all the same differ somewhere between neighbours. */
  lemma {:induction false} Neighbours(lens: seq<nat>, n: nat) returns (k: nat)
    requires n <= |lens| && exists j :: 0 <= j < n && lens[j] != lens[0]
    ensures 0 < k < n && lens[k - 1] != lens[k]
  {
    if lens[n - 1] != lens[n - 2] {
      k := n - 1;
    } else {
      k := Neighbours(lens, n - 1);
    }
  }

  function InOrder(n: nat): (s: seq<Tai>)
    ensures Sorted(s) && |s| == n
  {
    seq(n, (i: nat) => Tai(i, 1, 1))
  }

  /** The search for the MNC 01 or 010 of the only entry with its MCC. */
  lemma {:induction false} OnlyMatch(s: seq<Tai>, lens: seq<nat>, mcc: nat, p: nat, i: nat)
    requires |s| == |lens| && i <= |s| && p < |s| && s[p] == Tai(mcc, 1, 1)
    requires forall j :: 0 <= j < |s| && j != p ==> s[j].mcc != mcc
    ensures MncLength(s, lens, mcc, 1, 10, i) == if i <= p && lens[p] == 2 then 2 else 0
    decreases |s| - i
  {
    if i < |s| {
      OnlyMatch(s, lens, mcc, p, i + 1);
    }
  }

  // ---------------------------------------------------------------- one configuration

  ghost predicate Distinct(s: seq<Tai>) {
    forall i, j :: 0 <= i < j < |s| ==> s[i] != s[j]
  }

  /** The place the sort will give to x: the number of configured entries below it. */
  ghost function Place(s: seq<Tai>, x: Tai): nat { |Below(s, x)| }

  ghost function Below(s: seq<Tai>, x: Tai): set<Tai> {
    set y | y in s && Less(y, x)
  }

  /** Every entry has the same MNC length after the sort as before. */
  ghost predicate LengthsStay(s: seq<Tai>, t: seq<Tai>, lens: seq<nat>)
    requires |s| == |t| == |lens|
  {
    forall i, j :: 0 <= i < |s| && 0 <= j < |t| && s[i] == t[j] ==> lens[i] == lens[j]
  }

  ghost function Elements(t: seq<Tai>): set<Tai> {
    set y | y in t
  }

  lemma {:induction false} PrefixCount(t: seq<Tai>, k: nat)
    requires Distinct(t) && k <= |t|
    ensures |Elements(t[..k])| == k
  {
    if k > 0 {
      PrefixCount(t, k - 1);
      assert t[..k] == t[..k - 1] + [t[k - 1]];
      assert Elements(t[..k]) == Elements(t[..k - 1]) + {t[k - 1]};
      assert t[k - 1] !in t[..k - 1];
    }
  }

  /** In a sorted list without repetitions every entry stands in its place. */
  lemma StandsInPlace(t: seq<Tai>, k: nat)
    requires Sorted(t) && Distinct(t) && k < |t|
    ensures Place(t, t[k]) == k
  {
    PrefixCount(t, k);
    forall y ensures y in Below(t, t[k]) <==> y in Elements(t[..k]) {
      if y in t[..k] {
        var j :| 0 <= j < k && t[j] == y;
        assert !Less(t[k], t[j]) && t[j] != t[k];
      }
    }
    assert Below(t, t[k]) == Elements(t[..k]);
  }

  lemma {:induction false} OnceEach(t: seq<Tai>)
    ensures Distinct(t) <==> forall x :: multiset(t)[x] <= 1
  {
    if t != [] {
      var n := |t| - 1;
      OnceEach(t[..n]);
      assert t == t[..n] + [t[n]];
      if Distinct(t) {
        assert t[n] !in t[..n];
      } else if Distinct(t[..n]) {
        assert t[n] in t[..n];
        assert multiset(t)[t[n]] >= 2;
      } else {
        var x :| multiset(t[..n])[x] > 1;
        assert multiset(t)[x] > 1;
      }
    }
  }

  /** For a configuration without repeated entries: every entry keeps its MNC length through the sort if
      and only if the length configured with it is also the one configured at the place it will get. */
  lemma LengthsStayIff(s: seq<Tai>, t: seq<Tai>, lens: seq<nat>)
    requires |s| == |t| == |lens| && Sorted(t) && multiset(s) == multiset(t) && Distinct(s)
    ensures forall i :: 0 <= i < |s| ==> Place(s, s[i]) < |s|
    ensures LengthsStay(s, t, lens) <==> forall i :: 0 <= i < |s| ==> lens[i] == lens[Place(s, s[i])]
  {
    hide Sorted, Place, Distinct;
    OnceEach(s);
    OnceEach(t);
    forall i | 0 <= i < |s| ensures Place(s, s[i]) < |s| && t[Place(s, s[i])] == s[i] {
      GetsPlace(s, t, i);
    }
    PlacedLengths(s, t, lens);
  }

  lemma GetsPlace(s: seq<Tai>, t: seq<Tai>, i: nat)
    requires i < |s| == |t| && Sorted(t) && multiset(s) == multiset(t) && Distinct(t)
    ensures Place(s, s[i]) < |s| && t[Place(s, s[i])] == s[i]
  {
    hide Sorted, Place, Distinct;
    SameBelow(s, t, s[i]);
    assert s[i] in multiset(s) && s[i] in multiset(t);
    var j :| 0 <= j < |t| && t[j] == s[i];
    StandsInPlace(t, j);
  }

  lemma PlacedLengths(s: seq<Tai>, t: seq<Tai>, lens: seq<nat>)
    requires |s| == |t| == |lens| && Distinct(t)
    requires forall i :: 0 <= i < |s| ==> Place(s, s[i]) < |s| && t[Place(s, s[i])] == s[i]
    ensures LengthsStay(s, t, lens) <==> forall i :: 0 <= i < |s| ==> lens[i] == lens[Place(s, s[i])]
  {
    hide Place;
    forall i, j | 0 <= i < |s| && 0 <= j < |t| && s[i] == t[j] ensures j == Place(s, s[i]) {
    }
  }

  lemma SameBelow(s: seq<Tai>, t: seq<Tai>, x: Tai)
    requires multiset(s) == multiset(t)
    ensures Place(s, x) == Place(t, x)
  {
    forall y ensures y in s <==> y in t {
      assert y in s <==> y in multiset(s);
      assert y in t <==> y in multiset(t);
    }
    assert Below(s, x) == Below(t, x);
  }
}
