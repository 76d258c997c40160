/** Sensor kinds as a bit-flag enumeration (SCANdata.SCANtype). Every member
    of the enumeration fits in the low eight bits; a value is written as the
    set of its bit positions, so `&` is intersection, `|` is union and
    `& ~m` is set difference. */
module ScanType {

  /** A bit position of the enumeration's byte. */
  newtype Bit = i: int | 0 <= i < 8

  /** A SCANtype value, as the set of its set bits. */
  type Mask = set<Bit>

  const Nothing: Mask := {}
  const AltimetryLoRes: Mask := {0}
  const AltimetryHiRes: Mask := {1}
  const Altimetry: Mask := {0, 1}
  const Biome: Mask := {3}
  const Anomaly: Mask := {4}
  const AnomalyDetail: Mask := {5}
  const Everything: Mask := {0, 1, 2, 3, 4, 5, 6, 7}

  /** The values Enum.GetValues yields, in ascending order of their integer
      value: single-bit sensors and the composite masks. */
  const Members: seq<Mask> :=
    [Nothing, AltimetryLoRes, AltimetryHiRes, Altimetry, Biome, Anomaly, AnomalyDetail, Everything]

  /** The single-bit members: the only keys a vessel's sensor table holds. */
  const Singles: set<Mask> := {AltimetryLoRes, AltimetryHiRes, Biome, Anomaly, AnomalyDetail}

  /** The bits of the single-bit members. */
  const SingleMask: Mask := {0, 1, 3, 4, 5}

  /** a & b != Nothing: the masks share a set bit. */
  predicate Meets(a: Mask, b: Mask)
  {
    a * b != Nothing
  }

  /** m & SingleMask: the single-bit members a mask selects. */
  function Restrict(m: Mask): Mask
  {
    m * SingleMask
  }

  /** The single-bit members are exactly the singletons of SingleMask. */
  lemma SinglesAreBits(k: Mask)
    ensures k in Singles <==> exists i | i in SingleMask :: k == {i}
  {
    if exists i | i in SingleMask :: k == {i} {
      var i :| i in SingleMask && k == {i};
      assert i == 0 || i == 1 || i == 3 || i == 4 || i == 5;
    }
  }

  /** Every single-bit mask is one of the enumerated members, and meets
      the composite Everything. */
  lemma SingleIsMember(k: Mask)
    requires k in Singles
    ensures k in Members && Meets(Everything, k)
  {
    assert k == Members[1] || k == Members[2] || k == Members[4] || k == Members[5] || k == Members[6];
    SinglesAreBits(k);
    var i :| i in SingleMask && k == {i};
    assert i in Everything * k;
  }

  /** Distinct single-bit members share no bit. */
  lemma SinglesMeet(a: Mask, b: Mask)
    requires a in Singles && b in Singles
    ensures Meets(a, b) <==> a == b
  {
    SinglesAreBits(a);
    SinglesAreBits(b);
    var i :| i in SingleMask && a == {i};
    var j :| j in SingleMask && b == {j};
    if i == j {
      assert i in a * b;
    } else {
      assert forall x :: x in a * b ==> x == i && x == j;
    }
  }

  /** Some element of a non-empty set: the next key a dictionary walk yields. */
  ghost function Pick(s: set<Mask>): (k: Mask)
    requires s != {}
    ensures k in s
  {
    NonEmptyHas(s);
    var k :| k in s; k
  }

  /** A set that is not empty has an element. */
  lemma NonEmptyHas(s: set<Mask>)
    requires s != {}
    ensures exists k :: k in s
  {
    if forall k :: k !in s {
      assert false;
    }
  }

  /** `all |= s` over every s in a set of masks, in whatever order the set
      is walked (the fold of activeSensorsOnVessel and isVesselKnown). */
  ghost function UnionOf(s: set<Mask>): Mask
    decreases s
  {
    if s == {} then Nothing
    else
      var k := Pick(s);
      UnionOf(s - {k}) + k
  }

  /** The fold sets exactly the bits set in some element, whatever order the
      elements are visited in. */
  lemma {:induction false} UnionOfBits(s: set<Mask>, i: Bit)
    ensures i in UnionOf(s) <==> exists k | k in s :: i in k
    decreases s
  {
    if s != {} {
      var k := Pick(s);
      UnionOfBits(s - {k}, i);
      if exists j | j in s :: i in j {
        var j :| j in s && i in j;
        if j != k {
          assert j in s - {k};
        }
      }
    }
  }

  /** The fold meets a mask iff one of the folded masks does. */
  lemma UnionOfMeets(s: set<Mask>, mask: Mask)
    ensures Meets(UnionOf(s), mask) <==> exists k | k in s :: Meets(k, mask)
  {
    if Meets(UnionOf(s), mask) {
      var i :| i in UnionOf(s) * mask;
      UnionOfBits(s, i);
    }
    if exists k | k in s :: Meets(k, mask) {
      var k :| k in s && Meets(k, mask);
      var i :| i in k * mask;
      UnionOfBits(s, i);
    }
  }

  /** A set of single-bit members is recovered from its fold: the fold has
      only bits of single-bit members, and a single bit is set in it iff
      that member is in the set. */
  lemma UnionOfSingles(s: set<Mask>)
    requires s <= Singles
    ensures UnionOf(s) <= SingleMask
    ensures forall b | b in Singles :: b <= UnionOf(s) <==> b in s
  {
    forall i | i in UnionOf(s)
      ensures i in SingleMask
    {
      UnionOfBits(s, i);
    }
    forall b | b in Singles
      ensures b <= UnionOf(s) <==> b in s
    {
      SinglesAreBits(b);
      var i :| i in SingleMask && b == {i};
      UnionOfBits(s, i);
      if i in UnionOf(s) {
        var k :| k in s && i in k;
        SinglesMeet(k, b);
      }
    }
  }
}
