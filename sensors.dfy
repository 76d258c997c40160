/** A vessel's sensor table (SCANvessel.sensors) and the effect of
    registering and unregistering sensors on it (SCANcontroller.registerSensor,
    unregisterSensor), written as folds over the enumeration's members in the
    order the source walks them. */
module Sensors {
  import opened ScanType
  import opened BitCount

  /** SCANsensor: one sensor's configuration and its transient range flags. */
  datatype Sensor = Sensor(
    sensor: Mask,
    fov: real,
    minAlt: real,
    maxAlt: real,
    bestAlt: real,
    inRange: bool,
    bestRange: bool)

  /** The four numbers a registration supplies. */
  datatype Profile = Profile(fov: real, minAlt: real, maxAlt: real, bestAlt: real)

  /** SCANvessel.sensors: one entry per registered single-bit sensor. */
  type Table = map<Mask, Sensor>

  /** The generic default profile. */
  const GenericDefault: Profile := Profile(5.0, 5000.0, 500000.0, 200000.0)

  /** The high-resolution altimeter narrows the default field of view. */
  const HiResDefault: Profile := GenericDefault.(fov := 3.0)

  /** The anomaly-detail sensor works close to the ground only. */
  const DetailDefault: Profile := Profile(1.0, 0.0, 2000.0, 0.0)

  /** The profile registered for sensor s: the given one, or when its maximum
      altitude is not positive a default chosen by the sensor's bits. */
  function Effective(s: Mask, given: Profile): (p: Profile)
    ensures given.maxAlt > 0.0 ==> p == given
    ensures given.maxAlt <= 0.0 ==> p.maxAlt > 0.0 && 0.0 <= p.minAlt <= p.bestAlt <= p.maxAlt
  {
    if given.maxAlt <= 0.0 then
      var generic := if Meets(s, AltimetryHiRes) then HiResDefault else GenericDefault;
      if Meets(s, AnomalyDetail) then DetailDefault else generic
    else given
  }

  /** Defaults are chosen per bit: the high-resolution altimeter gets fov 3,
      the anomaly-detail sensor its close-range profile, every other single
      bit the generic profile. */
  lemma DefaultsPerBit(s: Mask, given: Profile)
    requires s in Singles && given.maxAlt <= 0.0
    ensures s == AnomalyDetail ==> Effective(s, given) == Profile(1.0, 0.0, 2000.0, 0.0)
    ensures s == AltimetryHiRes ==> Effective(s, given) == Profile(3.0, 5000.0, 500000.0, 200000.0)
    ensures s != AnomalyDetail && s != AltimetryHiRes ==>
              Effective(s, given) == Profile(5.0, 5000.0, 500000.0, 200000.0)
  {
    SinglesMeet(s, AltimetryHiRes);
    SinglesMeet(s, AnomalyDetail);
  }

  /** The entry registerSensor leaves for sensor s: an existing entry keeps
      its range flags and takes the new numbers; a new entry starts with both
      flags clear. */
  function Configure(t: Table, s: Mask, p: Profile): (r: Sensor)
    ensures r.sensor == s && r.fov == p.fov && r.minAlt == p.minAlt
    ensures r.maxAlt == p.maxAlt && r.bestAlt == p.bestAlt
    ensures s in t ==> r.inRange == t[s].inRange && r.bestRange == t[s].bestRange
    ensures s !in t ==> !r.inRange && !r.bestRange
  {
    if s in t then t[s].(sensor := s, fov := p.fov, minAlt := p.minAlt, maxAlt := p.maxAlt, bestAlt := p.bestAlt)
    else Sensor(s, p.fov, p.minAlt, p.maxAlt, p.bestAlt, false, false)
  }

  /** One iteration of registerSensor's loop, for the member s. */
  function RegisterStep(t: Table, s: Mask, mask: Mask, given: Profile): Table
  {
    if Popcount(ToWord(s)) != 1 || !Meets(s, mask) then t
    else t[s := Configure(t, s, Effective(s, given))]
  }

  /** registerSensor's loop after visiting the members in ms. */
  function RegisterPrefix(t: Table, ms: seq<Mask>, mask: Mask, given: Profile): Table
  {
    if ms == [] then t
    else RegisterStep(RegisterPrefix(t, ms[..|ms| - 1], mask, given), ms[|ms| - 1], mask, given)
  }

  /** The sensor table after registerSensor. */
  function Register(t: Table, mask: Mask, given: Profile): Table
  {
    RegisterPrefix(t, Members, mask, given)
  }

  /** One iteration of unregisterSensor's loop, for the member s. */
  function UnregisterStep(t: Table, s: Mask, mask: Mask): Table
  {
    if !Meets(mask, s) || s !in t then t else t - {s}
  }

  /** unregisterSensor's loop after visiting the members in ms. */
  function UnregisterPrefix(t: Table, ms: seq<Mask>, mask: Mask): Table
  {
    if ms == [] then t
    else UnregisterStep(UnregisterPrefix(t, ms[..|ms| - 1], mask), ms[|ms| - 1], mask)
  }

  /** The sensor table after unregisterSensor. */
  function Unregister(t: Table, mask: Mask): Table
  {
    UnregisterPrefix(t, Members, mask)
  }

  /** Every key is a single-bit member and its entry records that key. */
  predicate WellFormed(t: Table)
  {
    forall k | k in t :: k in Singles && t[k].sensor == k
  }

  /** The OR of the table's keys (the fold of activeSensorsOnVessel). */
  ghost function Active(t: Table): Mask
  {
    UnionOf(t.Keys)
  }

  /** s is a single-bit member that the mask selects. */
  predicate Picked(s: Mask, mask: Mask)
  {
    s in Singles && Meets(s, mask)
  }

  /** The members are pairwise distinct. */
  lemma MembersDistinct()
    ensures forall i, j | 0 <= i < j < |Members| :: Members[i] != Members[j]
  {
  }

  /** What one iteration of registerSensor's loop does to key k. */
  lemma RegisterStepAt(t: Table, s: Mask, mask: Mask, given: Profile, k: Mask)
    requires s in Members
    ensures var r := RegisterStep(t, s, mask, given);
            && (k in r <==> k in t || (k == s && Picked(k, mask)))
            && (k == s && Picked(k, mask) ==> r[k] == Configure(t, k, Effective(k, given)))
            && (k in t && !(k == s && Picked(k, mask)) ==> r[k] == t[k])
  {
    SingleMembers(s);
  }

  /** What registerSensor's loop has done to key k after the members in ms. */
  lemma {:induction false} RegisterPrefixAt(t: Table, ms: seq<Mask>, mask: Mask, given: Profile, k: Mask)
    requires forall i | 0 <= i < |ms| :: ms[i] in Members
    requires forall i, j | 0 <= i < j < |ms| :: ms[i] != ms[j]
    ensures var r := RegisterPrefix(t, ms, mask, given);
            && (k in r <==> k in t || (k in ms && Picked(k, mask)))
            && (k in ms && Picked(k, mask) ==> r[k] == Configure(t, k, Effective(k, given)))
            && (k in t && !(k in ms && Picked(k, mask)) ==> r[k] == t[k])
  {
    if ms != [] {
      var init, s := ms[..|ms| - 1], ms[|ms| - 1];
      assert forall i | 0 <= i < |init| :: init[i] == ms[i];
      var t' := RegisterPrefix(t, init, mask, given);
      RegisterPrefixAt(t, init, mask, given, k);
      RegisterStepAt(t', s, mask, given, k);
      assert k in ms <==> k in init || k == s;
      if k == s {
        assert k !in init;
        assert Configure(t', k, Effective(k, given)) == Configure(t, k, Effective(k, given));
      }
    }
  }

  /** registerSensor: the selected single bits get a configured entry, all
      other entries are untouched, and no other key appears. */
  lemma RegisterSpec(t: Table, mask: Mask, given: Profile)
    ensures forall k :: k in Register(t, mask, given) <==> k in t || Picked(k, mask)
    ensures forall k | Picked(k, mask) :: Register(t, mask, given)[k] == Configure(t, k, Effective(k, given))
    ensures forall k | k in t && !Picked(k, mask) :: Register(t, mask, given)[k] == t[k]
  {
    MembersDistinct();
    forall k
      ensures k in Register(t, mask, given) <==> k in t || Picked(k, mask)
      ensures Picked(k, mask) ==> Register(t, mask, given)[k] == Configure(t, k, Effective(k, given))
      ensures k in t && !Picked(k, mask) ==> Register(t, mask, given)[k] == t[k]
    {
      RegisterPrefixAt(t, Members, mask, given, k);
    }
  }

  /** What unregisterSensor's loop has done to key k after the members in ms. */
  lemma {:induction false} UnregisterPrefixAt(t: Table, ms: seq<Mask>, mask: Mask, k: Mask)
    ensures var r := UnregisterPrefix(t, ms, mask);
            && (k in r <==> k in t && !(k in ms && Meets(mask, k)))
            && (k in r ==> r[k] == t[k])
  {
    if ms != [] {
      var init, s := ms[..|ms| - 1], ms[|ms| - 1];
      UnregisterPrefixAt(t, init, mask, k);
      assert k in ms <==> k in init || k == s;
    }
  }

  /** unregisterSensor: exactly the registered members that meet the mask are
      removed, unregistered bits are ignored, and the entries left are
      untouched. */
  lemma UnregisterSpec(t: Table, mask: Mask)
    ensures forall k :: k in Unregister(t, mask) <==> k in t && !(k in Members && Meets(mask, k))
    ensures forall k | k in Unregister(t, mask) :: Unregister(t, mask)[k] == t[k]
  {
    forall k
      ensures k in Unregister(t, mask) <==> k in t && !(k in Members && Meets(mask, k))
      ensures k in Unregister(t, mask) ==> Unregister(t, mask)[k] == t[k]
    {
      UnregisterPrefixAt(t, Members, mask, k);
    }
  }

  /** Registering keeps a table well formed. */
  lemma RegisterWellFormed(t: Table, mask: Mask, given: Profile)
    requires WellFormed(t)
    ensures WellFormed(Register(t, mask, given))
  {
    RegisterSpec(t, mask, given);
  }

  /** Unregistering keeps a table well formed. */
  lemma UnregisterWellFormed(t: Table, mask: Mask)
    requires WellFormed(t)
    ensures WellFormed(Unregister(t, mask))
  {
    UnregisterSpec(t, mask);
  }

  /** In a well-formed table a single bit is active iff it is registered, and
      no bit outside the single-bit members is active. */
  lemma ActiveSingles(t: Table)
    requires WellFormed(t)
    ensures Active(t) <= SingleMask
    ensures forall b | b in Singles :: Meets(Active(t), b) <==> b in t
  {
    UnionOfSingles(t.Keys);
    forall b | b in Singles
      ensures Meets(Active(t), b) <==> b <= Active(t)
    {
      SinglesAreBits(b);
    }
  }

  /** The bit i of a well-formed table's fold comes from the key {i}. */
  lemma ActiveBit(t: Table, i: Bit)
    requires WellFormed(t)
    ensures i in Active(t) <==> {i} in t
  {
    UnionOfBits(t.Keys, i);
    if i in Active(t) {
      var k :| k in t.Keys && i in k;
      SinglesAreBits(k);
    }
  }

  /** Registering adds the selected single bits to the active sensors:
      activeSensorsOnVessel becomes old | (mask & single bits). */
  lemma ActiveAfterRegister(t: Table, mask: Mask, given: Profile)
    requires WellFormed(t)
    ensures Active(Register(t, mask, given)) == Active(t) + Restrict(mask)
  {
    var r := Register(t, mask, given);
    RegisterSpec(t, mask, given);
    RegisterWellFormed(t, mask, given);
    forall i
      ensures i in Active(r) <==> i in Active(t) + Restrict(mask)
    {
      ActiveBit(r, i);
      ActiveBit(t, i);
      SinglesAreBits({i});
    }
  }

  /** Unregistering clears the mask's bits from the active sensors:
      activeSensorsOnVessel becomes old & ~mask. */
  lemma ActiveAfterUnregister(t: Table, mask: Mask)
    requires WellFormed(t)
    ensures Active(Unregister(t, mask)) == Active(t) - mask
  {
    var r := Unregister(t, mask);
    UnregisterSpec(t, mask);
    UnregisterWellFormed(t, mask);
    forall i
      ensures i in Active(r) <==> i in Active(t) - mask
    {
      ActiveBit(r, i);
      ActiveBit(t, i);
      SinglesAreBits({i});
    }
  }

  /** Unregistering empties a well-formed table iff the mask covers every
      registered sensor; unregistering Everything always does. */
  lemma UnregisterEmpties(t: Table, mask: Mask)
    requires WellFormed(t)
    ensures Unregister(t, mask) == map[] <==> forall k | k in t :: Meets(mask, k)
    ensures Unregister(t, Everything) == map[]
  {
    UnregisterSpec(t, mask);
    UnregisterSpec(t, Everything);
    var u := Unregister(t, mask);
    if u == map[] {
      forall k | k in t
        ensures Meets(mask, k)
      {
        assert k !in u;
      }
    }
    if forall k | k in t :: Meets(mask, k) {
      forall k
        ensures k !in u
      {
        if k in t {
          assert Meets(mask, k);
        }
      }
      assert u.Keys == {};
    }
    var e := Unregister(t, Everything);
    forall k
      ensures k !in e
    {
      if k in t {
        SingleIsMember(k);
      }
    }
    assert e.Keys == {};
  }

  /** Registering the same mask twice is registering it once. */
  lemma RegisterIdempotent(t: Table, mask: Mask, given: Profile)
    ensures Register(Register(t, mask, given), mask, given) == Register(t, mask, given)
  {
    var r := Register(t, mask, given);
    RegisterSpec(t, mask, given);
    RegisterSpec(r, mask, given);
    assert Register(r, mask, given).Keys == r.Keys;
  }

  /** Unregistering a mask right after registering it leaves what
      unregistering it alone leaves: the registration is undone. */
  lemma UnregisterUndoesRegister(t: Table, mask: Mask, given: Profile)
    ensures Unregister(Register(t, mask, given), mask) == Unregister(t, mask)
  {
    var r := Register(t, mask, given);
    RegisterSpec(t, mask, given);
    UnregisterSpec(r, mask);
    UnregisterSpec(t, mask);
    assert Unregister(r, mask).Keys == Unregister(t, mask).Keys;
  }
}
