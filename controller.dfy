/** SCANcontroller's own state: the registry of known vessels and their
    sensors, the queries over it, and the per-tick driver scanFromAllVessels
    with its once-per-frame, once-per-second gate. */
module Controller {
  import opened Wrappers
  import opened ScanType
  import opened BitCount
  import opened Sensors
  import opened Footprint
  import opened ScanPass
  import Angles

  /** A vessel's Guid. */
  type VesselId = nat

  /** SCANvessel: the vessel's sensor table and the position, frame and time
      recorded for it at the last tick. */
  datatype Record = Record(id: VesselId, sensors: Table, latitude: real, longitude: real, frame: int,
                           lastUT: real)

  /** A SCANvessel as `new` leaves it, with its id filled in. */
  function NewRecord(id: VesselId): (r: Record)
    ensures r.id == id && r.sensors == map[] && r.frame == 0 && r.lastUT == 0.0
  {
    Record(id, map[], 0.0, 0.0, 0, 0.0)
  }

  /** What a tick needs from a vessel's main body: whether its scanning is
      disabled, whether it is the body in focus, its sphere of influence above
      the surface, its surface scale and its coverage map. */
  datatype Body = Body(disabled: bool, current: bool, soi: real, scale: real, coverage: Mask -> real)

  /** A KSP vessel as a tick sees it: its Guid, its own state, whether it is
      debris, its orbit and its main body. */
  datatype Ship = Ship(id: VesselId, craft: Craft, debris: bool, eph: real -> Option<Fix>, body: Body)

  /** The vessel's record after the tick's bookkeeping: the frame, the time
      and the normalised position of this tick. */
  function Stamp(r: Record, ship: Ship, frameCount: int, ut: real): Record
  {
    r.(frame := frameCount, lastUT := ut, latitude := Angles.FixLatitude(ship.craft.latitude),
       longitude := Angles.FixLongitude(ship.craft.longitude))
  }

  /** The tick scans this vessel: its body is enabled and in focus (or
      background scanning is on), and it is a known, non-debris vessel. */
  predicate Qualifies(ship: Ship, r: Record, scanBackground: bool)
  {
    !ship.body.disabled && (ship.body.current || scanBackground) && !ship.debris && |r.sensors| > 0
  }

  /** The tick is skipped: less than one second has passed since the last
      one (while the clock moved forward), or one already ran this frame. */
  predicate Gated(lastTime: real, lastFrame: int, now: real, frameCount: int)
  {
    (now - lastTime < 1.0 && now > lastTime) || lastFrame == frameCount
  }

  /** After a tick ran at (now, frameCount), another in the same frame, or
      less than a second later, is skipped; one at least a second later in
      another frame runs, and so does one in another frame whose clock reads
      no later than the last tick. */
  lemma GateSpacing(now: real, frameCount: int, now': real, frameCount': int)
    ensures frameCount' == frameCount ==> Gated(now, frameCount, now', frameCount')
    ensures now < now' < now + 1.0 ==> Gated(now, frameCount, now', frameCount')
    ensures frameCount' != frameCount && (now' >= now + 1.0 || now' <= now) ==>
              !Gated(now, frameCount, now', frameCount')
  {
  }

  /** The ids of the first n listed vessels. */
  function IdsBefore(vessels: seq<Ship>, n: nat): set<VesselId>
    requires n <= |vessels|
  {
    if n == 0 then {} else IdsBefore(vessels, n - 1) + {vessels[n - 1].id}
  }

  /** An id is among the first n iff one of the first n vessels has it. */
  lemma {:induction false} IdsBeforeMembers(vessels: seq<Ship>, n: nat, id: VesselId)
    requires n <= |vessels|
    ensures id in IdsBefore(vessels, n) <==> exists j | 0 <= j < n :: vessels[j].id == id
  {
    if n > 0 {
      IdsBeforeMembers(vessels, n - 1, id);
      if vessels[n - 1].id == id {
        assert exists j | 0 <= j < n :: vessels[j].id == id;
      }
    }
  }

  /** The ids, in list order, of the first n listed vessels that are known
      and qualify for a scan: the vessels the loop passes to doScanPass. */
  function Chosen(known0: map<VesselId, Record>, vessels: seq<Ship>, n: nat, scanBackground: bool)
    : seq<VesselId>
    requires n <= |vessels|
  {
    if n == 0 then []
    else
      var ship := vessels[n - 1];
      var r := Chosen(known0, vessels, n - 1, scanBackground);
      if ship.id in known0 && Qualifies(ship, known0[ship.id], scanBackground) then r + [ship.id] else r
  }

  /** r' is what a tick leaves of the record r of the listed vessel ship:
      stamped with the tick, and with its flags recomputed at some altitude
      when the vessel was scanned, untouched otherwise. */
  ghost predicate Updated(r: Record, r': Record, ship: Ship, scanBackground: bool, frameCount: int, ut: real)
  {
    && r' == Stamp(r, ship, frameCount, ut).(sensors := r'.sensors)
    && (Qualifies(ship, r, scanBackground) ==> exists a :: r'.sensors == Classified(r.sensors, a, ship.body.soi))
    && (!Qualifies(ship, r, scanBackground) ==> r'.sensors == r.sensors)
  }

  /** The sum of the sensor counts of the given vessels. */
  function Total(known: map<VesselId, Record>, ids: seq<VesselId>): int
  {
    if ids == [] then 0
    else Total(known, ids[..|ids| - 1]) + (if ids[|ids| - 1] in known then |known[ids[|ids| - 1]].sensors| else 0)
  }

  /** Recomputing the range flags leaves a well-formed table well formed. */
  lemma ClassifiedWellFormed(t: Table, alt: real, soi: real)
    requires WellFormed(t)
    ensures WellFormed(Classified(t, alt, soi))
  {
  }

  /** The keys of a table in the order a dictionary walk yields them (any
      order: the walk's order is not specified). */
  method KeysInOrder(t: Table) returns (order: seq<Mask>)
    ensures Enumerates(order, t)
    ensures |order| == |t|
  {
    var rest := t.Keys;
    order := [];
    while rest != {}
      invariant rest <= t.Keys
      invariant forall k | k in order :: k in t && k !in rest
      invariant forall k | k in t :: k in order || k in rest
      invariant |order| + |rest| == |t|
      decreases |rest|
    {
      var k :| k in rest;
      order := order + [k];
      rest := rest - {k};
    }
  }

  /** One vessel of scanFromAllVessels's loop (SCANcontroller.cs:356-375):
      a qualifying vessel is passed to doScanPass with its record of the
      previous tick, whose flags the pass recomputes; every vessel is then
      stamped with this tick. */
  method TickVessel(r: Record, ship: Ship, scanBackground: bool, resolution: int, ut: real,
                    frameCount: int, maxRes0: int)
    returns (r': Record, scanned: bool, passes: seq<Pass>, actual: nat, maxRes: int)
    ensures Updated(r, r', ship, scanBackground, frameCount, ut)
    ensures scanned <==> Qualifies(ship, r, scanBackground)
    ensures r'.id == r.id && r'.sensors.Keys == r.sensors.Keys
    ensures WellFormed(r.sensors) ==> WellFormed(r'.sensors)
    ensures !scanned ==> passes == [] && actual == 0
    ensures scanned ==> actual >= 1
    ensures maxRes == maxRes0 || maxRes0 < maxRes <= resolution
  {
    r' := r;
    scanned := false;
    passes, actual, maxRes := [], 0, maxRes0;
    if !ship.body.disabled && (ship.body.current || scanBackground) && !ship.debris && |r.sensors| > 0 {
      var order := KeysInOrder(r.sensors);
      var sensors;
      ghost var trace;
      passes, sensors, actual, maxRes, trace :=
        DoScanPass(r.sensors, order, ship.eph, ship.body.coverage, ship.craft, r.lastUT, r.frame,
                   ship.body.soi, ship.body.scale, resolution, ut, ut, r.lastUT, r.latitude,
                   r.longitude, maxRes0);
      r' := r'.(sensors := sensors);
      scanned := true;
      ghost var a :| sensors == Classified(r.sensors, a, ship.body.soi);
      if WellFormed(r.sensors) {
        ClassifiedWellFormed(r.sensors, a, ship.body.soi);
      }
    }
    r' := Stamp(r', ship, frameCount, ut);
  }

  /** The registration fold over one more member is one more step. */
  lemma RegisterPrefixNext(t: Table, i: nat, mask: Mask, given: Profile)
    requires i < |Members|
    ensures RegisterPrefix(t, Members[..i + 1], mask, given)
            == RegisterStep(RegisterPrefix(t, Members[..i], mask, given), Members[i], mask, given)
  {
    assert Members[..i + 1][..i] == Members[..i];
  }

  /** The unregistration fold over one more member is one more step. */
  lemma UnregisterPrefixNext(t: Table, i: nat, mask: Mask)
    requires i < |Members|
    ensures UnregisterPrefix(t, Members[..i + 1], mask)
            == UnregisterStep(UnregisterPrefix(t, Members[..i], mask), Members[i], mask)
  {
    assert Members[..i + 1][..i] == Members[..i];
  }

  /** registerSensor's loop (SCANcontroller.cs:166-190) on the vessel's
      table: walks the enumeration, skips members that are not single bits
      or that the mask does not select, and configures the rest, with the
      built-in defaults when the maximum altitude is not positive. */
  method RegisterTable(t0: Table, sensors: Mask, fov: real, minAlt: real, maxAlt: real, bestAlt: real)
    returns (t: Table)
    ensures t == Register(t0, sensors, Profile(fov, minAlt, maxAlt, bestAlt))
  {
    ghost var given := Profile(fov, minAlt, maxAlt, bestAlt);
    t := t0;
    for i := 0 to |Members|
      invariant t == RegisterPrefix(t0, Members[..i], sensors, given)
    {
      var sensor := Members[i];
      RegisterPrefixNext(t0, i, sensors, given);
      var bits := CountBits(ToWord(sensor));
      if bits != 1 {
        continue;
      }
      if !Meets(sensor, sensors) {
        continue;
      }
      var thisFov, thisMinAlt, thisMaxAlt, thisBestAlt := fov, minAlt, maxAlt, bestAlt;
      if thisMaxAlt <= 0.0 {
        thisMinAlt, thisMaxAlt, thisBestAlt, thisFov := 5000.0, 500000.0, 200000.0, 5.0;
        if Meets(sensor, AltimetryHiRes) {
          thisFov := 3.0;
        }
        if Meets(sensor, AnomalyDetail) {
          thisMinAlt, thisMaxAlt, thisBestAlt, thisFov := 0.0, 2000.0, 0.0, 1.0;
        }
      }
      assert Profile(thisFov, thisMinAlt, thisMaxAlt, thisBestAlt) == Effective(sensor, given);
      var s := if sensor in t then t[sensor] else Sensor(sensor, 0.0, 0.0, 0.0, 0.0, false, false);
      t := t[sensor := s.(sensor := sensor, fov := thisFov, minAlt := thisMinAlt, maxAlt := thisMaxAlt,
                          bestAlt := thisBestAlt)];
    }
    assert Members[..|Members|] == Members;
  }

  /** unregisterSensor's loop (SCANcontroller.cs:198-202) on the vessel's
      table: removes each member the mask meets, if registered. */
  method UnregisterTable(t0: Table, sensors: Mask) returns (t: Table)
    ensures t == Unregister(t0, sensors)
  {
    t := t0;
    for i := 0 to |Members|
      invariant t == UnregisterPrefix(t0, Members[..i], sensors)
    {
      var sensor := Members[i];
      UnregisterPrefixNext(t0, i, sensors);
      if !Meets(sensors, sensor) {
        continue;
      }
      if sensor !in t {
        continue;
      }
      t := t - {sensor};
    }
    assert Members[..|Members|] == Members;
  }

  /** Each record is filed under its own id and its table is well formed. */
  ghost predicate ValidRegistry(known: map<VesselId, Record>)
  {
    forall id | id in known :: known[id].id == id && WellFormed(known[id].sensors)
  }

  /** A vessel is chosen iff one of the first n vessels has its id, is
      known and qualifies; no more vessels are chosen than visited. */
  lemma {:induction false} ChosenMembers(known0: map<VesselId, Record>, vessels: seq<Ship>, n: nat,
                                         scanBackground: bool, id: VesselId)
    requires n <= |vessels|
    ensures |Chosen(known0, vessels, n, scanBackground)| <= n
    ensures id in Chosen(known0, vessels, n, scanBackground) <==>
              exists j | 0 <= j < n :: vessels[j].id == id && id in known0
                                       && Qualifies(vessels[j], known0[id], scanBackground)
  {
    if n > 0 {
      ChosenMembers(known0, vessels, n - 1, scanBackground, id);
      var ship := vessels[n - 1];
      if ship.id == id && id in known0 && Qualifies(ship, known0[id], scanBackground) {
        assert exists j | 0 <= j < n :: vessels[j].id == id && id in known0
                                       && Qualifies(vessels[j], known0[id], scanBackground);
      }
    }
  }

  /** The registry after scanFromAllVessels's loop has visited the first n
      listed vessels: the same vessels; those not yet visited untouched,
      those visited updated. */
  ghost predicate RegistryProgress(known0: map<VesselId, Record>, known: map<VesselId, Record>,
                                   vessels: seq<Ship>, n: nat, scanBackground: bool, frameCount: int, ut: real)
    requires n <= |vessels|
  {
    && ValidRegistry(known)
    && known.Keys == known0.Keys
    && (forall id | id in known && id !in IdsBefore(vessels, n) :: known[id] == known0[id])
    && (forall j | 0 <= j < n && vessels[j].id in known0 ::
          Updated(known0[vessels[j].id], known[vessels[j].id], vessels[j], scanBackground, frameCount, ut))
  }

  /** The counters after the loop has visited the first n listed vessels:
      the vessel and sensor counts are those of the chosen vessels, each
      chosen vessel counted at least one visit, and maxRes is 0 or a depth
      the passes reached. */
  ghost predicate CountProgress(known0: map<VesselId, Record>, vessels: seq<Ship>, n: nat, scanBackground: bool,
                                resolution: int, vesselCount: int, sensorCount: int, actual: nat, maxRes: int)
    requires n <= |vessels|
  {
    var chosen := Chosen(known0, vessels, n, scanBackground);
    && vesselCount == |chosen| && sensorCount == Total(known0, chosen)
    && |chosen| <= actual
    && (maxRes == 0 || 0 < maxRes <= resolution)
  }

  /** Visiting the next listed vessel: the registry keeps its progress when
      a known vessel's record is replaced by its update, and an unknown
      vessel changes nothing. */
  lemma RegistryNext(known0: map<VesselId, Record>, known: map<VesselId, Record>, vessels: seq<Ship>, n: nat,
                     scanBackground: bool, frameCount: int, ut: real, r': Record)
    requires n < |vessels|
    requires forall j | 0 <= j < n :: vessels[j].id != vessels[n].id
    requires RegistryProgress(known0, known, vessels, n, scanBackground, frameCount, ut)
    requires vessels[n].id in known0 ==>
               && Updated(known0[vessels[n].id], r', vessels[n], scanBackground, frameCount, ut)
               && r'.id == vessels[n].id && WellFormed(r'.sensors)
    ensures vessels[n].id !in known0 ==>
              RegistryProgress(known0, known, vessels, n + 1, scanBackground, frameCount, ut)
    ensures vessels[n].id in known0 ==>
              RegistryProgress(known0, known[vessels[n].id := r'], vessels, n + 1, scanBackground, frameCount, ut)
  {
    var id := vessels[n].id;
    IdsBeforeMembers(vessels, n, id);
    assert IdsBefore(vessels, n + 1) == IdsBefore(vessels, n) + {id};
    UpdatedNext(known0, known, vessels, n, scanBackground, frameCount, ut, r');
    if id in known0 {
      var known' := known[id := r'];
      assert ValidRegistry(known') by {
        assert forall x | x in known' && x != id :: known'[x] == known[x];
      }
      assert known'.Keys == known0.Keys;
    }
  }

  /** The visited vessels stay updated when the next one's record is
      replaced by its update. */
  lemma UpdatedNext(known0: map<VesselId, Record>, known: map<VesselId, Record>, vessels: seq<Ship>, n: nat,
                    scanBackground: bool, frameCount: int, ut: real, r': Record)
    requires n < |vessels|
    requires forall j | 0 <= j < n :: vessels[j].id != vessels[n].id
    requires forall j | 0 <= j < n && vessels[j].id in known0 ::
               vessels[j].id in known
               && Updated(known0[vessels[j].id], known[vessels[j].id], vessels[j], scanBackground, frameCount, ut)
    requires vessels[n].id in known0 ==> Updated(known0[vessels[n].id], r', vessels[n], scanBackground, frameCount, ut)
    ensures var known' := if vessels[n].id in known0 then known[vessels[n].id := r'] else known;
            forall j | 0 <= j < n + 1 && vessels[j].id in known0 ::
              vessels[j].id in known'
              && Updated(known0[vessels[j].id], known'[vessels[j].id], vessels[j], scanBackground, frameCount, ut)
  {
    var id := vessels[n].id;
    var known' := if id in known0 then known[id := r'] else known;
    forall j | 0 <= j < n + 1 && vessels[j].id in known0
      ensures vessels[j].id in known'
      ensures Updated(known0[vessels[j].id], known'[vessels[j].id], vessels[j], scanBackground, frameCount, ut)
    {
      var x := vessels[j].id;
      if j < n {
        assert x != id;
        assert known'[x] == known[x];
      } else {
        assert known'[x] == r';
      }
    }
  }

  /** Visiting the next listed vessel: the counters keep their progress,
      counting the vessel and its sensors when it was scanned. */
  lemma CountNext(known0: map<VesselId, Record>, vessels: seq<Ship>, n: nat, scanBackground: bool,
                  resolution: int, vesselCount: int, sensorCount: int, actual: nat, maxRes: int,
                  scannedIt: bool, sensorsHere: int, actualHere: nat, maxRes': int)
    requires n < |vessels|
    requires CountProgress(known0, vessels, n, scanBackground, resolution, vesselCount, sensorCount, actual, maxRes)
    requires scannedIt <==> vessels[n].id in known0 && Qualifies(vessels[n], known0[vessels[n].id], scanBackground)
    requires scannedIt ==> actualHere >= 1 && sensorsHere == |known0[vessels[n].id].sensors|
    requires maxRes' == maxRes || maxRes < maxRes' <= resolution
    ensures CountProgress(known0, vessels, n + 1, scanBackground, resolution,
                          if scannedIt then vesselCount + 1 else vesselCount,
                          if scannedIt then sensorCount + sensorsHere else sensorCount, actual + actualHere, maxRes')
  {
    var chosen := Chosen(known0, vessels, n, scanBackground);
    if scannedIt {
      assert (chosen + [vessels[n].id])[..|chosen|] == chosen;
    }
  }

  /** One vessel of scanFromAllVessels's loop (SCANcontroller.cs:355-376):
      an unknown vessel is skipped; a known one is ticked, and counted when
      it was scanned. */
  method TickNext(known0: map<VesselId, Record>, known: map<VesselId, Record>, vessels: seq<Ship>,
                  n: nat, scanBackground: bool, resolution: int, frameCount: int, ut: real,
                  vesselCount: int, sensorCount: int, actual: nat, maxRes: int)
    returns (known': map<VesselId, Record>, vesselCount': int, sensorCount': int, actual': nat, maxRes': int,
             passes: seq<Pass>)
    requires forall i, j | 0 <= i < j < |vessels| :: vessels[i].id != vessels[j].id
    requires n < |vessels|
    requires RegistryProgress(known0, known, vessels, n, scanBackground, frameCount, ut)
    requires CountProgress(known0, vessels, n, scanBackground, resolution, vesselCount, sensorCount, actual, maxRes)
    ensures RegistryProgress(known0, known', vessels, n + 1, scanBackground, frameCount, ut)
    ensures CountProgress(known0, vessels, n + 1, scanBackground, resolution, vesselCount', sensorCount', actual',
                          maxRes')
  {
    known', vesselCount', sensorCount', actual', maxRes', passes :=
      known, vesselCount, sensorCount, actual, maxRes, [];
    var ship := vessels[n];
    if ship.id !in known {
      assert forall j | 0 <= j < n :: vessels[j].id != vessels[n].id;
      RegistryNext(known0, known, vessels, n, scanBackground, frameCount, ut, NewRecord(ship.id));
      CountNext(known0, vessels, n, scanBackground, resolution, vesselCount, sensorCount, actual, maxRes,
                false, 0, 0, maxRes);
      return;
    }
    var vessel := known[ship.id];
    IdsBeforeMembers(vessels, n, ship.id);
    assert forall j | 0 <= j < n :: vessels[j].id != vessels[n].id;
    var vessel', scannedIt, more, actualHere, mr :=
      TickVessel(vessel, ship, scanBackground, resolution, ut, frameCount, maxRes);
    RegistryNext(known0, known, vessels, n, scanBackground, frameCount, ut, vessel');
    CountNext(known0, vessels, n, scanBackground, resolution, vesselCount, sensorCount, actual, maxRes,
              scannedIt, |vessel'.sensors|, actualHere, mr);
    actual', maxRes', passes := actual + actualHere, mr, more;
    if scannedIt {
      vesselCount' := vesselCount + 1;
      sensorCount' := sensorCount + |vessel'.sensors|;
    }
    known' := known[ship.id := vessel'];
  }

  /** scanFromAllVessels's loop over the listed vessels
      (SCANcontroller.cs:355-376), on the registry as a value. */
  method TickAll(known0: map<VesselId, Record>, vessels: seq<Ship>, scanBackground: bool, resolution: int,
                 frameCount: int, ut: real)
    returns (known: map<VesselId, Record>, vesselCount: int, sensorCount: int, actual: nat, maxRes: int,
             passes: seq<Pass>)
    requires forall i, j | 0 <= i < j < |vessels| :: vessels[i].id != vessels[j].id
    requires ValidRegistry(known0)
    ensures RegistryProgress(known0, known, vessels, |vessels|, scanBackground, frameCount, ut)
    ensures CountProgress(known0, vessels, |vessels|, scanBackground, resolution, vesselCount, sensorCount, actual,
                          maxRes)
  {
    known, vesselCount, sensorCount, actual, maxRes, passes := known0, 0, 0, 0, 0, [];
    for i := 0 to |vessels|
      invariant RegistryProgress(known0, known, vessels, i, scanBackground, frameCount, ut)
      invariant CountProgress(known0, vessels, i, scanBackground, resolution, vesselCount, sensorCount, actual,
                              maxRes)
    {
      var more;
      known, vesselCount, sensorCount, actual, maxRes, more :=
        TickNext(known0, known, vessels, i, scanBackground, resolution, frameCount, ut, vesselCount,
                 sensorCount, actual, maxRes);
      passes := passes + more;
    }
  }

  /** SCANcontroller. */
  class ScanController {
    /** knownVessels: the registry, by vessel id. */
    var knownVessels: map<VesselId, Record>
    /** The gate: the frame and clock reading of the last tick that ran. */
    var lastScanFrame: int
    var lastScanTime: real
    /** The universal time of the last tick that ran. */
    var scanUT: real
    /** The counters of the last tick: vessels scanned, their sensors, the
        visits the passes counted and the deepest refinement reached. */
    var activeVessels: int
    var activeSensors: int
    var actualPasses: nat
    var maxRes: int
    /** Settings: scan vessels around bodies out of focus, and the deepest
        refinement of a pass. */
    var scanBackground: bool
    var timeWarpResolution: int
    /** The registrations made on the coverage maps (SCANdata.registerPass). */
    ghost var registered: seq<Pass>

    /** Each record is filed under its own id and its table is well formed. */
    ghost predicate Valid()
      reads this
    {
      ValidRegistry(knownVessels)
    }

    /** A controller with no vessels and the persistent settings' defaults. */
    constructor ()
      ensures Valid() && knownVessels == map[] && registered == []
      ensures scanBackground && timeWarpResolution == 20
      ensures lastScanFrame == 0 && lastScanTime == 0.0 && scanUT == 0.0
    {
      knownVessels := map[];
      lastScanFrame, lastScanTime, scanUT := 0, 0.0, 0.0;
      activeVessels, activeSensors, actualPasses, maxRes := 0, 0, 0, 0;
      scanBackground, timeWarpResolution := true, 20;
      registered := [];
    }

    /** activeSensorsOnVessel (SCANcontroller.cs:234-239): Nothing for an
        unknown vessel, else the OR of its table's keys, which is the set of
        bits some registered sensor has, in whatever order the keys come. */
    function ActiveSensorsOnVessel(id: VesselId): (r: Mask)
      reads this
      ensures id !in knownVessels ==> r == Nothing
      ensures id in knownVessels ==> r == Active(knownVessels[id].sensors)
      ensures forall i: Bit :: i in r <==> id in knownVessels && exists k | k in knownVessels[id].sensors :: i in k
    {
      if id !in knownVessels then Nothing
      else
        var t := knownVessels[id].sensors;
        var r := set i: Bit | i in Everything && exists k | k in t :: i in k;
        assert r == UnionOf(t.Keys) by {
          forall i: Bit
            ensures i in r <==> i in UnionOf(t.Keys)
          {
            UnionOfBits(t.Keys, i);
          }
        }
        r
    }

    /** isVesselKnown(id, sensor) (SCANcontroller.cs:211-216): the vessel
        is known and one of its registered sensors shares a bit with the
        request. */
    function IsVesselKnownFor(id: VesselId, sensor: Mask): (r: bool)
      reads this
      ensures r <==> id in knownVessels && exists k | k in knownVessels[id].sensors :: Meets(k, sensor)
    {
      if id !in knownVessels then false
      else
        UnionOfMeets(knownVessels[id].sensors.Keys, sensor);
        Meets(ActiveSensorsOnVessel(id), sensor)
    }

    /** isVesselKnown(id) (SCANcontroller.cs:218-221): the vessel has at
        least one registered sensor. */
    function IsVesselKnown(id: VesselId): (r: bool)
      reads this
      ensures r <==> id in knownVessels && exists k :: k in knownVessels[id].sensors
    {
      if id !in knownVessels then false
      else
        var t := knownVessels[id].sensors;
        assert |t| > 0 <==> exists k :: k in t by {
          if |t| > 0 {
            NonEmptyHas(t.Keys);
          }
        }
        |t| > 0
    }

    /** isVesselKnown(vessel) (SCANcontroller.cs:223-226): debris is never
        known. */
    function IsShipKnown(ship: Ship): (r: bool)
      reads this
      ensures r <==> !ship.debris && IsVesselKnown(ship.id)
    {
      if ship.debris then false else IsVesselKnown(ship.id)
    }

    /** getSensorStatus (SCANcontroller.cs:228-232), which reads only the
        vessel's id: the entry for the sensor, None (null) for an unknown
        vessel or sensor. */
    function GetSensorStatus(id: VesselId, sensor: Mask): (r: Option<Sensor>)
      reads this
      ensures r.Some? <==> id in knownVessels && sensor in knownVessels[id].sensors
      ensures r.Some? ==> r.value == knownVessels[id].sensors[sensor]
    {
      if id !in knownVessels then None
      else if sensor !in knownVessels[id].sensors then None
      else Some(knownVessels[id].sensors[sensor])
    }

    /** registerSensor(id, ...) (SCANcontroller.cs:162-191): creates the
        record if the vessel is new, then walks the enumeration and
        (re)configures every single-bit member the mask selects. */
    method RegisterSensorById(id: VesselId, sensors: Mask, fov: real, minAlt: real, maxAlt: real,
                              bestAlt: real)
      requires Valid()
      modifies this`knownVessels
      ensures Valid()
      ensures var r := if id in old(knownVessels) then old(knownVessels)[id] else NewRecord(id);
              knownVessels == old(knownVessels)[id := r.(sensors := Register(r.sensors, sensors,
                                                           Profile(fov, minAlt, maxAlt, bestAlt)))]
      ensures ActiveSensorsOnVessel(id) ==
                (if id in old(knownVessels) then old(ActiveSensorsOnVessel(id)) else Nothing) + Restrict(sensors)
      ensures forall b | Picked(b, sensors) ::
                var t := if id in old(knownVessels) then old(knownVessels)[id].sensors else map[];
                GetSensorStatus(id, b) == Some(Configure(t, b, Effective(b, Profile(fov, minAlt, maxAlt, bestAlt))))
    {
      var sv := if id in knownVessels then knownVessels[id] else NewRecord(id);
      assert sv.id == id;
      sv := sv.(id := id);
      ghost var given := Profile(fov, minAlt, maxAlt, bestAlt);
      var t := RegisterTable(sv.sensors, sensors, fov, minAlt, maxAlt, bestAlt);
      knownVessels := knownVessels[id := sv.(sensors := t)];
      RegisterSpec(sv.sensors, sensors, given);
      RegisterWellFormed(sv.sensors, sensors, given);
      ActiveAfterRegister(sv.sensors, sensors, given);
    }

    /** registerSensor(vessel, ...) (SCANcontroller.cs:155-160): registers by
        id, then records the vessel's normalised position. */
    method RegisterSensor(ship: Ship, sensors: Mask, fov: real, minAlt: real, maxAlt: real, bestAlt: real)
      requires Valid()
      modifies this`knownVessels
      ensures Valid()
      ensures var r := if ship.id in old(knownVessels) then old(knownVessels)[ship.id] else NewRecord(ship.id);
              knownVessels == old(knownVessels)[ship.id := r.(sensors := Register(r.sensors, sensors,
                                                                Profile(fov, minAlt, maxAlt, bestAlt)),
                                                              latitude := Angles.FixLatitude(ship.craft.latitude),
                                                              longitude := Angles.FixLongitude(ship.craft.longitude))]
      ensures ActiveSensorsOnVessel(ship.id) ==
                (if ship.id in old(knownVessels) then old(ActiveSensorsOnVessel(ship.id)) else Nothing)
                + Restrict(sensors)
      ensures ship.craft.latitude >= -270.0 ==> -90.0 <= knownVessels[ship.id].latitude < 90.0
      ensures ship.craft.longitude >= -540.0 ==> -180.0 <= knownVessels[ship.id].longitude < 180.0
    {
      ghost var known0 := knownVessels;
      ghost var r := if ship.id in known0 then known0[ship.id] else NewRecord(ship.id);
      ghost var registered := r.(sensors := Register(r.sensors, sensors, Profile(fov, minAlt, maxAlt, bestAlt)));
      RegisterSensorById(ship.id, sensors, fov, minAlt, maxAlt, bestAlt);
      assert knownVessels == known0[ship.id := registered];
      var sv := knownVessels[ship.id];
      ghost var before := knownVessels;
      var lat := Angles.FixLatitude(ship.craft.latitude);
      var lon := Angles.FixLongitude(ship.craft.longitude);
      knownVessels := knownVessels[ship.id := sv.(latitude := lat, longitude := lon)];
      assert knownVessels == known0[ship.id := registered.(latitude := lat, longitude := lon)];
      assert forall id | id in knownVessels :: knownVessels[id].sensors == before[id].sensors && knownVessels[id].id == before[id].id;
    }

    /** unregisterSensor (SCANcontroller.cs:193-203): a no-op for an unknown
        vessel; otherwise removes every registered member the mask meets and
        keeps the record, even when its table becomes empty. */
    method UnregisterSensor(ship: Ship, sensors: Mask)
      requires Valid()
      modifies this`knownVessels
      ensures Valid()
      ensures ship.id !in old(knownVessels) ==> knownVessels == old(knownVessels)
      ensures ship.id in old(knownVessels) ==>
                knownVessels == old(knownVessels)[ship.id := old(knownVessels)[ship.id].(
                                  sensors := Unregister(old(knownVessels)[ship.id].sensors, sensors))]
      ensures ship.id in old(knownVessels) ==>
                ActiveSensorsOnVessel(ship.id) == old(ActiveSensorsOnVessel(ship.id)) - sensors
      ensures ship.id in old(knownVessels) ==>
                (IsVesselKnown(ship.id) <==> exists k | k in old(knownVessels)[ship.id].sensors :: !Meets(sensors, k))
    {
      if ship.id !in knownVessels {
        return;
      }
      var sv := knownVessels[ship.id].(id := ship.id);
      var t := UnregisterTable(sv.sensors, sensors);
      knownVessels := knownVessels[ship.id := sv.(sensors := t)];
      UnregisterWellFormed(sv.sensors, sensors);
      ActiveAfterUnregister(sv.sensors, sensors);
      UnregisterEmpties(sv.sensors, sensors);
    }

    /** scanFromAllVessels (SCANcontroller.cs:344-379): unless the gate
        holds, records this tick, clears the counters, scans every known
        vessel that qualifies with doScanPass from its record of the previous
        tick, and then stamps every known listed vessel with this tick, its
        frame and its normalised position. Vessels not listed, and unknown
        listed vessels, are left alone. */
    method ScanFromAllVessels(now: real, frameCount: int, ut: real, vessels: seq<Ship>) returns (ran: bool)
      requires Valid()
      requires forall i, j | 0 <= i < j < |vessels| :: vessels[i].id != vessels[j].id
      modifies this
      ensures Valid()
      ensures ran <==> !Gated(old(lastScanTime), old(lastScanFrame), now, frameCount)
      ensures !ran ==> unchanged(this)
      ensures scanBackground == old(scanBackground) && timeWarpResolution == old(timeWarpResolution)
      ensures ran ==> lastScanFrame == frameCount && lastScanTime == now && scanUT == ut
      ensures ran ==> RegistryProgress(old(knownVessels), knownVessels, vessels, |vessels|, scanBackground,
                                       frameCount, ut)
      ensures ran ==> CountProgress(old(knownVessels), vessels, |vessels|, scanBackground, timeWarpResolution,
                                    activeVessels, activeSensors, actualPasses, maxRes)
      ensures old(registered) <= registered
    {
      if now - lastScanTime < 1.0 && now > lastScanTime {
        return false;
      }
      if lastScanFrame == frameCount {
        return false;
      }
      ran := true;
      lastScanFrame, lastScanTime, scanUT := frameCount, now, ut;
      var known, count, sensorCount, passes;
      var known0 := knownVessels;
      known, count, sensorCount, actualPasses, maxRes, passes :=
        TickAll(known0, vessels, scanBackground, timeWarpResolution, frameCount, ut);
      assert RegistryProgress(known0, known, vessels, |vessels|, scanBackground, frameCount, ut);
      knownVessels := known;
      registered := registered + passes;
      activeVessels, activeSensors := count, sensorCount;
    }
  }
}
