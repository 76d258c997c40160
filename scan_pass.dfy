/** doScanPass (SCANcontroller.cs:381-486): the recursion over the time since
    the previous tick, unrolled into a loop over a FIFO queue of doubles,
    six per pending branch. Each visited sample runs every sensor of the
    vessel and passes its footprint to the coverage map. */
module ScanPass {
  import opened Wrappers
  import opened ScanType
  import opened Sensors
  import opened Footprint
  import Angles

  /** A position: altitude and the body-fixed latitude and longitude. */
  datatype Fix = Fix(alt: real, lat: real, lon: real)

  /** The KSP vessel's own state at the time of the tick. */
  datatype Craft = Craft(heightFromTerrain: real, altitude: real, latitude: real, longitude: real,
                         landed: bool)

  /** One visit of the loop: the branch's time, its depth, the previous
      sample it is compared with, the sample it took (None when the orbit
      could not be evaluated) and the registrations it made. */
  datatype Visit = Visit(ut: real, depth: nat, llat: real, llon: real, sample: Option<Fix>,
                         cells: seq<Pass>)

  /** Math.Abs. */
  function Abs(x: real): (r: real)
    ensures r >= 0.0 && (r == x || r == -x)
  {
    if x < 0.0 then -x else x
  }

  /** The sample at the vessel itself (depth 0): height above the terrain,
      or the altitude when that is negative, at the normalised position. */
  function Surface(c: Craft): (f: Fix)
    ensures c.heightFromTerrain >= 0.0 ==> f.alt == c.heightFromTerrain
    ensures c.heightFromTerrain < 0.0 ==> f.alt == c.altitude
    ensures f.lat == Angles.FixLatitude(c.latitude) && f.lon == Angles.FixLongitude(c.longitude)
    ensures c.latitude >= -270.0 ==> -90.0 <= f.lat < 90.0
    ensures c.longitude >= -540.0 ==> -180.0 <= f.lon < 180.0
  {
    Fix(if c.heightFromTerrain < 0.0 then c.altitude else c.heightFromTerrain,
        Angles.FixLatitude(c.latitude), Angles.FixLongitude(c.longitude))
  }

  /** A sample taken from the orbit: a negative altitude counts as zero and
      the angles are normalised. */
  function OnOrbit(raw: Fix): (f: Fix)
    ensures raw.alt >= 0.0 ==> f.alt == raw.alt
    ensures raw.alt < 0.0 ==> f.alt == 0.0
    ensures f.lat == Angles.FixLatitude(raw.lat) && f.lon == Angles.FixLongitude(raw.lon)
    ensures raw.lat >= -270.0 ==> -90.0 <= f.lat < 90.0
    ensures raw.lon >= -540.0 ==> -180.0 <= f.lon < 180.0
  {
    Fix(if raw.alt < 0.0 then 0.0 else raw.alt, Angles.FixLatitude(raw.lat), Angles.FixLongitude(raw.lon))
  }

  /** The sample lies within a degree of the previous one in both angles. */
  predicate Converged(f: Fix, llat: real, llon: real)
  {
    Abs(f.lat - llat) < 1.0 && Abs(f.lon - llon) < 1.0
  }

  /** order lists the keys of t: the walk over the dictionary's values. */
  predicate Enumerates(order: seq<Mask>, t: Table)
  {
    (forall k | k in t :: k in order) && (forall k | k in order :: k in t)
  }

  /** The coverage map reports a value of at most zero for every sensor of
      the vessel (the test data.getCoverage(sensor) > 0 fails for all). */
  predicate Uncovered(t: Table, coverage: Mask -> real)
  {
    forall k | k in t :: coverage(t[k].sensor) <= 0.0
  }

  /** The registrations the sensor loop makes at one sample, sensors taken
      in the given order. */
  function StepCells(t: Table, order: seq<Mask>, f: Fix, soi: real, scale: real): seq<Pass>
    requires forall k | k in order :: k in t
  {
    if order == [] then []
    else
      var k := order[|order| - 1];
      StepCells(t, order[..|order| - 1], f, soi, scale) + SensorCells(t[k], f.alt, soi, scale, f.lon, f.lat)
  }

  /** The table after the sensor loop has recomputed the flags of the
      entries in ks. */
  function Reflag(t: Table, ks: seq<Mask>, alt: real, soi: real): Table
    requires forall k | k in ks :: k in t
  {
    if ks == [] then t
    else
      var k := ks[|ks| - 1];
      Reflag(t, ks[..|ks| - 1], alt, soi)[k := Flagged(t[k], alt, soi)]
  }

  /** What the sensor loop has done to entry k after visiting ks. */
  lemma {:induction false} ReflagAt(t: Table, ks: seq<Mask>, alt: real, soi: real, k: Mask)
    requires forall j | j in ks :: j in t
    ensures Reflag(t, ks, alt, soi).Keys == t.Keys
    ensures k in t ==> Reflag(t, ks, alt, soi)[k] == if k in ks then Flagged(t[k], alt, soi) else t[k]
  {
    if ks != [] {
      var last := ks[|ks| - 1];
      ReflagAt(t, ks[..|ks| - 1], alt, soi, k);
      if k != last && k in ks {
        assert k in ks[..|ks| - 1];
      }
    }
  }

  /** A sensor's registrations at a sample: exactly the union of the
      registrations of the sensors visited. */
  lemma {:induction false} StepCellsMembers(t: Table, order: seq<Mask>, f: Fix, soi: real, scale: real, p: Pass)
    requires forall k | k in order :: k in t
    ensures p in StepCells(t, order, f, soi, scale) <==>
              exists k | k in order :: p in SensorCells(t[k], f.alt, soi, scale, f.lon, f.lat)
  {
    if order != [] {
      var init := order[..|order| - 1];
      StepCellsMembers(t, init, f, soi, scale, p);
      if exists k | k in order :: p in SensorCells(t[k], f.alt, soi, scale, f.lon, f.lat) {
        var k :| k in order && p in SensorCells(t[k], f.alt, soi, scale, f.lon, f.lat);
        if k != order[|order| - 1] {
          assert k in init;
        }
      }
    }
  }

  /** Every registration at a sample is for one of the vessel's sensors, at
      a whole offset of at most 20 degrees from the sample in each angle. */
  lemma SampleCellsNear(t: Table, order: seq<Mask>, f: Fix, soi: real, scale: real, p: Pass)
    requires forall k | k in order :: k in t
    requires p in StepCells(t, order, f, soi, scale)
    ensures exists k | k in order :: p.sensor == t[k].sensor
    ensures Angles.Whole(p.lon - f.lon) && -20.0 <= p.lon - f.lon <= 20.0
    ensures Angles.Whole(p.lat - f.lat) && -20.0 <= p.lat - f.lat <= 20.0
  {
    StepCellsMembers(t, order, f, soi, scale, p);
    var k :| k in order && p in SensorCells(t[k], f.alt, soi, scale, f.lon, f.lat);
    CellNear(t[k], f.alt, soi, scale, f.lon, f.lat, p);
  }

  /** Recomputing the flags leaves the registrations alone: they depend on
      the configuration only. */
  lemma {:induction false} ClassifiedCells(t: Table, a: real, order: seq<Mask>, f: Fix, soi: real, scale: real)
    requires forall k | k in order :: k in t
    ensures forall k | k in order :: k in Classified(t, a, soi)
    ensures StepCells(Classified(t, a, soi), order, f, soi, scale) == StepCells(t, order, f, soi, scale)
  {
    if order != [] {
      var k := order[|order| - 1];
      ClassifiedCells(t, a, order[..|order| - 1], f, soi, scale);
      FlagsIgnored(t[k], a, soi, f, scale);
    }
  }

  /** The projected field of view reads the field of view and the best
      altitude only. */
  lemma SameProjection(s1: Sensor, s2: Sensor, alt: real, soi: real, scale: real)
    requires s1.fov == s2.fov && s1.bestAlt == s2.bestAlt
    ensures ProjectedFov(s1, alt, soi, scale) == ProjectedFov(s2, alt, soi, scale)
  {
    var ba := Min(s1.bestAlt, soi);
    if !(alt < ba && ba == 0.0) {
      var v := (if alt < ba then (alt / ba) * s1.fov else s1.fov) * scale;
      var r := if v > 20.0 then 20.0 else v;
      assert ProjectedFov(s1, alt, soi, scale).value == r;
      assert ProjectedFov(s2, alt, soi, scale).value == r;
    }
  }

  /** A sensor's footprint does not depend on its flags. */
  lemma FlagsIgnored(s: Sensor, a: real, soi: real, f: Fix, scale: real)
    ensures SensorCells(Flagged(s, a, soi), f.alt, soi, scale, f.lon, f.lat) ==
              SensorCells(s, f.alt, soi, scale, f.lon, f.lat)
  {
    var g := Flagged(s, a, soi);
    assert g.sensor == s.sensor && g.fov == s.fov && g.minAlt == s.minAlt && g.maxAlt == s.maxAlt && g.bestAlt == s.bestAlt;
    assert InRange(g, f.alt, soi) == InRange(s, f.alt, soi);
    SameProjection(g, s, f.alt, soi, scale);
  }

  /** One iteration of the sensor loop, as StepCells and Reflag see it:
      the entry visited holds its configuration, with old or new flags. */
  lemma SensorLoopStep(t: Table, order: seq<Mask>, i: int, f: Fix, soi: real, scale: real)
    requires Enumerates(order, t) && 0 <= i < |order|
    ensures order[i] in t
    ensures Reflag(t, order[..i], f.alt, soi).Keys == t.Keys
    ensures var s := Reflag(t, order[..i], f.alt, soi)[order[i]];
            && s.sensor == t[order[i]].sensor
            && Flagged(s, f.alt, soi) == Flagged(t[order[i]], f.alt, soi)
            && SensorCells(s, f.alt, soi, scale, f.lon, f.lat) == SensorCells(t[order[i]], f.alt, soi, scale, f.lon, f.lat)
    ensures Reflag(t, order[..i + 1], f.alt, soi) ==
              Reflag(t, order[..i], f.alt, soi)[order[i] := Flagged(t[order[i]], f.alt, soi)]
    ensures StepCells(t, order[..i + 1], f, soi, scale) ==
              StepCells(t, order[..i], f, soi, scale) + SensorCells(t[order[i]], f.alt, soi, scale, f.lon, f.lat)
  {
    assert order[..i + 1][..i] == order[..i];
    ReflagAt(t, order[..i], f.alt, soi, order[i]);
    FlagsIgnored(t[order[i]], f.alt, soi, f, scale);
  }

  /** After the whole walk every entry has its flags recomputed. */
  lemma ReflagAll(t: Table, order: seq<Mask>, alt: real, soi: real)
    requires Enumerates(order, t)
    ensures Reflag(t, order, alt, soi) == Classified(t, alt, soi)
  {
    ReflagAt(t, order, alt, soi, Nothing);
    forall k | k in t
      ensures Reflag(t, order, alt, soi)[k] == Classified(t, alt, soi)[k]
    {
      ReflagAt(t, order, alt, soi, k);
    }
  }

  /** The sensor loop (SCANcontroller.cs:419-447): every entry gets its flags
      recomputed and registers its footprint; at depth 0 the sample is
      uncovered when no sensor has any coverage. */
  method SampleSensors(t: Table, order: seq<Mask>, f: Fix, soi: real, scale: real, res: real,
                       coverage: Mask -> real)
    returns (cells: seq<Pass>, flagged: Table, uncovered: bool)
    requires Enumerates(order, t)
    ensures cells == StepCells(t, order, f, soi, scale)
    ensures flagged == Classified(t, f.alt, soi)
    ensures uncovered <==> res <= 0.0 && Uncovered(t, coverage)
  {
    cells := [];
    flagged := t;
    uncovered := res <= 0.0;
    for i := 0 to |order|
      invariant cells == StepCells(t, order[..i], f, soi, scale)
      invariant flagged == Reflag(t, order[..i], f.alt, soi)
      invariant uncovered <==> res <= 0.0 && forall j | 0 <= j < i :: coverage(t[order[j]].sensor) <= 0.0
    {
      cells, flagged, uncovered := SampleOne(t, order, i, f, soi, scale, res, coverage, cells, flagged, uncovered);
    }
    assert order[..|order|] == order;
    ReflagAll(t, order, f.alt, soi);
    UncoveredByOrder(t, order, coverage);
  }

  /** One sensor of the walk (SCANcontroller.cs:419-446): a sensor with
      coverage clears the uncovered flag on the first visit, and the sensor's
      flags and cells are those of SensorPass. */
  method SampleOne(t: Table, order: seq<Mask>, i: int, f: Fix, soi: real, scale: real, res: real,
                   coverage: Mask -> real, cells0: seq<Pass>, flagged0: Table, uncovered0: bool)
    returns (cells: seq<Pass>, flagged: Table, uncovered: bool)
    requires Enumerates(order, t) && 0 <= i < |order|
    requires cells0 == StepCells(t, order[..i], f, soi, scale)
    requires flagged0 == Reflag(t, order[..i], f.alt, soi)
    requires uncovered0 <==> res <= 0.0 && forall j | 0 <= j < i :: coverage(t[order[j]].sensor) <= 0.0
    ensures cells == StepCells(t, order[..i + 1], f, soi, scale)
    ensures flagged == Reflag(t, order[..i + 1], f.alt, soi)
    ensures uncovered <==> res <= 0.0 && forall j | 0 <= j < i + 1 :: coverage(t[order[j]].sensor) <= 0.0
  {
    SensorLoopStep(t, order, i, f, soi, scale);
    var k := order[i];
    var s := flagged0[k];
    uncovered := uncovered0;
    if res <= 0.0 && coverage(s.sensor) > 0.0 {
      uncovered := false;
    }
    var c, g := SensorPass(s, f.alt, soi, scale, f.lon, f.lat);
    flagged := flagged0[k := g];
    cells := cells0 + c;
  }

  /** The walk finds some coverage iff some sensor of the table has it. */
  lemma UncoveredByOrder(t: Table, order: seq<Mask>, coverage: Mask -> real)
    requires Enumerates(order, t)
    ensures Uncovered(t, coverage) <==> forall j | 0 <= j < |order| :: coverage(t[order[j]].sensor) <= 0.0
  {
    if !Uncovered(t, coverage) {
      var k :| k in t && coverage(t[k].sensor) > 0.0;
      assert k in order;
      var j :| 0 <= j < |order| && order[j] == k;
    }
  }
  /** The deepest level the pass refines to. */
  function MaxDepth(resolution: int): nat
  {
    if resolution > 0 then resolution else 0
  }

  /** 2 to the power n. */
  function Pow2(n: nat): (r: nat)
    ensures r >= 1
  {
    if n == 0 then 1 else 2 * Pow2(n - 1)
  }

  /** The number of visits a full binary tree of branches rooted at depth d
      can make when branches at depth rm are not refined further. */
  function Nodes(d: nat, rm: nat): (r: nat)
    requires d <= rm
    ensures r >= 1
  {
    Pow2(rm + 1 - d) - 1
  }

  /** A visit that refines replaces its own weight by two children's. */
  lemma NodesSplit(d: nat, rm: nat)
    requires d < rm
    ensures Nodes(d, rm) == 1 + 2 * Nodes(d + 1, rm)
  {
    assert Pow2(rm + 1 - d) == 2 * Pow2(rm - d);
  }

  /** r is the depth of a queued branch: a whole number from 1 to rm. */
  predicate IsDepth(r: real, rm: nat)
  {
    r.Floor as real == r && 1 <= r.Floor <= rm
  }

  /** The queue holds whole branches, six doubles each (time, start time,
      end time, latitude, longitude, depth), with depths from 1 to rm. */
  predicate Queued(q: seq<real>, rm: nat)
    decreases |q|
  {
    |q| == 0 || (|q| >= 6 && IsDepth(q[5], rm) && Queued(q[6..], rm))
  }

  /** The visits the queued branches can still make. */
  function Weight(q: seq<real>, rm: nat): nat
    requires Queued(q, rm)
    decreases |q|
  {
    if |q| == 0 then 0 else Nodes(q[5].Floor, rm) + Weight(q[6..], rm)
  }

  /** The queue's length is a multiple of six. */
  lemma {:induction false} QueuedLength(q: seq<real>, rm: nat)
    requires Queued(q, rm)
    ensures |q| % 6 == 0
    decreases |q|
  {
    if |q| > 0 {
      QueuedLength(q[6..], rm);
    }
  }

  /** Enqueueing a branch keeps the queue whole and adds the branch's
      weight. */
  lemma {:induction false} QueuedAppend(q: seq<real>, c: seq<real>, rm: nat)
    requires Queued(q, rm) && |c| == 6 && IsDepth(c[5], rm)
    ensures Queued(q + c, rm)
    ensures Weight(q + c, rm) == Weight(q, rm) + Nodes(c[5].Floor, rm)
    decreases |q|
  {
    if |q| == 0 {
      assert q + c == c;
      assert c[6..] == [];
    } else {
      QueuedAppend(q[6..], c, rm);
      assert (q + c)[6..] == q[6..] + c;
    }
  }

  /** The registrations of a sequence of visits, in order. */
  function Registered(trace: seq<Visit>): seq<Pass>
  {
    if trace == [] then [] else Registered(trace[..|trace| - 1]) + trace[|trace| - 1].cells
  }

  /** Where a branch samples: the vessel itself at depth 0, the orbit at
      the branch's time below (None when the orbit cannot be evaluated). */
  function SampleAt(eph: real -> Option<Fix>, craft: Craft, ut: real, res: real): Option<Fix>
  {
    if res > 0.0 then
      match eph(ut)
      case None => None
      case Some(raw) => Some(OnOrbit(raw))
    else Some(Surface(craft))
  }

  /** The visit runs the sensors: it has a sample and, below depth 0, the
      sample is not within a degree of the previous one. */
  predicate Runs(v: Visit)
  {
    v.sample.Some? && !(v.depth > 0 && Converged(v.sample.value, v.llat, v.llon))
  }

  /** What a visit registers: every sensor's footprint at the sample when it
      runs the sensors, nothing otherwise. */
  function VisitCells(t: Table, order: seq<Mask>, soi: real, scale: real, v: Visit): seq<Pass>
    requires forall k | k in order :: k in t
  {
    if Runs(v) then StepCells(t, order, v.sample.value, soi, scale) else []
  }

  /** The conditions under which the pass ends after its first sample: no
      sensor has coverage yet, the vessel has never been scanned before or
      is landed, or the resolution allows no refinement. */
  predicate Stops(t: Table, coverage: Mask -> real, vesselLastUT: real, frame: int, landed: bool, resolution: int)
  {
    Uncovered(t, coverage) || vesselLastUT <= 0.0 || frame <= 0 || landed || resolution <= 0
  }

  /** Recomputing the flags twice is recomputing them once, for the later
      altitude. */
  lemma ClassifiedTwice(t: Table, a: real, b: real, soi: real)
    ensures Classified(Classified(t, a, soi), b, soi) == Classified(t, b, soi)
  {
    var l := Classified(Classified(t, a, soi), b, soi);
    var r := Classified(t, b, soi);
    assert l.Keys == r.Keys;
    forall k | k in l
      ensures l[k] == r[k]
    {
      var s := t[k];
      var g := Flagged(s, a, soi);
      assert g.minAlt == s.minAlt && g.maxAlt == s.maxAlt && g.bestAlt == s.bestAlt;
    }
  }

  /** Recomputed flags do not change which sensors have coverage. */
  lemma ClassifiedUncovered(t: Table, a: real, soi: real, coverage: Mask -> real)
    ensures Uncovered(Classified(t, a, soi), coverage) <==> Uncovered(t, coverage)
  {
  }

  /** Where the loop goes after a visit: return from the pass, take the
      next queued branch, or refine into the newer half. */
  datatype Next = Return | Dequeue | Refine

  /** One visit of doScanPass's loop (SCANcontroller.cs:392-458): take the
      sample, skip it when the orbit cannot be evaluated or it has converged,
      otherwise run the sensors and decide where to go next. */
  method VisitBranch(t: Table, ghost lastAlt: Option<real>, sensors: Table, order: seq<Mask>,
                     eph: real -> Option<Fix>, coverage: Mask -> real, craft: Craft,
                     vesselLastUT: real, frame: int, soi: real, scale: real, resolution: int,
                     ut: real, ghost depth: nat, res: real, llat: real, llon: real, maxRes0: int)
    returns (sample: Option<Fix>, cells: seq<Pass>, flagged: Table, counted: bool, next: Next, maxRes: int)
    requires Enumerates(order, t) && res == depth as real
    requires sensors == if lastAlt.None? then t else Classified(t, lastAlt.value, soi)
    ensures sample == SampleAt(eph, craft, ut, res)
    ensures var v := Visit(ut, depth, llat, llon, sample, cells);
            && cells == VisitCells(t, order, soi, scale, v)
            && (counted <==> Runs(v))
    ensures counted ==> flagged == Classified(t, sample.value.alt, soi)
    ensures !counted ==> flagged == sensors && next == Dequeue
    ensures counted ==>
              (next == Return <==>
                 (depth == 0 && Uncovered(t, coverage)) || vesselLastUT <= 0.0 || frame <= 0 || craft.landed)
    ensures counted && next != Return ==> (next == Refine <==> res < resolution as real)
    ensures maxRes == maxRes0 || (maxRes0 < maxRes && maxRes == depth && depth > 0)
  {
    maxRes := maxRes0;
    var f: Fix;
    if res > 0.0 {
      var e := eph(ut);
      if e.None? {
        return None, [], sensors, false, Dequeue, maxRes;
      }
      f := OnOrbit(e.value);
      if res > maxRes as real {
        maxRes := Angles.Truncate(res);
      }
    } else {
      f := Surface(craft);
    }
    if Abs(f.lat - llat) < 1.0 && Abs(f.lon - llon) < 1.0 && res > 0.0 {
      return Some(f), [], sensors, false, Dequeue, maxRes;
    }
    if lastAlt.Some? {
      ClassifiedCells(t, lastAlt.value, order, f, soi, scale);
      ClassifiedUncovered(t, lastAlt.value, soi, coverage);
      ClassifiedTwice(t, lastAlt.value, f.alt, soi);
    }
    var uncovered;
    cells, flagged, uncovered := SampleSensors(sensors, order, f, soi, scale, res, coverage);
    sample := Some(f);
    counted := true;
    if uncovered || vesselLastUT <= 0.0 || frame <= 0 || craft.landed {
      next := Return;
    } else if res >= resolution as real {
      next := Dequeue;
    } else {
      next := Refine;
    }
  }

  /** Every visit of the trace registered what VisitCells says, and every
      visit after the first is at a depth from 1 to rm. */
  ghost predicate TraceOk(trace: seq<Visit>, t: Table, order: seq<Mask>, soi: real, scale: real, rm: nat)
    requires forall k | k in order :: k in t
  {
    forall i | 0 <= i < |trace| ::
      trace[i].cells == VisitCells(t, order, soi, scale, trace[i]) && (i > 0 ==> 1 <= trace[i].depth <= rm)
  }

  /** Extending the trace by a visit made below depth 0. */
  lemma TraceExtend(trace: seq<Visit>, v: Visit, t: Table, order: seq<Mask>, soi: real, scale: real, rm: nat)
    requires forall k | k in order :: k in t
    requires TraceOk(trace, t, order, soi, scale, rm) && |trace| > 0
    requires v.cells == VisitCells(t, order, soi, scale, v) && 1 <= v.depth <= rm
    ensures TraceOk(trace + [v], t, order, soi, scale, rm)
    ensures Registered(trace + [v]) == Registered(trace) + v.cells
  {
    assert (trace + [v])[..|trace|] == trace;
  }

  /** The loop's variables for the branch being visited: its time, the
      start and end of its interval, the previous sample's angles and its
      depth, all doubles as in the queue. */
  datatype Branch = Branch(ut: real, startUT: real, lastUT: real, llat: real, llon: real, res: real)

  /** The six doubles a branch occupies in the queue. */
  function Encode(b: Branch): (q: seq<real>)
    ensures |q| == 6 && q[5] == b.res
  {
    [b.ut, b.startUT, b.lastUT, b.llat, b.llon, b.res]
  }

  /** The branch the six doubles at the head of the queue describe. */
  function Decode(q: seq<real>): Branch
    requires |q| >= 6
  {
    Branch(q[0], q[1], q[2], q[3], q[4], q[5])
  }

  /** Dequeueing a branch gives back the branch enqueued. */
  lemma DecodeEncode(b: Branch, rest: seq<real>)
    ensures Decode(Encode(b) + rest) == b
  {
  }

  /** The end of a visit (SCANcontroller.cs:457-485): refine into the newer
      half of the interval, queueing the older half when there is one, or
      take the next queued branch, or stop. lat and lon are the visit's
      sample. */
  method Advance(b: Branch, ghost depth: nat, lat: real, lon: real, next: Next, queue: seq<real>, ghost rm: nat)
    returns (b': Branch, ghost depth': nat, queue': seq<real>, running: bool)
    requires Queued(queue, rm) && depth <= rm && b.res == depth as real
    requires next == Refine ==> depth < rm
    ensures Queued(queue', rm)
    ensures running ==> 1 <= depth' <= rm && b'.res == depth' as real
    ensures (if running then Nodes(depth', rm) else 0) + Weight(queue', rm) < Nodes(depth, rm) + Weight(queue, rm)
    ensures next == Return ==> !running
    ensures !running ==> queue' == queue
    ensures next == Refine ==>
              && running && depth' == depth + 1
              && b' == Branch((b.lastUT + b.ut) / 2.0, b.ut, b.lastUT, lat, lon, b.res + 1.0)
              && queue' == queue + (if b.startUT > b.ut
                                    then Encode(Branch((b.startUT + b.ut) / 2.0, b.startUT, b.ut, lat, lon, b.res + 1.0))
                                    else [])
    ensures next == Dequeue ==>
              && (running <==> |queue| > 0)
              && (running ==> b' == Decode(queue) && queue' == queue[6..])
  {
    b', depth', queue', running := b, depth, queue, false;
    if next == Refine {
      NodesSplit(depth, rm);
      if b.startUT > b.ut {
        var older := Encode(Branch((b.startUT + b.ut) / 2.0, b.startUT, b.ut, lat, lon, b.res + 1.0));
        assert older[5] == (depth + 1) as real;
        assert IsDepth(older[5], rm);
        QueuedAppend(queue, older, rm);
        queue' := queue + older;
      }
      b' := Branch((b.lastUT + b.ut) / 2.0, b.ut, b.lastUT, lat, lon, b.res + 1.0);
      depth' := depth + 1;
      running := true;
    } else if next == Dequeue && |queue| > 0 {
      b' := Decode(queue);
      depth' := queue[5].Floor;
      queue' := queue[6..];
      running := true;
    }
  }

  /** The number of visits of a trace that ran the sensors. */
  function RunCount(trace: seq<Visit>): (n: nat)
    ensures n <= |trace|
  {
    if trace == [] then 0
    else RunCount(trace[..|trace| - 1]) + (if Runs(trace[|trace| - 1]) then 1 else 0)
  }

  /** Visit j ran the sensors one level above depth d and sampled the
      angles (lat, lon): a branch at depth d that compares its sample with
      (lat, lon) was refined from it. */
  ghost predicate ChildOf(trace: seq<Visit>, j: int, d: int, lat: real, lon: real)
  {
    && 0 <= j < |trace| && Runs(trace[j]) && trace[j].depth + 1 == d
    && trace[j].sample.value.lat == lat && trace[j].sample.value.lon == lon
  }

  /** Some visit of the trace is the parent of a branch at depth d that
      compares with (lat, lon). */
  ghost predicate HasParent(trace: seq<Visit>, d: int, lat: real, lon: real)
  {
    exists j :: ChildOf(trace, j, d, lat, lon)
  }

  /** Every visit after the first compares its sample with the sample of an
      earlier visit, one level up, that ran the sensors. */
  ghost predicate Linked(trace: seq<Visit>)
  {
    forall i | 1 <= i < |trace| :: HasParent(trace[..i], trace[i].depth, trace[i].llat, trace[i].llon)
  }

  /** A branch's interval lies within [lo, hi], its time inside it. */
  predicate Within(b: Branch, lo: real, hi: real)
  {
    lo <= b.lastUT <= b.ut <= b.startUT <= hi
  }

  /** Every queued branch has a parent in the trace and, when timed, an
      interval within [lo, hi]. */
  ghost predicate Pending(q: seq<real>, trace: seq<Visit>, lo: real, hi: real, timed: bool)
    decreases |q|
  {
    || |q| == 0
    || (&& |q| >= 6 && (timed ==> Within(Decode(q), lo, hi))
        && HasParent(trace, q[5].Floor, q[3], q[4]) && Pending(q[6..], trace, lo, hi, timed))
  }

  /** A parent stays a parent when the trace grows. */
  lemma HasParentGrow(trace: seq<Visit>, v: Visit, d: int, lat: real, lon: real)
    requires HasParent(trace, d, lat, lon)
    ensures HasParent(trace + [v], d, lat, lon)
  {
    var j :| ChildOf(trace, j, d, lat, lon);
    assert (trace + [v])[j] == trace[j];
    assert ChildOf(trace + [v], j, d, lat, lon);
  }

  /** The queued branches keep their parents when the trace grows. */
  lemma {:induction false} PendingGrow(q: seq<real>, trace: seq<Visit>, v: Visit, lo: real, hi: real,
                                       timed: bool)
    requires Pending(q, trace, lo, hi, timed)
    ensures Pending(q, trace + [v], lo, hi, timed)
    decreases |q|
  {
    if |q| > 0 {
      HasParentGrow(trace, v, q[5].Floor, q[3], q[4]);
      PendingGrow(q[6..], trace, v, lo, hi, timed);
    }
  }

  /** Enqueueing a branch with a parent and, when timed, an interval within
      [lo, hi]. */
  lemma {:induction false} PendingAppend(q: seq<real>, c: seq<real>, trace: seq<Visit>, lo: real, hi: real,
                                         timed: bool)
    requires Pending(q, trace, lo, hi, timed) && |c| == 6
    requires (timed ==> Within(Decode(c), lo, hi)) && HasParent(trace, c[5].Floor, c[3], c[4])
    ensures Pending(q + c, trace, lo, hi, timed)
    decreases |q|
  {
    if |q| == 0 {
      assert q + c == c;
      assert c[6..] == [];
    } else {
      PendingAppend(q[6..], c, trace, lo, hi, timed);
      assert (q + c)[6..] == q[6..] + c;
      assert Decode(q + c) == Decode(q);
      assert (q + c)[3] == q[3] && (q + c)[4] == q[4] && (q + c)[5] == q[5];
    }
  }

  /** Appending a visit whose parent is in the trace keeps it linked. */
  lemma LinkedExtend(trace: seq<Visit>, v: Visit)
    requires Linked(trace) && HasParent(trace, v.depth, v.llat, v.llon)
    ensures Linked(trace + [v])
  {
    var t' := trace + [v];
    forall i | 1 <= i < |t'|
      ensures HasParent(t'[..i], t'[i].depth, t'[i].llat, t'[i].llon)
    {
      if i < |trace| {
        assert t'[..i] == trace[..i];
      } else {
        assert t'[..i] == trace;
      }
    }
  }

  /** Linked, read back as a statement about indices. */
  lemma LinkedParents(trace: seq<Visit>, i: int)
    requires Linked(trace) && 1 <= i < |trace|
    ensures exists j | 0 <= j < i ::
              && Runs(trace[j]) && trace[j].depth + 1 == trace[i].depth
              && trace[i].llat == trace[j].sample.value.lat && trace[i].llon == trace[j].sample.value.lon
  {
    var j :| ChildOf(trace[..i], j, trace[i].depth, trace[i].llat, trace[i].llon);
    assert trace[..i][j] == trace[j];
  }

  /** The inputs that stay fixed during a pass: the vessel's sensor table
      and the order the dictionary walks it in, the orbit, the coverage
      map, the vessel's own state, the vessel's record of the previous
      tick, the body's sphere of influence and surface scale, and
      timeWarpResolution. */
  datatype Env = Env(t: Table, order: seq<Mask>, eph: real -> Option<Fix>, coverage: Mask -> real,
                     craft: Craft, vesselLastUT: real, frame: int, soi: real, scale: real,
                     resolution: int)

  /** The loop's state: the branch being visited, the queue, whether the
      loop goes on, and what the pass has produced so far. */
  datatype Scan = Scan(b: Branch, queue: seq<real>, running: bool, passes: seq<Pass>, sensors: Table,
                       actualPasses: nat, maxRes: int)

  /** The pass ends after its first visit. */
  predicate EnvStops(e: Env)
  {
    Stops(e.t, e.coverage, e.vesselLastUT, e.frame, e.craft.landed, e.resolution)
  }

  /** The visits still possible from a loop state. */
  function Measure(e: Env, s: Scan, depth: nat): nat
    requires Queued(s.queue, MaxDepth(e.resolution)) && (s.running ==> depth <= MaxDepth(e.resolution))
  {
    (if s.running then Nodes(depth, MaxDepth(e.resolution)) else 0) + Weight(s.queue, MaxDepth(e.resolution))
  }

  /** The loop invariant of doScanPass: the queue holds whole branches, the
      visits made plus those still possible stay within the full tree, the
      trace explains the registrations, and the first two visits are the
      vessel itself and the newer half of the interval. */
  ghost predicate Inv(e: Env, s: Scan, depth: nat, trace: seq<Visit>, lastAlt: real, ut0: real,
                      lastUT0: real, maxRes0: int)
    requires Enumerates(e.order, e.t)
  {
    var rm := MaxDepth(e.resolution);
    && Queued(s.queue, rm)
    && (s.running ==> 1 <= depth <= rm && s.b.res == depth as real)
    && |trace| + Measure(e, s, depth) <= Nodes(0, rm)
    && |trace| >= 1 && trace[0].depth == 0 && trace[0].sample == Some(Surface(e.craft))
    && TraceOk(trace, e.t, e.order, e.soi, e.scale, rm)
    && s.passes == Registered(trace)
    && 1 <= s.actualPasses <= |trace|
    && (s.maxRes == maxRes0 || maxRes0 < s.maxRes <= e.resolution)
    && s.sensors == Classified(e.t, lastAlt, e.soi)
    && (|trace| == 1 ==> s.running || EnvStops(e))
    && (EnvStops(e) ==>
          && !s.running && |trace| == 1 && s.actualPasses == 1 && lastAlt == Surface(e.craft).alt
          && s.passes == StepCells(e.t, e.order, Surface(e.craft), e.soi, e.scale))
    && (|trace| == 1 && s.running ==> depth == 1 && s.b.ut == (lastUT0 + ut0) / 2.0)
    && (|trace| >= 2 ==> trace[1].depth == 1 && trace[1].ut == (lastUT0 + ut0) / 2.0)
  }

  /** Where the visits come from: each visit samples the vessel or the
      orbit at its own time and depth, every visit after the first compares
      with the sample of its parent, the branches still to visit have
      parents too, and, when the previous tick lies before this one, every
      time lies between them. actualPasses counts the visits that ran. */
  ghost predicate Lineage(e: Env, s: Scan, depth: nat, trace: seq<Visit>, ut0: real, startUT0: real,
                          lastUT0: real)
  {
    var timed := lastUT0 <= ut0 <= startUT0;
    && |trace| >= 1 && trace[0].ut == ut0
    && (forall i | 0 <= i < |trace| ::
          trace[i].sample == SampleAt(e.eph, e.craft, trace[i].ut, trace[i].depth as real))
    && Linked(trace)
    && s.actualPasses == RunCount(trace)
    && Pending(s.queue, trace, lastUT0, startUT0, timed)
    && (s.running ==> HasParent(trace, depth, s.b.llat, s.b.llon) && (timed ==> Within(s.b, lastUT0, startUT0)))
    && (timed ==> forall i | 0 <= i < |trace| :: lastUT0 <= trace[i].ut <= startUT0)
  }

  /** The end of a visit keeps the queue's lineage: the halves a
      refinement makes have the visit as parent and lie within the visited
      branch's interval, and a dequeued branch brings its parent along. The
      requirements on b', depth', queue' and running are what Advance
      promises. */
  lemma QueueStep(q: seq<real>, b: Branch, depth: nat, next: Next, lat: real, lon: real, b': Branch,
                  depth': nat, queue': seq<real>, running: bool, trace: seq<Visit>, lo: real, hi: real,
                  timed: bool)
    requires Pending(q, trace, lo, hi, timed) && (timed ==> Within(b, lo, hi)) && b.res == depth as real
    requires next == Refine ==> HasParent(trace, depth + 1, lat, lon)
    requires running ==> b'.res == depth' as real
    requires !running ==> queue' == q
    requires next == Return ==> !running
    requires next == Refine ==>
               && running && depth' == depth + 1
               && b' == Branch((b.lastUT + b.ut) / 2.0, b.ut, b.lastUT, lat, lon, b.res + 1.0)
               && queue' == q + (if b.startUT > b.ut
                                 then Encode(Branch((b.startUT + b.ut) / 2.0, b.startUT, b.ut, lat, lon, b.res + 1.0))
                                 else [])
    requires next == Dequeue ==>
               && (running <==> |q| > 0)
               && (running ==> b' == Decode(q) && queue' == q[6..])
    ensures Pending(queue', trace, lo, hi, timed)
    ensures running ==> HasParent(trace, depth', b'.llat, b'.llon) && (timed ==> Within(b', lo, hi))
  {
    if next == Refine {
      if b.startUT > b.ut {
        var c := Encode(Branch((b.startUT + b.ut) / 2.0, b.startUT, b.ut, lat, lon, b.res + 1.0));
        assert c[5].Floor == depth + 1;
        PendingAppend(q, c, trace, lo, hi, timed);
      } else {
        assert queue' == q + [];
      }
    } else if running {
      assert q[5] == depth' as real;
      assert q[5].Floor == depth';
    }
  }

  /** One further visit keeps the lineage: the visit's parent is the
      branch's, and a refinement makes the visit the parent of both halves.
      The requirements on b', depth', queue' and running are what Advance
      promises. */
  lemma LineageStep(e: Env, s: Scan, b: Branch, depth: nat, trace: seq<Visit>, v: Visit, next: Next, lat: real,
                    lon: real, b': Branch, depth': nat, queue': seq<real>, running: bool, s': Scan,
                    ut0: real, startUT0: real, lastUT0: real)
    requires Lineage(e, s, depth, trace, ut0, startUT0, lastUT0) && s.running && s.b == b
    requires b.res == depth as real
    requires v.ut == b.ut && v.depth == depth && v.llat == b.llat && v.llon == b.llon
    requires v.sample == SampleAt(e.eph, e.craft, b.ut, b.res)
    requires Runs(v) ==> lat == v.sample.value.lat && lon == v.sample.value.lon
    requires !Runs(v) ==> next == Dequeue
    requires running ==> b'.res == depth' as real
    requires !running ==> queue' == s.queue
    requires next == Return ==> !running
    requires next == Refine ==>
               && running && depth' == depth + 1
               && b' == Branch((b.lastUT + b.ut) / 2.0, b.ut, b.lastUT, lat, lon, b.res + 1.0)
               && queue' == s.queue + (if b.startUT > b.ut
                                       then Encode(Branch((b.startUT + b.ut) / 2.0, b.startUT, b.ut,
                                                          lat, lon, b.res + 1.0))
                                       else [])
    requires next == Dequeue ==>
               && (running <==> |s.queue| > 0)
               && (running ==> b' == Decode(s.queue) && queue' == s.queue[6..])
    requires s'.b == b' && s'.queue == queue' && s'.running == running
    requires s'.actualPasses == s.actualPasses + (if Runs(v) then 1 else 0)
    ensures Lineage(e, s', depth', trace + [v], ut0, startUT0, lastUT0)
  {
    var timed := lastUT0 <= ut0 <= startUT0;
    var t' := trace + [v];
    assert t'[..|trace|] == trace;
    assert RunCount(t') == s'.actualPasses;
    forall i | 0 <= i < |t'|
      ensures t'[i].sample == SampleAt(e.eph, e.craft, t'[i].ut, t'[i].depth as real)
      ensures timed ==> lastUT0 <= t'[i].ut <= startUT0
    {
      if i < |trace| {
        assert t'[i] == trace[i];
      }
    }
    LinkedExtend(trace, v);
    PendingGrow(s.queue, trace, v, lastUT0, startUT0, timed);
    if next == Refine {
      assert ChildOf(t', |trace|, depth + 1, lat, lon);
    }
    QueueStep(s.queue, b, depth, next, lat, lon, b', depth', queue', running, t', lastUT0, startUT0, timed);
  }

  /** The first visit starts the lineage: it samples the vessel at the
      tick's time, and a refinement makes it the parent of both halves. The
      requirements on b', depth', queue' and running are what Advance
      promises from an empty queue. */
  lemma LineageStart(e: Env, b: Branch, v: Visit, next: Next, b': Branch, depth': nat, queue': seq<real>,
                     running: bool, s': Scan, ut0: real, startUT0: real, lastUT0: real)
    requires b.ut == ut0 && b.startUT == startUT0 && b.lastUT == lastUT0 && b.res == 0.0
    requires v.ut == b.ut && v.depth == 0 && v.sample == SampleAt(e.eph, e.craft, b.ut, b.res)
    requires running ==> b'.res == depth' as real
    requires !running ==> queue' == []
    requires next == Return ==> !running
    requires next == Refine ==>
               && running && depth' == 1
               && b' == Branch((b.lastUT + b.ut) / 2.0, b.ut, b.lastUT, v.sample.value.lat,
                               v.sample.value.lon, b.res + 1.0)
               && queue' == [] + (if b.startUT > b.ut
                                  then Encode(Branch((b.startUT + b.ut) / 2.0, b.startUT, b.ut,
                                                     v.sample.value.lat, v.sample.value.lon, b.res + 1.0))
                                  else [])
    requires next == Dequeue ==> !running
    requires s'.b == b' && s'.queue == queue' && s'.running == running && s'.actualPasses == 1
    ensures Lineage(e, s', depth', [v], ut0, startUT0, lastUT0)
  {
    var timed := lastUT0 <= ut0 <= startUT0;
    var trace := [v];
    assert RunCount(trace) == 1 by { assert trace[..0] == []; }
    if next == Refine {
      assert ChildOf(trace, 0, 1, v.sample.value.lat, v.sample.value.lon);
    }
    QueueStep([], b, 0, next, v.sample.value.lat, v.sample.value.lon, b', depth', queue', running, trace,
              lastUT0, startUT0, timed);
  }

  /** The first visit, at the vessel itself (depth 0), and the decision
      that follows it. */
  method FirstVisit(e: Env, ut0: real, startUT0: real, lastUT0: real, llat0: real, llon0: real,
                    maxRes0: int)
    returns (s: Scan, ghost depth: nat, ghost trace: seq<Visit>, ghost lastAlt: real)
    requires Enumerates(e.order, e.t)
    ensures Inv(e, s, depth, trace, lastAlt, ut0, lastUT0, maxRes0)
    ensures Lineage(e, s, depth, trace, ut0, startUT0, lastUT0)
  {
    ghost var rm := MaxDepth(e.resolution);
    // The shared queue is emptied on entry.
    var queue: seq<real> := [];
    var b := Branch(ut0, startUT0, lastUT0, llat0, llon0, 0.0);
    var sample, cells, flagged, counted, next, mr :=
      VisitBranch(e.t, None, e.t, e.order, e.eph, e.coverage, e.craft, e.vesselLastUT, e.frame, e.soi,
                  e.scale, e.resolution, b.ut, 0, b.res, b.llat, b.llon, maxRes0);
    trace := [Visit(b.ut, 0, b.llat, b.llon, sample, cells)];
    assert Registered(trace) == cells;
    assert TraceOk(trace, e.t, e.order, e.soi, e.scale, rm);
    lastAlt := sample.value.alt;
    var running;
    ghost var b0 := b;
    b, depth, queue, running := Advance(b, 0, sample.value.lat, sample.value.lon, next, queue, rm);
    s := Scan(b, queue, running, cells, flagged, 1, mr);
    LineageStart(e, b0, trace[0], next, b, depth, queue, running, s, ut0, startUT0, lastUT0);
  }

  /** One further visit of the loop, from a branch below depth 0. */
  method Iterate(e: Env, s: Scan, ghost depth: nat, ghost trace: seq<Visit>, ghost lastAlt: real,
                 ghost ut0: real, ghost startUT0: real, ghost lastUT0: real, ghost maxRes0: int)
    returns (s': Scan, ghost depth': nat, ghost trace': seq<Visit>, ghost lastAlt': real)
    requires Enumerates(e.order, e.t)
    requires Inv(e, s, depth, trace, lastAlt, ut0, lastUT0, maxRes0) && s.running
    requires Lineage(e, s, depth, trace, ut0, startUT0, lastUT0)
    ensures Inv(e, s', depth', trace', lastAlt', ut0, lastUT0, maxRes0)
    ensures Lineage(e, s', depth', trace', ut0, startUT0, lastUT0)
    ensures Measure(e, s', depth') < Measure(e, s, depth)
  {
    ghost var rm := MaxDepth(e.resolution);
    var b := s.b;
    var sample, cells, flagged, counted, next, mr :=
      VisitBranch(e.t, Some(lastAlt), s.sensors, e.order, e.eph, e.coverage, e.craft, e.vesselLastUT,
                  e.frame, e.soi, e.scale, e.resolution, b.ut, depth, b.res, b.llat, b.llon, s.maxRes);
    ghost var v := Visit(b.ut, depth, b.llat, b.llon, sample, cells);
    TraceExtend(trace, v, e.t, e.order, e.soi, e.scale, rm);
    trace' := trace + [v];
    var actualPasses := s.actualPasses;
    lastAlt' := lastAlt;
    if counted {
      actualPasses := actualPasses + 1;
      lastAlt' := sample.value.alt;
    }
    var lat, lon := if counted then sample.value.lat else 0.0, if counted then sample.value.lon else 0.0;
    var b', queue, running;
    b', depth', queue, running := Advance(b, depth, lat, lon, next, s.queue, rm);
    s' := Scan(b', queue, running, s.passes + cells, flagged, actualPasses, mr);
    LineageStep(e, s, b, depth, trace, v, next, lat, lon, b', depth', queue, running, s', ut0, startUT0, lastUT0);
  }

  /** The loop of doScanPass: the first visit, then one visit per
      iteration until no branch is left. */
  method RunPass(e: Env, ut0: real, startUT0: real, lastUT0: real, llat0: real, llon0: real, maxRes0: int)
    returns (s: Scan, ghost depth: nat, ghost trace: seq<Visit>, ghost lastAlt: real)
    requires Enumerates(e.order, e.t)
    ensures Inv(e, s, depth, trace, lastAlt, ut0, lastUT0, maxRes0) && !s.running
    ensures Lineage(e, s, depth, trace, ut0, startUT0, lastUT0)
  {
    s, depth, trace, lastAlt := FirstVisit(e, ut0, startUT0, lastUT0, llat0, llon0, maxRes0);
    while s.running
      invariant Inv(e, s, depth, trace, lastAlt, ut0, lastUT0, maxRes0)
      invariant Lineage(e, s, depth, trace, ut0, startUT0, lastUT0)
      decreases Measure(e, s, depth)
    {
      s, depth, trace, lastAlt := Iterate(e, s, depth, trace, lastAlt, ut0, startUT0, lastUT0, maxRes0);
    }
  }

  /** What the loop invariant says once the loop has ended. */
  lemma PassFacts(e: Env, s: Scan, depth: nat, trace: seq<Visit>, lastAlt: real, ut0: real, lastUT0: real,
                  maxRes0: int)
    requires Enumerates(e.order, e.t)
    requires Inv(e, s, depth, trace, lastAlt, ut0, lastUT0, maxRes0) && !s.running
    ensures |trace| >= 1 && trace[0].depth == 0 && trace[0].sample == Some(Surface(e.craft))
    ensures forall i | 1 <= i < |trace| :: 1 <= trace[i].depth <= e.resolution
    ensures |trace| <= Pow2(MaxDepth(e.resolution) + 1) - 1
    ensures s.passes == Registered(trace)
    ensures forall i | 0 <= i < |trace| :: trace[i].cells == VisitCells(e.t, e.order, e.soi, e.scale, trace[i])
    ensures 1 <= s.actualPasses <= |trace|
    ensures s.maxRes == maxRes0 || maxRes0 < s.maxRes <= e.resolution
    ensures s.sensors == Classified(e.t, lastAlt, e.soi)
    ensures EnvStops(e) ==>
              && |trace| == 1 && s.actualPasses == 1
              && s.passes == StepCells(e.t, e.order, Surface(e.craft), e.soi, e.scale)
              && s.sensors == Classified(e.t, Surface(e.craft).alt, e.soi)
    ensures !EnvStops(e) ==> |trace| >= 2 && trace[1].depth == 1 && trace[1].ut == (lastUT0 + ut0) / 2.0
  {
  }

  /** What the lineage says once the loop has ended, with the parent of
      each visit named by its index. */
  lemma LineageFacts(e: Env, s: Scan, depth: nat, trace: seq<Visit>, ut0: real, startUT0: real, lastUT0: real)
    requires Lineage(e, s, depth, trace, ut0, startUT0, lastUT0)
    ensures |trace| >= 1 && trace[0].ut == ut0
    ensures forall i | 0 <= i < |trace| :: trace[i].sample == SampleAt(e.eph, e.craft, trace[i].ut, trace[i].depth as real)
    ensures forall i | 1 <= i < |trace| :: exists j | 0 <= j < i ::
              && Runs(trace[j]) && trace[j].depth + 1 == trace[i].depth
              && trace[i].llat == trace[j].sample.value.lat && trace[i].llon == trace[j].sample.value.lon
    ensures lastUT0 <= ut0 <= startUT0 ==> forall i | 0 <= i < |trace| :: lastUT0 <= trace[i].ut <= startUT0
    ensures s.actualPasses == RunCount(trace)
  {
    forall i | 1 <= i < |trace|
      ensures exists j | 0 <= j < i ::
                && Runs(trace[j]) && trace[j].depth + 1 == trace[i].depth
                && trace[i].llat == trace[j].sample.value.lat && trace[i].llon == trace[j].sample.value.lon
    {
      LinkedParents(trace, i);
    }
  }

  /** doScanPass (SCANcontroller.cs:383-486). The pass starts at the
      vessel's own position (depth 0) and, while the vessel has been scanned
      before, refines the interval back to the previous tick by bisection:
      each refining visit queues the older half (when there is one) and
      continues into the newer half one level deeper, up to the resolution.
      The outputs are the registrations made, the sensor table with its
      flags recomputed, and the counters actualPasses and maxRes; the ghost
      trace records every visit. */
  method DoScanPass(t: Table, order: seq<Mask>, eph: real -> Option<Fix>, coverage: Mask -> real,
                    craft: Craft, vesselLastUT: real, frame: int, soi: real, scale: real,
                    resolution: int, ut0: real, startUT0: real, lastUT0: real, llat0: real,
                    llon0: real, maxRes0: int)
    returns (passes: seq<Pass>, sensors: Table, actualPasses: nat, maxRes: int, ghost trace: seq<Visit>)
    requires Enumerates(order, t)
    ensures |trace| >= 1 && trace[0].depth == 0 && trace[0].sample == Some(Surface(craft))
    ensures forall i | 1 <= i < |trace| :: 1 <= trace[i].depth <= resolution
    ensures |trace| <= Pow2(MaxDepth(resolution) + 1) - 1
    ensures passes == Registered(trace)
    ensures forall i | 0 <= i < |trace| :: trace[i].cells == VisitCells(t, order, soi, scale, trace[i])
    ensures 1 <= actualPasses <= |trace|
    ensures maxRes == maxRes0 || maxRes0 < maxRes <= resolution
    ensures exists a :: sensors == Classified(t, a, soi)
    ensures Stops(t, coverage, vesselLastUT, frame, craft.landed, resolution) ==>
              && |trace| == 1 && actualPasses == 1
              && passes == StepCells(t, order, Surface(craft), soi, scale)
              && sensors == Classified(t, Surface(craft).alt, soi)
    ensures !Stops(t, coverage, vesselLastUT, frame, craft.landed, resolution) ==>
              |trace| >= 2 && trace[1].depth == 1 && trace[1].ut == (lastUT0 + ut0) / 2.0
    ensures trace[0].ut == ut0
    ensures forall i | 0 <= i < |trace| :: trace[i].sample == SampleAt(eph, craft, trace[i].ut, trace[i].depth as real)
    ensures forall i | 1 <= i < |trace| :: exists j | 0 <= j < i ::
              && Runs(trace[j]) && trace[j].depth + 1 == trace[i].depth
              && trace[i].llat == trace[j].sample.value.lat && trace[i].llon == trace[j].sample.value.lon
    ensures lastUT0 <= ut0 <= startUT0 ==> forall i | 0 <= i < |trace| :: lastUT0 <= trace[i].ut <= startUT0
    ensures actualPasses == RunCount(trace)
  {
    var e := Env(t, order, eph, coverage, craft, vesselLastUT, frame, soi, scale, resolution);
    var s;
    ghost var depth, lastAlt;
    s, depth, trace, lastAlt := RunPass(e, ut0, startUT0, lastUT0, llat0, llon0, maxRes0);
    PassFacts(e, s, depth, trace, lastAlt, ut0, lastUT0, maxRes0);
    LineageFacts(e, s, depth, trace, ut0, startUT0, lastUT0);
    passes, sensors, actualPasses, maxRes := s.passes, s.sensors, s.actualPasses, s.maxRes;
  }

}
