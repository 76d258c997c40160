/** The science a scan is worth (SCANcontroller.getAvailableScience): which
    experiment a sensor request is scored as, and the yield formula over the
    coverage percentage and the experiment subject's cap, collected science
    and value. */
module Science {
  import opened Wrappers
  import opened ScanType
  import opened RealArith

  /** The three experiments a scan can be reported as. */
  datatype Experiment = AltimetryLoResScan | AltimetryHiResScan | BiomeAnomalyScan

  /** The experiment subject's fields the formula reads or writes. */
  datatype Subject = Subject(scienceCap: real, science: real, subjectValue: real, scientificValue: real)

  /** A report: the experiment, the amount of science and the subject as the
      computation leaves it. */
  datatype Report = Report(experiment: Experiment, amount: real, subject: Subject)

  /** The sensor bit an experiment is named after. */
  function Bit(x: Experiment): Mask
  {
    match x
    case AltimetryLoResScan => AltimetryLoRes
    case AltimetryHiResScan => AltimetryHiRes
    case BiomeAnomalyScan => Biome
  }

  /** The sensors whose coverage an experiment is scored on. */
  function Covered(x: Experiment): Mask
  {
    match x
    case AltimetryLoResScan => AltimetryLoRes
    case AltimetryHiResScan => AltimetryHiRes
    case BiomeAnomalyScan => Biome + Anomaly
  }

  /** An experiment's place in the order of preference. */
  function Rank(x: Experiment): nat
  {
    match x
    case AltimetryLoResScan => 0
    case AltimetryHiResScan => 1
    case BiomeAnomalyScan => 2
  }

  /** The body can host the experiment: altimetry needs a terrain
      controller, the biome scan a biome map. */
  predicate Offered(x: Experiment, hasPqs: bool, hasBiomeMap: bool)
  {
    if x == BiomeAnomalyScan then hasBiomeMap else hasPqs
  }

  /** The experiment selection (SCANcontroller.cs:250-270). */
  function Choose(sensor: Mask, hasPqs: bool, hasBiomeMap: bool): (r: Option<Experiment>)
    ensures r.Some? ==> Offered(r.value, hasPqs, hasBiomeMap) && Meets(sensor, Bit(r.value))
    ensures r.Some? ==> forall x :: Rank(x) < Rank(r.value) ==> !(Offered(x, hasPqs, hasBiomeMap) && Meets(sensor, Bit(x)))
    ensures r.None? ==> forall x :: !(Offered(x, hasPqs, hasBiomeMap) && Meets(sensor, Bit(x)))
  {
    if hasPqs && Meets(sensor, AltimetryLoRes) then Some(AltimetryLoResScan)
    else if hasPqs && Meets(sensor, AltimetryHiRes) then Some(AltimetryHiResScan)
    else if hasBiomeMap && Meets(sensor, Biome) then Some(BiomeAnomalyScan)
    else None
  }

  /** The choice is the best-ranked experiment the body offers and the
      request names: any other such experiment ranks strictly lower. */
  lemma ChooseIsBest(sensor: Mask, hasPqs: bool, hasBiomeMap: bool, x: Experiment)
    requires Offered(x, hasPqs, hasBiomeMap) && Meets(sensor, Bit(x))
    ensures Choose(sensor, hasPqs, hasBiomeMap).Some?
    ensures Rank(Choose(sensor, hasPqs, hasBiomeMap).value) <= Rank(x)
    ensures x != Choose(sensor, hasPqs, hasBiomeMap).value ==> Rank(Choose(sensor, hasPqs, hasBiomeMap).value) < Rank(x)
  {
  }

  /** Asking for more sensors can only move the choice to a better-ranked
      experiment. */
  lemma ChooseMonotone(sensor: Mask, more: Mask, hasPqs: bool, hasBiomeMap: bool)
    requires sensor <= more && Choose(sensor, hasPqs, hasBiomeMap).Some?
    ensures Choose(more, hasPqs, hasBiomeMap).Some?
    ensures Rank(Choose(more, hasPqs, hasBiomeMap).value) <= Rank(Choose(sensor, hasPqs, hasBiomeMap).value)
  {
    var x := Choose(sensor, hasPqs, hasBiomeMap).value;
    assert Meets(more, Bit(x)) by {
      var i :| i in sensor * Bit(x);
      assert i in more * Bit(x);
    }
    ChooseIsBest(more, hasPqs, hasBiomeMap, x);
  }

  /** The fraction of the cap a coverage percentage earns: all of it above
      95%, nothing below 30%, the percentage itself in between. */
  function Fraction(coverage: real): (f: real)
    ensures coverage <= 100.0 ==> f <= 1.0
    ensures 0.0 <= f <= 1.0 || (coverage < 0.0 && f == 0.0) || (coverage > 100.0 && f == 1.0)
    ensures f == 0.0 <==> coverage < 30.0
    ensures f == 1.0 <==> coverage > 95.0 || coverage == 100.0
    ensures 30.0 <= coverage <= 95.0 ==> f * 100.0 == coverage
  {
    var science := if coverage > 95.0 then 100.0 else coverage;
    var science := if science < 30.0 then 0.0 else science;
    science / 100.0
  }

  /** More coverage never earns a smaller fraction. */
  lemma FractionMonotone(c1: real, c2: real)
    requires c1 <= c2
    ensures Fraction(c1) <= Fraction(c2)
  {
  }

  /** max(0, fraction * cap - collected): the science still to be had. */
  function Remaining(fraction: real, su: Subject): (r: real)
    ensures r >= 0.0
    ensures r >= fraction * su.scienceCap - su.science
    ensures r == 0.0 || r == fraction * su.scienceCap - su.science
  {
    if fraction * su.scienceCap - su.science > 0.0 then fraction * su.scienceCap - su.science else 0.0
  }

  /** The amount reported in place of a zero when notZero is set. */
  const Epsilon: real := 0.00001

  /** The yield formula (SCANcontroller.cs:279-294): scientificValue is
      forced to 1, the remaining science is divided by max(0.1, 1) and by the
      subject value, and with notZero a result of 0 or less becomes Epsilon.
      A subject value of 0 leaves the quotient undefined (None). */
  function Yield(coverage: real, su: Subject, notZero: bool): (r: Option<(real, Subject)>)
    ensures r.Some? <==> su.subjectValue != 0.0
    ensures r.Some? ==> r.value.1 == su.(scientificValue := 1.0)
    ensures r.Some? && su.subjectValue > 0.0 ==> r.value.0 >= 0.0
    ensures r.Some? && notZero ==> r.value.0 > 0.0
    ensures r.Some? && !notZero ==> r.value.0 * su.subjectValue == Remaining(Fraction(coverage), su)
    ensures r.Some? && notZero && Remaining(Fraction(coverage), su) / su.subjectValue > 0.0 ==>
              r.value.0 * su.subjectValue == Remaining(Fraction(coverage), su)
    ensures r.Some? && notZero && Remaining(Fraction(coverage), su) / su.subjectValue <= 0.0 ==>
              r.value.0 == Epsilon
  {
    var su' := su.(scientificValue := 1.0);
    var science := Remaining(Fraction(coverage), su');
    var science := science / (if 0.1 > su'.scientificValue then 0.1 else su'.scientificValue);
    if su'.subjectValue == 0.0 then None
    else
      var science := science / su'.subjectValue;
      var science := if notZero && science <= 0.0 then Epsilon else science;
      Some((science, su'))
  }

  /** getAvailableScience without its lookups' side effects: the chosen
      experiment, its subject as the lookup returns it (None for a missing
      experiment or subject), scored on the coverage of its sensors. */
  function AvailableScience(sensor: Mask, hasPqs: bool, hasBiomeMap: bool, coverage: Mask -> real,
                            lookup: Experiment -> Option<Subject>, notZero: bool): (r: Option<Report>)
    ensures r.Some? ==> Choose(sensor, hasPqs, hasBiomeMap) == Some(r.value.experiment)
    ensures r.Some? ==> lookup(r.value.experiment).Some?
    ensures r.Some? ==> Yield(coverage(Covered(r.value.experiment)), lookup(r.value.experiment).value, notZero)
                        == Some((r.value.amount, r.value.subject))
    ensures r.Some? <==>
              && Choose(sensor, hasPqs, hasBiomeMap).Some?
              && lookup(Choose(sensor, hasPqs, hasBiomeMap).value).Some?
              && lookup(Choose(sensor, hasPqs, hasBiomeMap).value).value.subjectValue != 0.0
  {
    match Choose(sensor, hasPqs, hasBiomeMap)
    case None => None
    case Some(x) =>
      match lookup(x)
      case None => None
      case Some(su) =>
        match Yield(coverage(Covered(x)), su, notZero)
        case None => None
        case Some((amount, su')) => Some(Report(x, amount, su'))
  }

  /** With a non-negative cap, a positive subject value and notZero unset,
      more coverage never yields less. */
  lemma YieldMonotoneInCoverage(c1: real, c2: real, su: Subject)
    requires c1 <= c2 && su.scienceCap >= 0.0 && su.subjectValue > 0.0
    ensures Yield(c1, su, false).value.0 <= Yield(c2, su, false).value.0
  {
    FractionMonotone(c1, c2);
    var su' := su.(scientificValue := 1.0);
    var r1, r2 := Remaining(Fraction(c1), su'), Remaining(Fraction(c2), su');
    RemainingMono(Fraction(c1), Fraction(c2), su');
    DivMono(r1, r2, su.subjectValue);
    assert Yield(c1, su, false).value.0 == r1 / su.subjectValue;
    assert Yield(c2, su, false).value.0 == r2 / su.subjectValue;
  }

  /** With a positive subject value and notZero unset, the more science has
      been collected, the less is reported. */
  lemma YieldAntitoneInCollected(coverage: real, su: Subject, collected: real)
    requires su.science <= collected && su.subjectValue > 0.0
    ensures Yield(coverage, su.(science := collected), false).value.0 <= Yield(coverage, su, false).value.0
  {
    var su1, su2 := su.(scientificValue := 1.0), su.(science := collected, scientificValue := 1.0);
    var r1, r2 := Remaining(Fraction(coverage), su1), Remaining(Fraction(coverage), su2);
    assert r2 <= r1;
    DivMono(r2, r1, su.subjectValue);
    assert Yield(coverage, su, false).value.0 == r1 / su.subjectValue;
    assert Yield(coverage, su.(science := collected), false).value.0 == r2 / su.subjectValue;
  }

  /** Once the collected science reaches the fraction of the cap the
      coverage earns, the report is 0, or Epsilon with notZero. */
  lemma YieldExhausted(coverage: real, su: Subject, notZero: bool)
    requires su.subjectValue != 0.0 && su.science >= Fraction(coverage) * su.scienceCap
    ensures Yield(coverage, su, notZero).value.0 == if notZero then Epsilon else 0.0
  {
  }

  /** Above 95% coverage with nothing collected, the whole cap over the
      subject value is reported. */
  lemma YieldFullCoverage(coverage: real, su: Subject)
    requires coverage > 95.0 && su.science == 0.0 && su.scienceCap > 0.0 && su.subjectValue > 0.0
    ensures Yield(coverage, su, false).value.0 == su.scienceCap / su.subjectValue
  {
  }

  /** Below 30% coverage nothing is reported, or Epsilon with notZero,
      provided the collected science is not negative. */
  lemma YieldLowCoverage(coverage: real, su: Subject, notZero: bool)
    requires coverage < 30.0 && su.science >= 0.0 && su.subjectValue != 0.0
    ensures Yield(coverage, su, notZero).value.0 == if notZero then Epsilon else 0.0
  {
    YieldExhausted(coverage, su, notZero);
  }

  /** A larger fraction of a non-negative cap leaves at least as much to
      be had. */
  lemma RemainingMono(f1: real, f2: real, su: Subject)
    requires f1 <= f2 && su.scienceCap >= 0.0
    ensures Remaining(f1, su) <= Remaining(f2, su)
  {
    MulMono(f1, f2, su.scienceCap);
    var r1, r2 := Remaining(f1, su), Remaining(f2, su);
    assert r1 == 0.0 || r1 == f1 * su.scienceCap - su.science;
    assert r2 >= 0.0 && r2 >= f2 * su.scienceCap - su.science;
  }
}
