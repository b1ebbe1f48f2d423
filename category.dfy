/**
 * The CPCB National Air Quality Index bands (`aqi_category_cpcb`).
 * Each band includes its upper breakpoint.
 */
module AqiCategory {

  datatype Category = Good | Satisfactory | Moderate | Poor | VeryPoor | Severe

  /** The label shown to the user. */
  function Name(c: Category): string
  {
    match c
    case Good => "Good"
    case Satisfactory => "Satisfactory"
    case Moderate => "Moderate"
    case Poor => "Poor"
    case VeryPoor => "Very Poor"
    case Severe => "Severe"
  }

  /** Position of a band on the severity scale, Good = 0 ... Severe = 5. */
  function Rank(c: Category): nat
  {
    match c
    case Good => 0
    case Satisfactory => 1
    case Moderate => 2
    case Poor => 3
    case VeryPoor => 4
    case Severe => 5
  }

  /** The classifier, as the if-chain of the handler: the value lies in the band returned. */
  function CategoryOf(aqi: real): (c: Category)
    ensures InBand(c, aqi)
  {
    if aqi <= 50.0 then Good
    else if aqi <= 100.0 then Satisfactory
    else if aqi <= 200.0 then Moderate
    else if aqi <= 300.0 then Poor
    else if aqi <= 400.0 then VeryPoor
    else Severe
  }

  /** The upper breakpoints of the first five bands, in increasing order. */
  const Breakpoints: seq<real> := [50.0, 100.0, 200.0, 300.0, 400.0]

  /** Reference definition of a band's rank: how many breakpoints lie strictly below the value. */
  function CountBelow(bps: seq<real>, aqi: real): (n: nat)
    ensures n <= |bps|
  {
    if bps == [] then 0
    else (if bps[0] < aqi then 1 else 0) + CountBelow(bps[1..], aqi)
  }

  /** The band a value falls in: above the previous breakpoint, at most its own. */
  predicate InBand(c: Category, aqi: real)
  {
    (Rank(c) == 0 || Breakpoints[Rank(c) - 1] < aqi) &&
    (Rank(c) == 5 || aqi <= Breakpoints[Rank(c)])
  }

  /** The classifier picks exactly the band whose half-open interval holds the value. */
  lemma CategoryBands(aqi: real)
    ensures CategoryOf(aqi) == Good <==> aqi <= 50.0
    ensures CategoryOf(aqi) == Satisfactory <==> 50.0 < aqi <= 100.0
    ensures CategoryOf(aqi) == Moderate <==> 100.0 < aqi <= 200.0
    ensures CategoryOf(aqi) == Poor <==> 200.0 < aqi <= 300.0
    ensures CategoryOf(aqi) == VeryPoor <==> 300.0 < aqi <= 400.0
    ensures CategoryOf(aqi) == Severe <==> 400.0 < aqi
  {
  }

  /** Every value lies in exactly one band, and that band is the classifier's answer. */
  lemma ExactlyOneBand(aqi: real, c: Category)
    ensures InBand(c, aqi) <==> CategoryOf(aqi) == c
  {
  }

  /** The classifier agrees with counting the breakpoints below the value. */
  lemma RankIsCountBelow(aqi: real)
    ensures Rank(CategoryOf(aqi)) == CountBelow(Breakpoints, aqi)
  {
    var b4: seq<real> := [400.0];
    var b3: seq<real> := [300.0, 400.0];
    var b2: seq<real> := [200.0, 300.0, 400.0];
    var b1: seq<real> := [100.0, 200.0, 300.0, 400.0];
    assert b4[1..] == [] && b3[1..] == b4 && b2[1..] == b3 && b1[1..] == b2 && Breakpoints[1..] == b1;
    assert CountBelow(b4, aqi) == if 400.0 < aqi then 1 else 0;
    assert CountBelow(b3, aqi) == (if 300.0 < aqi then 1 else 0) + CountBelow(b4, aqi);
    assert CountBelow(b2, aqi) == (if 200.0 < aqi then 1 else 0) + CountBelow(b3, aqi);
    assert CountBelow(b1, aqi) == (if 100.0 < aqi then 1 else 0) + CountBelow(b2, aqi);
  }

  /** Counting breakpoints below a value never decreases as the value grows. */
  lemma {:induction false} CountBelowMonotone(bps: seq<real>, a: real, b: real)
    requires a <= b
    ensures CountBelow(bps, a) <= CountBelow(bps, b)
  {
    if bps != [] {
      CountBelowMonotone(bps[1..], a, b);
    }
  }

  /** A higher AQI never lands in a less severe band. */
  lemma CategoryMonotone(a: real, b: real)
    requires a <= b
    ensures Rank(CategoryOf(a)) <= Rank(CategoryOf(b))
  {
    RankIsCountBelow(a);
    RankIsCountBelow(b);
    CountBelowMonotone(Breakpoints, a, b);
  }

  /** The boundary values named by the CPCB table. */
  lemma Boundaries()
    ensures Name(CategoryOf(50.0)) == "Good"
    ensures Name(CategoryOf(51.0)) == "Satisfactory"
    ensures Name(CategoryOf(100.0)) == "Satisfactory"
    ensures Name(CategoryOf(200.0)) == "Moderate"
    ensures Name(CategoryOf(300.0)) == "Poor"
    ensures Name(CategoryOf(400.0)) == "Very Poor"
    ensures Name(CategoryOf(401.0)) == "Severe"
  {
  }
}
