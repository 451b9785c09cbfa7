/** Unit conversions shared by both engines (map2kcal-1.0.0.js and route.js define them identically). */
module Units {

  /** `Math.PI` as the double the source computes with. */
  const PI: real := 3.141592653589793

  function DegToRad(degrees: real): (radians: real)
    ensures RadToDeg(radians) == degrees
  {
    degrees * (PI / 180.0)
  }

  function RadToDeg(radians: real): (degrees: real)
  {
    radians * (180.0 / PI)
  }

  /** Kilometres per hour to metres per second: one m/s is 3.6 km/h. */
  function KphToMps(kph: real): (mps: real)
    ensures mps * 3.6 == kph
  {
    kph * 1000.0 / 3600.0
  }

  function MpsToKph(mps: real): (kph: real)
    ensures kph == 3.6 * mps
  {
    mps * 3600.0 / 1000.0
  }

  /** Knots (nautical miles per hour) to kilometres per hour. */
  function KtphToKph(knots: real): (kph: real)
    ensures kph / 1.852 == knots
    ensures knots >= 0.0 ==> kph >= knots
  {
    1.852 * knots
  }

  /** Knots to metres per second, composed of the two conversions above. */
  function KtphToMps(knots: real): (mps: real)
    ensures mps == 1.852 * knots * 1000.0 / 3600.0
  {
    KphToMps(KtphToKph(knots))
  }

  /** Joules to kilocalories: one kcal is 4184 J. */
  function JouleToKcal(joule: real): (kcal: real)
    ensures kcal * 4184.0 == joule
  {
    joule / 4184.0
  }

  function KelvinToCelsius(t: real): (c: real)
    ensures c + 273.15 == t
  {
    t - 273.15
  }

  /** The speed conversions are mutually inverse. */
  lemma SpeedRoundTrip(x: real)
    ensures MpsToKph(KphToMps(x)) == x
    ensures KphToMps(MpsToKph(x)) == x
  {
  }
}
