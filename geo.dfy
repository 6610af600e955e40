/** Map coordinates and the averaging the map components use to centre
    themselves. Coordinates are exact reals. */
module Geo {

  datatype LatLng = LatLng(lat: real, lng: real)

  /** The default centre of every map: Brasília. */
  const Brasilia := LatLng(-15.7801, -47.9292)

  /** A coordinate field as fetched: absent, a number, or a value that is
      not a number. */
  datatype CoordField = NoCoord | Coord(x: real) | NotANumber

  /** The field is truthy: a non-zero number. */
  predicate TruthyCoord(c: CoordField) {
    c.Coord? && c.x != 0.0
  }

  /** `(c || 0)`: absent, zero and not-a-number are all falsy. */
  function CoordOrZero(c: CoordField): (r: real)
    ensures TruthyCoord(c) ==> r == c.x
    ensures !TruthyCoord(c) ==> r == 0.0
  {
    if c.Coord? then c.x else 0.0
  }

  function Sum(xs: seq<real>): real {
    if xs == [] then 0.0 else xs[0] + Sum(xs[1..])
  }

  /** `xs.reduce((s, x) => s + x, 0) / xs.length`. */
  function Mean(xs: seq<real>): real
    requires xs != []
  {
    Sum(xs) / |xs| as real
  }

  function MinOf(xs: seq<real>): (m: real)
    requires xs != []
    ensures m in xs && forall i :: 0 <= i < |xs| ==> m <= xs[i]
  {
    if |xs| == 1 then xs[0]
    else var rest := MinOf(xs[1..]); if xs[0] <= rest then xs[0] else rest
  }

  function MaxOf(xs: seq<real>): (m: real)
    requires xs != []
    ensures m in xs && forall i :: 0 <= i < |xs| ==> xs[i] <= m
  {
    if |xs| == 1 then xs[0]
    else var rest := MaxOf(xs[1..]); if rest <= xs[0] then xs[0] else rest
  }

  lemma {:induction false} SumBounds(xs: seq<real>, lo: real, hi: real)
    requires forall i :: 0 <= i < |xs| ==> lo <= xs[i] <= hi
    ensures |xs| as real * lo <= Sum(xs) <= |xs| as real * hi
  {
    if xs != [] {
      SumBounds(xs[1..], lo, hi);
      assert |xs| as real * lo == lo + |xs[1..]| as real * lo;
      assert |xs| as real * hi == hi + |xs[1..]| as real * hi;
    }
  }

  /** Values within bounds average to a value within them. */
  lemma MeanBounds(xs: seq<real>, lo: real, hi: real)
    requires xs != [] && forall i :: 0 <= i < |xs| ==> lo <= xs[i] <= hi
    ensures lo <= Mean(xs) <= hi
  {
    SumBounds(xs, lo, hi);
    DivBounds(Sum(xs), |xs| as real, lo, hi);
  }

  lemma DivBounds(s: real, n: real, lo: real, hi: real)
    requires n > 0.0 && n * lo <= s <= n * hi
    ensures lo <= s / n <= hi
  {
    assert s / n * n == s;
  }

  /** The mean lies between the smallest and the largest value. */
  lemma MeanBetweenMinAndMax(xs: seq<real>)
    requires xs != []
    ensures MinOf(xs) <= Mean(xs) <= MaxOf(xs)
  {
    MeanBounds(xs, MinOf(xs), MaxOf(xs));
  }

  /** Values that are all equal average to that value. */
  lemma MeanOfConstant(xs: seq<real>, v: real)
    requires xs != [] && forall i :: 0 <= i < |xs| ==> xs[i] == v
    ensures Mean(xs) == v
  {
    MeanBounds(xs, v, v);
  }

  function Lats(ps: seq<LatLng>): (r: seq<real>)
    ensures |r| == |ps| && forall i :: 0 <= i < |ps| ==> r[i] == ps[i].lat
  {
    seq(|ps|, i requires 0 <= i < |ps| => ps[i].lat)
  }

  function Lngs(ps: seq<LatLng>): (r: seq<real>)
    ensures |r| == |ps| && forall i :: 0 <= i < |ps| ==> r[i] == ps[i].lng
  {
    seq(|ps|, i requires 0 <= i < |ps| => ps[i].lng)
  }

  /** The centre of a set of positions: their mean, which lies in their
      bounding box, or Brasília when there are none. */
  function Center(ps: seq<LatLng>): (c: LatLng)
    ensures ps == [] ==> c == Brasilia
    ensures ps != [] ==> MinOf(Lats(ps)) <= c.lat <= MaxOf(Lats(ps))
    ensures ps != [] ==> MinOf(Lngs(ps)) <= c.lng <= MaxOf(Lngs(ps))
  {
    if ps == [] then Brasilia
    else
      MeanBetweenMinAndMax(Lats(ps));
      MeanBetweenMinAndMax(Lngs(ps));
      LatLng(Mean(Lats(ps)), Mean(Lngs(ps)))
  }

  /** Positions all at one place are centred on it. */
  lemma CenterOfOnePlace(ps: seq<LatLng>, p: LatLng)
    requires ps != [] && forall i :: 0 <= i < |ps| ==> ps[i] == p
    ensures Center(ps) == p
  {
    MeanOfConstant(Lats(ps), p.lat);
    MeanOfConstant(Lngs(ps), p.lng);
  }
}
