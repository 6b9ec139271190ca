/**
  The decorative icon shown next to a report, chosen by bucketing the
  temperature in degrees Celsius into five half-open intervals.
 */
module Icons {
  import opened Results

  /** The five icons, in increasing temperature order. */
  datatype Icon = Cold | Cool | Mild | Warm | Hot

  /** The position of an icon in the order Cold < Cool < Mild < Warm < Hot. */
  function Rank(i: Icon): nat {
    match i
    case Cold => 0
    case Cool => 1
    case Mild => 2
    case Warm => 3
    case Hot => 4
  }

  /** The text printed for each icon. */
  function Glyph(i: Icon): string {
    match i
    case Cold => "\U{2744}"                 // snowflake
    case Cool => "\U{2601}"                 // cloud
    case Mild => "\U{1F325}\U{FE0F}"        // sun behind large cloud
    case Warm => "\U{1F324}\U{FE0F}"        // sun behind small cloud
    case Hot => "\U{1F31E}"                 // sun with face
  }

  /** The inclusive lower end of each bucket (None: unbounded below). */
  function LowerBound(i: Icon): Option<real> {
    match i
    case Cold => None
    case Cool => Some(0.0)
    case Mild => Some(10.0)
    case Warm => Some(20.0)
    case Hot => Some(30.0)
  }

  /** The exclusive upper end of each bucket (None: unbounded above). */
  function UpperBound(i: Icon): Option<real> {
    match i
    case Cold => Some(0.0)
    case Cool => Some(10.0)
    case Mild => Some(20.0)
    case Warm => Some(30.0)
    case Hot => None
  }

  /** `t` lies in the half-open interval [LowerBound(i), UpperBound(i)). */
  predicate InBucket(t: real, i: Icon) {
    && (LowerBound(i).None? || LowerBound(i).value <= t)
    && (UpperBound(i).None? || t < UpperBound(i).value)
  }

  /** The icon for a temperature, tested in the order the program tests it. */
  function TempIcon(t: real): (i: Icon)
    ensures InBucket(t, i)
  {
    if t < 0.0 then Cold
    else if t >= 0.0 && t < 10.0 then Cool
    else if t >= 10.0 && t < 20.0 then Mild
    else if t >= 20.0 && t < 30.0 then Warm
    else Hot
  }

  /** Distinct icons print distinct glyphs. */
  lemma GlyphInjective(i: Icon, j: Icon)
    ensures Glyph(i) == Glyph(j) <==> i == j
  {
  }

  /** The buckets partition the temperatures: every temperature lies in
      exactly one bucket, the one TempIcon picks. */
  lemma BucketsPartition(t: real, i: Icon)
    ensures InBucket(t, i) <==> i == TempIcon(t)
  {
  }

  /** Consecutive buckets meet: each upper end is the next lower end, so no
      temperature falls between two buckets. */
  lemma BucketsAdjacent(i: Icon, j: Icon)
    requires Rank(j) == Rank(i) + 1
    ensures UpperBound(i).Some? && UpperBound(i) == LowerBound(j)
  {
  }

  /** The boundary temperatures belong to the bucket above them. */
  lemma Boundaries()
    ensures TempIcon(-0.1) == Cold
    ensures TempIcon(0.0) == Cool
    ensures TempIcon(10.0) == Mild
    ensures TempIcon(20.0) == Warm
    ensures TempIcon(30.0) == Hot
  {
  }

  /** A warmer temperature never gets a colder icon. */
  lemma TempIconMonotone(t1: real, t2: real)
    requires t1 <= t2
    ensures Rank(TempIcon(t1)) <= Rank(TempIcon(t2))
  {
  }
}
