/** The intensity envelope of one simulated fault episode. */
module FaultEnvelope {
  import opened Reals

  datatype Stage = Normal | Injecting | Active | Recovering

  datatype Config = Config(start: int, ramp: int, duration: int, recovery: int, severity: real) {
    function Level(): real { if severity <= 0.0 then 0.0 else if severity >= 1.0 then 1.0 else severity }
    function End(): int { start + ramp + duration + recovery }
  }

  function AtLeastOne(n: int): int { if n < 1 then 1 else n }

  function Fraction(k: int, n: int): real { k as real / AtLeastOne(n) as real }

  function Envelope(c: Config, tick: int): real {
    if tick < c.start then 0.0
    else if tick < c.start + c.ramp then c.Level() * Fraction(tick - c.start, c.ramp)
    else if tick < c.start + c.ramp + c.duration then c.Level()
    else if tick < c.End() then c.Level() * (1.0 - Fraction(tick - (c.start + c.ramp + c.duration), c.recovery))
    else 0.0
  }

  /** The stage the episode is in at a tick. */
  function StageAt(c: Config, tick: int): Stage {
    if tick < c.start then Normal
    else if tick < c.start + c.ramp then Injecting
    else if tick < c.start + c.ramp + c.duration then Active
    else if tick < c.End() then Recovering
    else Normal
  }

  /** The stage recorded after asking for a tick: before the start it is left as it was. */
  function StageNext(c: Config, recorded: Stage, tick: int): Stage {
    if tick < c.start then recorded else StageAt(c, tick)
  }

  /** Asking for a tick past the start and then for one before it leaves the later stage recorded. */
  lemma StageLags()
    ensures var c := Config(10, 5, 20, 5, 1.0);
      var later := StageNext(c, Normal, 12);
      StageNext(c, later, 3) == Injecting && StageAt(c, 3) == Normal
  {}

  class Fault {
    const config: Config
    var stage: Stage

    constructor (config: Config)
      ensures this.config == config && stage == Normal
    {
      this.config := config;
      stage := Normal;
    }

    /** The envelope at a tick. Before the start the stage is left as it was, so the recorded stage
        is right exactly when the tick has reached the start or the stage was still NORMAL. */
    method At(tick: int) returns (env: real)
      modifies `stage
      ensures env == Envelope(config, tick)
      ensures stage == StageNext(config, old(stage), tick)
      ensures stage == StageAt(config, tick) <==> tick >= config.start || old(stage) == Normal
    {
      if tick < config.start { return 0.0; }
      if tick < config.start + config.ramp {
        stage := Injecting;
        return config.Level() * Fraction(tick - config.start, config.ramp);
      }
      if tick < config.start + config.ramp + config.duration {
        stage := Active;
        return config.Level();
      }
      if tick < config.End() {
        stage := Recovering;
        var into := tick - (config.start + config.ramp + config.duration);
        return config.Level() * (1.0 - Fraction(into, config.recovery));
      }
      stage := Normal;
      env := 0.0;
    }

    /** Step the ticks upward and log the stage. */
    method Sweep(first: int, count: nat) returns (stages: seq<Stage>)
      requires config.ramp >= 0 && config.duration >= 0 && config.recovery >= 0
      requires stage == Normal && first <= config.start && config.End() <= first + count
      modifies `stage
      ensures stages == Episode(config, first, count)
    {
      stages := [];
      for i := 0 to count
        invariant |stages| == i && forall j :: 0 <= j < i ==> stages[j] == StageAt(config, first + j)
        invariant first + i <= config.start ==> stage == Normal
      {
        var env := At(first + i);
        stages := stages + [stage];
      }
      StageLengths(config, first, count, stages);
    }
  }

  function Repeat(s: Stage, n: int): seq<Stage> {
    if n < 0 then [] else seq(n, i => s)
  }

  /** Normal, injecting, active, recovering, normal again, each for its configured length. */
  function Episode(c: Config, first: int, count: nat): seq<Stage> {
    Repeat(Normal, c.start - first) + Repeat(Injecting, c.ramp) + Repeat(Active, c.duration)
    + Repeat(Recovering, c.recovery) + Repeat(Normal, first + count - c.End())
  }

  lemma StageLengths(c: Config, first: int, count: nat, stages: seq<Stage>)
    requires c.ramp >= 0 && c.duration >= 0 && c.recovery >= 0 && first <= c.start && c.End() <= first + count
    requires |stages| == count && forall j :: 0 <= j < count ==> stages[j] == StageAt(c, first + j)
    ensures stages == Episode(c, first, count)
  {
    assert |Episode(c, first, count)| == count;
    forall j | 0 <= j < count ensures stages[j] == Episode(c, first, count)[j] {}
  }

  /** The envelope never leaves the interval from 0 to the clamped severity. */
  lemma EnvelopeBounded(c: Config, tick: int)
    requires c.ramp >= 0 && c.duration >= 0 && c.recovery >= 0
    ensures 0.0 <= Envelope(c, tick) <= c.Level() <= 1.0
  {
    if c.start <= tick < c.start + c.ramp {
      FractionBounded(tick - c.start, c.ramp);
      Shrinks(c.Level(), Fraction(tick - c.start, c.ramp));
    } else if c.start + c.ramp + c.duration <= tick < c.End() {
      var k := tick - (c.start + c.ramp + c.duration);
      FractionBounded(k, c.recovery);
      Shrinks(c.Level(), 1.0 - Fraction(k, c.recovery));
    }
  }

  lemma FractionBounded(k: int, n: int)
    requires 0 <= k < n
    ensures 0.0 <= Fraction(k, n) <= 1.0
  {
    var f := Fraction(k, n);
    assert f * n as real == k as real;
  }

  lemma Shrinks(l: real, f: real)
    requires l >= 0.0 && 0.0 <= f <= 1.0
    ensures 0.0 <= l * f <= l
  {}

  /** `level` is the severity, held between 0 and 1. */
  ghost predicate IsClamp(severity: real, level: real) {
    && (severity <= 0.0 ==> level == 0.0)
    && (0.0 <= severity <= 1.0 ==> level == severity)
    && (1.0 <= severity ==> level == 1.0)
  }

  /** The envelope tick by tick: nothing before the start, a straight rise to the clamped severity, that
      level, a straight fall, and nothing again. */
  lemma EnvelopeValues(c: Config, level: real, tick: int)
    requires c.ramp >= 0 && c.duration >= 0 && c.recovery >= 0 && IsClamp(c.severity, level)
    ensures var rise, fall, end := c.start + c.ramp, c.start + c.ramp + c.duration,
                                   c.start + c.ramp + c.duration + c.recovery;
      && (tick < c.start || end <= tick ==> Envelope(c, tick) == 0.0)
      && (c.start <= tick < rise ==> c.ramp as real * Envelope(c, tick) == level * (tick - c.start) as real)
      && (rise <= tick < fall ==> Envelope(c, tick) == level)
      && (fall <= tick < end ==> c.recovery as real * Envelope(c, tick) == level * (end - tick) as real)
  {
    var fall := c.start + c.ramp + c.duration;
    if c.start <= tick < c.start + c.ramp {
      EnvelopeRises(c, level, tick);
    } else if fall <= tick < fall + c.recovery {
      EnvelopeFalls(c, level, tick);
    }
  }

  lemma EnvelopeRises(c: Config, level: real, tick: int)
    requires c.start <= tick < c.start + c.ramp && IsClamp(c.severity, level)
    ensures c.ramp as real * Envelope(c, tick) == level * (tick - c.start) as real
  {
    assert c.Level() == level;
    Rises(level, tick - c.start, c.ramp);
  }

  lemma EnvelopeFalls(c: Config, level: real, tick: int)
    requires c.ramp >= 0 && c.duration >= 0 && IsClamp(c.severity, level)
    requires var fall := c.start + c.ramp + c.duration; fall <= tick < fall + c.recovery
    ensures var end := c.start + c.ramp + c.duration + c.recovery;
      c.recovery as real * Envelope(c, tick) == level * (end - tick) as real
  {
    assert c.Level() == level;
    Falls(level, tick - (c.start + c.ramp + c.duration), c.recovery);
  }

  lemma FractionIs(k: int, n: int)
    requires n > 0
    ensures n as real * Fraction(k, n) == k as real
  {}

  lemma Rises(level: real, k: int, n: int)
    requires n > 0
    ensures n as real * (level * Fraction(k, n)) == level * k as real
  {
    FractionIs(k, n);
    Reorder(n as real, level, Fraction(k, n));
  }

  lemma Falls(level: real, k: int, n: int)
    requires n > 0
    ensures n as real * (level * (1.0 - Fraction(k, n))) == level * (n - k) as real
  {
    FractionIs(k, n);
    Reorder(n as real, level, 1.0 - Fraction(k, n));
    Distribute(n as real, 1.0 - Fraction(k, n), Fraction(k, n), 1.0);
  }

  lemma Reorder(a: real, b: real, c: real)
    ensures a * (b * c) == b * (a * c)
  {}

  // ---------------------------------------------------------------- total intensity

  /** The sum over the ticks from `a` up to but not including `b`. */
  function SumOf(f: int -> real, a: int, b: int): real
    decreases b - a
  {
    if b <= a then 0.0 else SumOf(f, a, b - 1) + f(b - 1)
  }

  function EnvelopeOf(c: Config): int -> real { tick => Envelope(c, tick) }
  function ShapeOf(c: Config): int -> real { tick => Shape(c, tick) }

  /** The shape of the episode at full severity. */
  function Shape(c: Config, tick: int): real {
    if tick < c.start then 0.0
    else if tick < c.start + c.ramp then Fraction(tick - c.start, c.ramp)
    else if tick < c.start + c.ramp + c.duration then 1.0
    else if tick < c.End() then 1.0 - Fraction(tick - (c.start + c.ramp + c.duration), c.recovery)
    else 0.0
  }

  function ShapeSum(c: Config, a: int, b: int): real { SumOf(ShapeOf(c), a, b) }

  function Triangle(k: int): real { (k * (k - 1)) as real / 2.0 }

  /** The weight of one episode in full-severity ticks. */
  function Weight(c: Config): real { RampWeight(c) + c.duration as real + RecoveryWeight(c) }

  function RampWeight(c: Config): real { if c.ramp > 0 then (c.ramp - 1) as real / 2.0 else 0.0 }
  function RecoveryWeight(c: Config): real { if c.recovery > 0 then (c.recovery + 1) as real / 2.0 else 0.0 }

  lemma EnvelopeIsScaledShape(c: Config, l: real, tick: int)
    requires l == c.Level()
    ensures Envelope(c, tick) == l * Shape(c, tick)
  {}

  lemma EnvelopeScales(c: Config, l: real)
    requires l == c.Level()
    ensures forall t :: ScaledAt(EnvelopeOf(c), ShapeOf(c), l, t)
  {
    forall t ensures ScaledAt(EnvelopeOf(c), ShapeOf(c), l, t) { EnvelopeIsScaledShape(c, l, t); }
  }

  predicate ScaledAt(f: int -> real, g: int -> real, l: real, tick: int) { f(tick) == l * g(tick) }

  lemma {:induction false} ScaledSum(f: int -> real, g: int -> real, l: real, a: int, b: int)
    requires forall t :: ScaledAt(f, g, l, t)
    ensures SumOf(f, a, b) == l * SumOf(g, a, b)
    decreases b - a
  {
    if b <= a {
    } else {
      ScaledSum(f, g, l, a, b - 1);
      assert ScaledAt(f, g, l, b - 1);
      Distribute(l, SumOf(g, a, b - 1), g(b - 1), SumOf(g, a, b));
    }
  }

  lemma ScaledTotal(f: int -> real, g: int -> real, l: real, a: int, b: int, total: real)
    requires (forall t :: ScaledAt(f, g, l, t)) && total == SumOf(g, a, b)
    ensures SumOf(f, a, b) == l * total
  {
    ScaledSum(f, g, l, a, b);
  }

  lemma {:induction false} ShapeSplit(c: Config, a: int, m: int, b: int)
    requires a <= m <= b
    ensures ShapeSum(c, a, b) == ShapeSum(c, a, m) + ShapeSum(c, m, b)
    decreases b - m
  {
    if b <= m {
    } else {
      ShapeSplit(c, a, m, b - 1);
    }
  }

  lemma {:induction false} QuietSum(c: Config, a: int, b: int)
    requires c.ramp >= 0 && c.duration >= 0 && c.recovery >= 0 && (b <= c.start || c.End() <= a)
    ensures ShapeSum(c, a, b) == 0.0
    decreases b - a
  {
    if b <= a {
    } else {
      QuietSum(c, a, b - 1);
    }
  }

  lemma {:induction false} ActiveSum(c: Config, k: nat)
    requires c.ramp >= 0 && c.duration >= 0 && c.recovery >= 0 && k <= c.duration
    ensures ShapeSum(c, c.start + c.ramp, c.start + c.ramp + k) == k as real
  {
    if k == 0 {
    } else {
      ActiveSum(c, k - 1);
    }
  }

  lemma TriangleStep(k: int, n: int)
    requires n > 0
    ensures Triangle(k) / n as real + Fraction(k, n) == Triangle(k + 1) / n as real
  {
    assert (k * (k - 1)) as real / 2.0 + k as real == ((k + 1) * k) as real / 2.0 by {
      assert k * (k - 1) + 2 * k == (k + 1) * k;
    }
    AddRatio(Triangle(k), k as real, n as real);
  }

  lemma AddRatio(x: real, y: real, n: real)
    requires n > 0.0
    ensures x / n + y / n == (x + y) / n
  {}

  lemma {:induction false} RampSum(c: Config, k: nat)
    requires c.ramp >= 0 && c.duration >= 0 && c.recovery >= 0 && k <= c.ramp && c.ramp > 0
    ensures ShapeSum(c, c.start, c.start + k) == Triangle(k) / c.ramp as real
  {
    if k == 0 {
    } else {
      RampSum(c, k - 1);
      TriangleStep(k - 1, c.ramp);
    }
  }

  lemma {:induction false} RecoverySum(c: Config, k: nat)
    requires c.ramp >= 0 && c.duration >= 0 && c.recovery >= 0 && k <= c.recovery && c.recovery > 0
    ensures var a := c.start + c.ramp + c.duration;
      ShapeSum(c, a, a + k) == k as real - Triangle(k) / c.recovery as real
  {
    if k == 0 {
    } else {
      RecoverySum(c, k - 1);
      TriangleStep(k - 1, c.recovery);
    }
  }

  lemma WholeTriangle(n: int)
    requires n > 0
    ensures Triangle(n) / n as real == (n - 1) as real / 2.0
  {
    var x, t := (n - 1) as real / 2.0, n as real;
    assert (n * (n - 1)) as real == t * (n - 1) as real;
    assert Triangle(n) == x * t;
  }

  lemma ShapeTotal(c: Config, a: int, b: int)
    requires c.ramp >= 0 && c.duration >= 0 && c.recovery >= 0 && a <= c.start && c.End() <= b
    ensures ShapeSum(c, a, b) == Weight(c)
  {
    var s1, s2, s3 := c.start, c.start + c.ramp, c.start + c.ramp + c.duration;
    ShapeSplit(c, a, s1, b);
    ShapeSplit(c, s1, s2, b);
    ShapeSplit(c, s2, s3, b);
    ShapeSplit(c, s3, c.End(), b);
    QuietSum(c, a, s1);
    QuietSum(c, c.End(), b);
    ActiveSum(c, c.duration);
    if c.ramp > 0 {
      RampSum(c, c.ramp);
      WholeTriangle(c.ramp);
    }
    if c.recovery > 0 {
      RecoverySum(c, c.recovery);
      WholeTriangle(c.recovery);
    }
  }

  lemma EnvelopeSumScaled(c: Config, l: real, a: int, b: int, total: real)
    requires l == c.Level() && total == ShapeSum(c, a, b)
    ensures SumOf(EnvelopeOf(c), a, b) == l * total
  {
    EnvelopeScales(c, l);
    ScaledTotal(EnvelopeOf(c), ShapeOf(c), l, a, b, total);
  }

  /** Over a window that covers the episode the envelope adds up to the clamped severity times the
      episode's weight: `(ramp-1)/2` for the rise, the duration, `(recovery+1)/2` for the fall, a
      missing rise or fall weighing nothing. */
  lemma EpisodeSum(c: Config, level: real, weight: real, a: int, b: int)
    requires c.ramp >= 0 && c.duration >= 0 && c.recovery >= 0 && IsClamp(c.severity, level)
    requires a <= c.start && c.start + c.ramp + c.duration + c.recovery <= b
    requires weight == (if c.ramp > 0 then (c.ramp - 1) as real / 2.0 else 0.0) + c.duration as real
                       + (if c.recovery > 0 then (c.recovery + 1) as real / 2.0 else 0.0)
    ensures SumOf(EnvelopeOf(c), a, b) == level * weight
  {
    ShapeTotal(c, a, b);
    EnvelopeSumScaled(c, level, a, b, weight);
  }
}
