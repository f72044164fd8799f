/**
 The retry scheduler's configuration: how often to retry, how many times, for
 how long, and the time units named by strings that `init` resolves.
 */
module ScheduleConfig {
  import opened Wrappers

  /** `java.util.concurrent.TimeUnit`, in the order of `TimeUnit.values()`. */
  datatype TimeUnit = Nanoseconds | Microseconds | Milliseconds | Seconds | Minutes | Hours | Days

  const Units: seq<TimeUnit> := [Nanoseconds, Microseconds, Milliseconds, Seconds, Minutes, Hours, Days]

  /** `unit.name()`. */
  function Name(u: TimeUnit): string {
    match u
      case Nanoseconds => "NANOSECONDS"
      case Microseconds => "MICROSECONDS"
      case Milliseconds => "MILLISECONDS"
      case Seconds => "SECONDS"
      case Minutes => "MINUTES"
      case Hours => "HOURS"
      case Days => "DAYS"
  }

  /** `values()` lists every unit once, and no two units share a name. */
  lemma UnitsAreAll()
    ensures forall u: TimeUnit :: u in Units
    ensures forall i, j :: 0 <= i < j < |Units| ==> Name(Units[i]) != Name(Units[j])
  {
    forall u: TimeUnit
      ensures u in Units
    {
      assert Units[Ordinal(u)] == u;
    }
  }

  /** `unit.ordinal()`. */
  function Ordinal(u: TimeUnit): (k: nat)
    ensures k < |Units| && Units[k] == u
  {
    match u
      case Nanoseconds => 0
      case Microseconds => 1
      case Milliseconds => 2
      case Seconds => 3
      case Minutes => 4
      case Hours => 5
      case Days => 6
  }

  /** The unit whose name is `name`, if there is one. */
  function UnitNamed(name: string): (r: Option<TimeUnit>)
    ensures r.Some? ==> Name(r.value) == name
    ensures r.None? <==> forall u: TimeUnit :: Name(u) != name
  {
    if name == "NANOSECONDS" then Some(Nanoseconds)
    else if name == "MICROSECONDS" then Some(Microseconds)
    else if name == "MILLISECONDS" then Some(Milliseconds)
    else if name == "SECONDS" then Some(Seconds)
    else if name == "MINUTES" then Some(Minutes)
    else if name == "HOURS" then Some(Hours)
    else if name == "DAYS" then Some(Days)
    else None
  }

  /** Looking a unit's own name up gives that unit back. */
  lemma UnitNamedName(u: TimeUnit)
    ensures UnitNamed(Name(u)) == Some(u)
  {
  }

  /**
   `ScheduleConfig`'s fields. The two unit fields stay `null` until `init`
   resolves the strings beside them.
   */
  datatype Config = Config(
    maxRetryTimes: int,
    retryIntervalStr: string,
    retryInterval: int,
    retryIntervalUnit: Option<TimeUnit>,
    maxRetryIntervalStr: string,
    maxRetryInterval: int,
    maxRetryIntervalUnit: Option<TimeUnit>)

  /** The field initialisers: three retries one minute apart, for at most ten minutes. */
  const Default: Config := Config(3, "MINUTES", 1, None, "MINUTES", 10, None)

  /** One field's resolution: the unit named `name`, or the field's old value when no unit has that name. */
  function Resolve(name: string, current: Option<TimeUnit>): Option<TimeUnit> {
    match UnitNamed(name)
      case Some(u) => Some(u)
      case None => current
  }

  /**
   `init()`: each unit field becomes the unit named by its own string. A string
   naming no unit leaves its field as it was, `null` for a fresh object; the
   two fields never influence each other, and nothing else changes.
   */
  function Init(c: Config): (r: Config)
    ensures (exists u: TimeUnit :: Name(u) == c.retryIntervalStr) ==> r.retryIntervalUnit.Some? && Name(r.retryIntervalUnit.value) == c.retryIntervalStr
    ensures (forall u: TimeUnit :: Name(u) != c.retryIntervalStr) ==> r.retryIntervalUnit == c.retryIntervalUnit
    ensures (exists u: TimeUnit :: Name(u) == c.maxRetryIntervalStr) ==> r.maxRetryIntervalUnit.Some? && Name(r.maxRetryIntervalUnit.value) == c.maxRetryIntervalStr
    ensures (forall u: TimeUnit :: Name(u) != c.maxRetryIntervalStr) ==> r.maxRetryIntervalUnit == c.maxRetryIntervalUnit
    ensures r.(retryIntervalUnit := c.retryIntervalUnit, maxRetryIntervalUnit := c.maxRetryIntervalUnit) == c
  {
    c.(retryIntervalUnit := Resolve(c.retryIntervalStr, c.retryIntervalUnit),
       maxRetryIntervalUnit := Resolve(c.maxRetryIntervalStr, c.maxRetryIntervalUnit))
  }

  /** `init()` as the source writes it: one pass over `TimeUnit.values()`, testing both names on each unit. */
  method InitByLoop(c: Config) returns (r: Config)
    ensures r == Init(c)
  {
    r := c;
    var i := 0;
    while i < |Units|
      invariant 0 <= i <= |Units|
      invariant r.(retryIntervalUnit := c.retryIntervalUnit, maxRetryIntervalUnit := c.maxRetryIntervalUnit) == c
      invariant r.retryIntervalUnit == (if exists k :: 0 <= k < i && Name(Units[k]) == c.retryIntervalStr then UnitNamed(c.retryIntervalStr) else c.retryIntervalUnit)
      invariant r.maxRetryIntervalUnit == (if exists k :: 0 <= k < i && Name(Units[k]) == c.maxRetryIntervalStr then UnitNamed(c.maxRetryIntervalStr) else c.maxRetryIntervalUnit)
    {
      var unit := Units[i];
      UnitNamedName(unit);
      if Name(unit) == c.retryIntervalStr {
        r := r.(retryIntervalUnit := Some(unit));
      }
      if Name(unit) == c.maxRetryIntervalStr {
        r := r.(maxRetryIntervalUnit := Some(unit));
      }
      i := i + 1;
    }
    ResolveIsFound(c.retryIntervalStr);
    ResolveIsFound(c.maxRetryIntervalStr);
  }

  /** Some unit in `values()` has the name exactly when `UnitNamed` finds one. */
  lemma ResolveIsFound(name: string)
    ensures (exists k :: 0 <= k < |Units| && Name(Units[k]) == name) <==> UnitNamed(name).Some?
  {
    var r := UnitNamed(name);
    if r.Some? {
      var k := Ordinal(r.value);
      assert Name(Units[k]) == name;
    }
  }

  const LongMax: int := 0x7FFF_FFFF_FFFF_FFFF
  const LongMin: int := -0x8000_0000_0000_0000

  /** Java's `long` division, which truncates toward zero. */
  function JavaDiv(a: int, b: int): (q: int)
    requires b > 0
    ensures a >= 0 ==> q == a / b
    ensures a < 0 ==> q == -((-a) / b)
  {
    if a >= 0 then a / b else -((-a) / b)
  }

  /** The length of one unit in nanoseconds, the scale `TimeUnit` converts through. */
  function NanosPerUnit(u: TimeUnit): (n: int)
    ensures n > 0
  {
    match u
      case Nanoseconds => 1
      case Microseconds => 1_000
      case Milliseconds => 1_000_000
      case Seconds => 1_000_000_000
      case Minutes => 60_000_000_000
      case Hours => 3_600_000_000_000
      case Days => 86_400_000_000_000
  }

  /**
   `unit.toSeconds(d)`: finer units divide, truncating toward zero; coarser ones
   multiply, saturating at the `long` range.
   */
  function ToSeconds(u: TimeUnit, d: int): int {
    var perSecond := NanosPerUnit(Seconds);
    var scale := NanosPerUnit(u);
    if scale == perSecond then d
    else if scale < perSecond then JavaDiv(d, perSecond / scale)
    else
      var ratio := scale / perSecond;
      var m := LongMax / ratio;
      if d > m then LongMax
      else if d < -m then LongMin
      else d * ratio
  }

  /** Java `int` range: the type of `maxRetryInterval`. */
  predicate IsInt(x: int) {
    -0x8000_0000 <= x < 0x8000_0000
  }

  /**
   An `int` amount of any unit never saturates: minutes, hours and days are exact
   multiples of sixty, 3600 and 86400 seconds, and the finer units round toward zero.
   */
  lemma ToSecondsOfInt(u: TimeUnit, d: int)
    requires IsInt(d)
    ensures u == Minutes ==> ToSeconds(u, d) == 60 * d
    ensures u == Hours ==> ToSeconds(u, d) == 3600 * d
    ensures u == Days ==> ToSeconds(u, d) == 86400 * d
    ensures u == Seconds ==> ToSeconds(u, d) == d
    ensures u == Milliseconds ==> ToSeconds(u, d) == JavaDiv(d, 1000)
    ensures LongMin < ToSeconds(u, d) < LongMax
  {
  }

  /** With the defaults, `init` resolves both units to minutes and the retry deadline lies 600 seconds ahead. */
  lemma DefaultDeadlineOffset()
    ensures Init(Default).retryIntervalUnit == Some(Minutes)
    ensures Init(Default).maxRetryIntervalUnit == Some(Minutes)
    ensures ToSeconds(Init(Default).maxRetryIntervalUnit.value, Init(Default).maxRetryInterval) == 600
  {
  }
}
