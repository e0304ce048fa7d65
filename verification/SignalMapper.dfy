/** The server's signal mapping (server/signal_mapper.py): the rule table read from JSON, and for every
    signal scale and offset, clamp, round. Values are reals; a raw signal that is not a number is simply
    not in the raw map. */
module SignalMapper {
  import opened Basics

  datatype Rule = Rule(
    source: string, enabled: bool, scale: real, offset: real,
    min: Option<real>, max: Option<real>, decimals: Option<nat>)

  /** Python's `round`: to the nearest integer, ties to the even one. */
  function RoundHalfEven(x: real): int {
    var f := x.Floor;
    var rest := x - f as real;
    if rest < 0.5 then f else if rest > 0.5 then f + 1 else if f % 2 == 0 then f else f + 1
  }

  function RoundTo(x: real, decimals: nat): real {
    FromUnits(RoundHalfEven(Units(x, decimals)) as real, decimals)
  }

  /** `x` in units of its last decimal kept. */
  function Units(x: real, decimals: nat): real { x * Pow(10.0, decimals) }

  function FromUnits(z: real, decimals: nat): real
  {
    PowTenPositive(decimals);
    z / Pow(10.0, decimals)
  }

  lemma {:induction false} PowTenPositive(n: nat)
    ensures Pow(10.0, n) >= 1.0
  {
    if n > 0 {
      PowTenPositive(n - 1);
    }
  }

  function Affine(r: Rule, raw: real): real { raw * r.scale + r.offset }

  /** The two clamps, in the code's order. */
  function Clamped(r: Rule, value: real): real {
    var raised := if r.min.Some? then MaxR(r.min.value, value) else value;
    if r.max.Some? then MinR(r.max.value, raised) else raised
  }

  function Rounded(r: Rule, value: real): real {
    if r.decimals.Some? then RoundTo(value, r.decimals.value) else value
  }

  function Mapped(r: Rule, raw: real): real { Rounded(r, Clamped(r, Affine(r, raw))) }

  /** `k` is the integer nearest to `u`, of two the even one. */
  predicate IsNearest(k: int, u: real) {
    -0.5 < u - k as real < 0.5 || (-0.5 <= u - k as real <= 0.5 && k % 2 == 0)
  }

  /** `k` units of the last decimal: the multiple of it that is nearest to `x`. */
  predicate IsMultiple(x: real, decimals: nat, out: real, k: int) {
    IsNearest(k, x * Pow(10.0, decimals)) && out * Pow(10.0, decimals) == k as real
  }

  /** `out` is `x` rounded to the given decimals: `x` itself, or the nearest multiple of the last of them. */
  ghost predicate RoundsTo(decimals: Option<nat>, x: real, out: real) {
    match decimals
    case None => out == x
    case Some(d) => exists k: int :: IsMultiple(x, d, out, k)
  }

  /** `out` is what the rule makes of the raw number: it is scaled and shifted ... */
  ghost predicate MapsTo(r: Rule, raw: real, out: real) { ClipsTo(r, raw * r.scale + r.offset, out) }

  /** ... a bound takes the place of a value that violates it, and the result is rounded; with the bounds
      in the wrong order it is always the upper one. */
  ghost predicate ClipsTo(r: Rule, value: real, out: real) {
    && ((r.min.Some? ==> r.min.value <= value) && (r.max.Some? ==> value <= r.max.value)
        ==> RoundsTo(r.decimals, value, out))
    && (r.max.Some? && value > r.max.value ==> RoundsTo(r.decimals, r.max.value, out))
    && (r.min.Some? && value < r.min.value && (r.max.Some? ==> r.min.value <= r.max.value)
        ==> RoundsTo(r.decimals, r.min.value, out))
    && (r.min.Some? && r.max.Some? && r.min.value > r.max.value ==> RoundsTo(r.decimals, r.max.value, out))
  }

  // ---------------------------------------------------------------- the rule table

  /** A JSON value of a rule; `Text` carries what Python's `float` makes of it. */
  datatype Json =
    | Null
    | Bool(b: bool)
    | Integer(n: int)
    | Float(x: real)
    | Text(text: string, number: Option<real>)
    | Composite(isEmpty: bool)

  /** `_to_float`. */
  function ToFloat(v: Json): Option<real> {
    match v
    case Integer(n) => Some(n as real)
    case Float(x) => Some(x)
    case Text(_, number) => number
    case Null => None
    case Bool(_) => None
    case Composite(_) => None
  }

  predicate Truthy(v: Json) {
    match v
    case Null => false
    case Bool(b) => b
    case Integer(n) => n != 0
    case Float(x) => x != 0.0
    case Text(text, _) => text != ""
    case Composite(isEmpty) => !isEmpty
  }

  /** Python's `int` of a float: towards zero. */
  function Truncated(x: real): int { if x >= 0.0 then x.Floor else -((-x).Floor) }

  function ClampDecimals(n: int): (r: nat)
    ensures r <= 6
  {
    Max(0, Min(6, n))
  }

  /** The `decimals` of a rule; a boolean is an integer to Python. */
  function DecimalsOf(v: Json): Option<nat> {
    match v
    case Null => None
    case Bool(b) => Some(ClampDecimals(if b then 1 else 0))
    case Integer(n) => Some(ClampDecimals(n))
    case _ => if ToFloat(v).Some? then Some(ClampDecimals(Truncated(ToFloat(v).value))) else None
  }

  function Field(fields: map<string, Json>, name: string): Json { if name in fields then fields[name] else Null }

  function ParseRule(key: string, fields: map<string, Json>): Rule {
    var source := Field(fields, "source");
    Rule(
      if source.Text? && source.text != "" then source.text else key,
      "enabled" !in fields || Truthy(fields["enabled"]),
      Or(ToFloat(Field(fields, "scale")), 1.0), Or(ToFloat(Field(fields, "offset")), 0.0),
      ToFloat(Field(fields, "min")), ToFloat(Field(fields, "max")), DecimalsOf(Field(fields, "decimals")))
  }

  datatype Entry = NotAnObject | Fields(fields: map<string, Json>)

  /** The configuration file: missing, malformed or without a `signals` object, or its entries. */
  datatype Config = Unusable | Signals(entries: map<string, Entry>)

  class SignalMapper {
    var rules: map<string, Rule>

    constructor (config: Config)
      ensures forall key :: key in rules <==> config.Signals? && key in config.entries && config.entries[key].Fields?
      ensures forall key :: key in rules ==> rules[key] == ParseRule(key, config.entries[key].fields)
    {
      rules := map[];
      new;
      Reload(config);
    }

    /** Replaces the whole table: one rule for each entry that is an object, and none without a usable file. */
    method Reload(config: Config)
      modifies this
      ensures forall key :: key in rules <==> config.Signals? && key in config.entries && config.entries[key].Fields?
      ensures forall key :: key in rules ==> rules[key] == ParseRule(key, config.entries[key].fields)
    {
      if config.Unusable? {
        rules := map[];
        return;
      }
      var parsed: map<string, Rule> := map[];
      var todo := config.entries.Keys;
      while todo != {}
        invariant todo <= config.entries.Keys
        invariant forall key :: key in parsed <==>
          key in config.entries && key !in todo && config.entries[key].Fields?
        invariant forall key :: key in parsed ==> parsed[key] == ParseRule(key, config.entries[key].fields)
        decreases |todo|
      {
        var key :| key in todo;
        todo := todo - {key};
        if config.entries[key].Fields? {
          parsed := parsed[key := ParseRule(key, config.entries[key].fields)];
        }
      }
      rules := parsed;
    }

    /** `apply`: every enabled rule whose source is a number has an output, and nothing else does; with no
        rules the numbers pass through. */
    method Apply(raw: map<string, real>) returns (mapped: map<string, real>)
      ensures rules == map[] ==> mapped == raw
      ensures rules != map[] ==> forall key ::
        key in mapped <==> key in rules && rules[key].enabled && rules[key].source in raw
      ensures rules != map[] ==> forall key :: key in mapped ==>
        && mapped[key] == Mapped(rules[key], raw[rules[key].source])
        && MapsTo(rules[key], raw[rules[key].source], mapped[key])
    {
      if rules == map[] {
        return raw;
      }
      mapped := map[];
      var todo := rules.Keys;
      while todo != {}
        invariant todo <= rules.Keys
        invariant forall key ::
          key in mapped <==> key in rules && key !in todo && rules[key].enabled && rules[key].source in raw
        invariant forall key :: key in mapped ==>
          && mapped[key] == Mapped(rules[key], raw[rules[key].source])
          && MapsTo(rules[key], raw[rules[key].source], mapped[key])
        decreases |todo|
      {
        var key :| key in todo;
        todo := todo - {key};
        var rule := rules[key];
        if rule.enabled && rule.source in raw {
          var value := MapOne(rule, raw[rule.source]);
          mapped := mapped[key := value];
        }
      }
    }

    /** One pass of the loop body of `apply`. */
    static method MapOne(rule: Rule, raw: real) returns (value: real)
      ensures value == Mapped(rule, raw) && MapsTo(rule, raw, value)
    {
      MapsExactly(rule, raw);
      value := raw * rule.scale + rule.offset;
      assert value == Affine(rule, raw);
      if rule.min.Some? {
        value := MaxR(rule.min.value, value);
      }
      if rule.max.Some? {
        value := MinR(rule.max.value, value);
      }
      assert value == Clamped(rule, Affine(rule, raw));
      if rule.decimals.Some? {
        value := RoundTo(value, rule.decimals.value);
      }
    }
  }

  /** What the code takes for a number: integers, floats and numeric texts; `null`, booleans, lists and
      objects are none. */
  lemma NumbersRead(n: int, x: real, b: bool, text: string, number: Option<real>, isEmpty: bool)
    ensures ToFloat(Integer(n)) == Some(n as real) && ToFloat(Float(x)) == Some(x)
    ensures ToFloat(Text(text, number)) == number
    ensures ToFloat(Null).None? && ToFloat(Bool(b)).None? && ToFloat(Composite(isEmpty)).None?
  {
  }

  /** Each field of a rule comes from the entry of its own name, or is its default: the key for a source
      that is no text or empty, on unless a falsy value says otherwise, scale 1, offset 0, no bounds. */
  lemma ParsedFields(key: string, fields: map<string, Json>)
    ensures var r := ParseRule(key, fields);
      && (if "source" in fields && fields["source"].Text? && fields["source"].text != ""
          then r.source == fields["source"].text else r.source == key)
      && ("enabled" !in fields ==> r.enabled)
      && ("enabled" in fields ==>
            r.enabled == match fields["enabled"] {
              case Null => false
              case Bool(b) => b
              case Integer(n) => n != 0
              case Float(x) => x != 0.0
              case Text(text, _) => text != ""
              case Composite(isEmpty) => !isEmpty
            })
      && r.scale ==
           (if "scale" in fields && ToFloat(fields["scale"]).Some? then ToFloat(fields["scale"]).value else 1.0)
      && r.offset ==
           (if "offset" in fields && ToFloat(fields["offset"]).Some? then ToFloat(fields["offset"]).value else 0.0)
      && r.min == (if "min" in fields then ToFloat(fields["min"]) else None)
      && r.max == (if "max" in fields then ToFloat(fields["max"]) else None)
  {
  }

  function Cropped(x: real): nat { if x < 1.0 then 0 else if x >= 6.0 then 6 else x.Floor }

  /** The number of decimals: an integer between 0 and 6 stays, others go to the nearer end; `true` is 1 and
      `false` 0; other numbers lose their fraction; what is no number means no rounding. */
  lemma ParsedDecimals(key: string, fields: map<string, Json>)
    ensures "decimals" !in fields ==> ParseRule(key, fields).decimals == None
    ensures "decimals" in fields ==>
      ParseRule(key, fields).decimals ==
        match fields["decimals"]
        case Null => None
        case Bool(b) => Some(if b then 1 else 0)
        case Integer(n) => Some(if n < 0 then 0 else if n > 6 then 6 else n)
        case Float(x) => Some(Cropped(x))
        case Text(_, number) => if number.Some? then Some(Cropped(number.value)) else None
        case Composite(_) => None
  {
  }

  // ---------------------------------------------------------------- rounding

  /** Rounding gives the nearest integer and, of two equally near, the even one; no other integer does. */
  lemma Nearest(x: real, k: int)
    ensures IsNearest(RoundHalfEven(x), x) && (IsNearest(k, x) ==> k == RoundHalfEven(x))
  {
    var f := x.Floor;
    assert f % 2 == 0 || (f + 1) % 2 == 0;
    assert -0.5 <= x - k as real <= 0.5 ==> k == f || k == f + 1;
  }

  lemma RoundMonotone(x: real, y: real)
    requires x <= y
    ensures RoundHalfEven(x) <= RoundHalfEven(y)
  {
    Nearest(x, 0);
    Nearest(y, 0);
    assert x.Floor <= y.Floor;
  }

  lemma RoundInteger(k: int)
    ensures RoundHalfEven(k as real) == k
  {
  }

  lemma UnitsMonotone(x: real, y: real, decimals: nat)
    requires x <= y
    ensures Units(x, decimals) <= Units(y, decimals)
  {
    PowTenPositive(decimals);
    MulOrder(x, y, Pow(10.0, decimals));
  }

  lemma FromUnitsMonotone(a: real, b: real, decimals: nat)
    requires a <= b
    ensures FromUnits(a, decimals) <= FromUnits(b, decimals)
  {
    PowTenPositive(decimals);
    var p := Pow(10.0, decimals);
    var u, v := a / p, b / p;
    assert u * p == a && v * p == b;
    MulOrder(v, u, p);
  }

  lemma Inverses(x: real, decimals: nat)
    ensures FromUnits(Units(x, decimals), decimals) == x
    ensures Units(FromUnits(x, decimals), decimals) == x
  {
    PowTenPositive(decimals);
  }

  lemma FromUnitsAdds(a: real, b: real, decimals: nat)
    ensures FromUnits(a + b, decimals) == FromUnits(a, decimals) + FromUnits(b, decimals)
  {
    PowTenPositive(decimals);
  }

  lemma RoundToMonotone(x: real, y: real, decimals: nat)
    requires x <= y
    ensures RoundTo(x, decimals) <= RoundTo(y, decimals)
  {
    var u, v := Units(x, decimals), Units(y, decimals);
    UnitsMonotone(x, y, decimals);
    RoundMonotone(u, v);
    FromUnitsMonotone(RoundHalfEven(u) as real, RoundHalfEven(v) as real, decimals);
  }

  lemma RoundToNear(x: real, decimals: nat)
    ensures x - FromUnits(0.5, decimals) <= RoundTo(x, decimals) <= x + FromUnits(0.5, decimals)
  {
    var u := Units(x, decimals);
    var r := RoundHalfEven(u) as real;
    Nearest(u, 0);
    Inverses(x, decimals);
    FromUnitsMonotone(u, r + 0.5, decimals);
    FromUnitsAdds(r, 0.5, decimals);
    FromUnitsMonotone(r, u + 0.5, decimals);
    FromUnitsAdds(u, 0.5, decimals);
  }

  lemma RoundToFixes(k: int, decimals: nat)
    ensures RoundTo(FromUnits(k as real, decimals), decimals) == FromUnits(k as real, decimals)
  {
    Inverses(k as real, decimals);
    RoundInteger(k);
  }

  lemma RoundToIs(x: real, decimals: nat)
    ensures RoundsTo(Some(decimals), x, RoundTo(x, decimals))
  {
    var u := x * Pow(10.0, decimals);
    var k := RoundHalfEven(u);
    Nearest(u, k);
    Inverses(k as real, decimals);
    assert IsMultiple(x, decimals, RoundTo(x, decimals), k);
  }

  lemma RoundedIs(r: Rule, x: real)
    ensures RoundsTo(r.decimals, x, Rounded(r, x))
  {
    if r.decimals.Some? {
      RoundToIs(x, r.decimals.value);
    }
  }

  /** The pipeline in plain terms, and nothing else fits them. */
  lemma MapsExactly(r: Rule, raw: real)
    ensures MapsTo(r, raw, Mapped(r, raw))
  {
    ClipsExactly(r, Affine(r, raw));
  }

  lemma ClipsExactly(r: Rule, value: real)
    ensures ClipsTo(r, value, Rounded(r, Clamped(r, value)))
  {
    RoundedIs(r, value);
    if r.min.Some? {
      RoundedIs(r, r.min.value);
    }
    if r.max.Some? {
      RoundedIs(r, r.max.value);
    }
  }

  lemma CancelFactor(a: real, b: real, p: real)
    requires p > 0.0 && a * p == b * p
    ensures a == b
  {
    MulOrder(a, b, p);
    MulOrder(b, a, p);
  }

  lemma RoundsToOne(decimals: Option<nat>, x: real, a: real, b: real)
    requires RoundsTo(decimals, x, a) && RoundsTo(decimals, x, b)
    ensures a == b
  {
    if decimals.Some? {
      var k: int :| IsMultiple(x, decimals.value, a, k);
      var m: int :| IsMultiple(x, decimals.value, b, m);
      SameMultiple(x, decimals.value, a, b, k, m);
    }
  }

  lemma SameMultiple(x: real, decimals: nat, a: real, b: real, k: int, m: int)
    requires IsMultiple(x, decimals, a, k) && IsMultiple(x, decimals, b, m)
    ensures a == b
  {
    Nearest(x * Pow(10.0, decimals), k);
    Nearest(x * Pow(10.0, decimals), m);
    PowTenPositive(decimals);
    CancelFactor(a, b, Pow(10.0, decimals));
  }

  /** The specification leaves no choice: what fits it is the rule's output. */
  lemma MapsToOne(r: Rule, raw: real, out: real)
    requires MapsTo(r, raw, out)
    ensures out == Mapped(r, raw)
  {
    MapsExactly(r, raw);
    ClipsToOne(r, raw * r.scale + r.offset, out, Mapped(r, raw));
  }

  lemma ClipsToOne(r: Rule, value: real, a: real, b: real)
    requires ClipsTo(r, value, a) && ClipsTo(r, value, b)
    ensures a == b
  {
    var target :=
      if r.min.Some? && r.max.Some? && r.min.value > r.max.value then r.max.value
      else if r.max.Some? && value > r.max.value then r.max.value
      else if r.min.Some? && value < r.min.value then r.min.value
      else value;
    RoundsToOne(r.decimals, target, a, b);
  }

  /** Within the bounds the output is at most half a unit of the last decimal off the scaled value. */
  lemma FollowsAffine(r: Rule, raw: real)
    requires r.min.Some? ==> r.min.value <= raw * r.scale + r.offset
    requires r.max.Some? ==> raw * r.scale + r.offset <= r.max.value
    ensures r.decimals.None? ==> Mapped(r, raw) == raw * r.scale + r.offset
    ensures -Slack(r) <= Mapped(r, raw) - (raw * r.scale + r.offset) <= Slack(r)
  {
    assert Clamped(r, Affine(r, raw)) == raw * r.scale + r.offset;
    if r.decimals.Some? {
      RoundToNear(raw * r.scale + r.offset, r.decimals.value);
    }
  }

  // ---------------------------------------------------------------- range and monotonicity

  /** Half a unit of the last decimal kept, or nothing without rounding. */
  function Slack(r: Rule): real {
    if r.decimals.None? then 0.0
    else FromUnits(0.5, r.decimals.value)
  }

  predicate BoundsOrdered(r: Rule) { r.min.Some? && r.max.Some? ==> r.min.value <= r.max.value }

  /** Whatever comes in, what goes out is within half a unit of the last decimal of the bounds. The upper
      bound wins when the bounds are in the wrong order. */
  lemma WithinRange(r: Rule, raw: real)
    ensures r.max.Some? ==> Mapped(r, raw) <= r.max.value + Slack(r)
    ensures r.min.Some? && BoundsOrdered(r) ==> r.min.value - Slack(r) <= Mapped(r, raw)
    ensures !BoundsOrdered(r) ==> Mapped(r, raw) == Rounded(r, r.max.value)
  {
    if r.decimals.Some? {
      RoundToNear(Clamped(r, Affine(r, raw)), r.decimals.value);
    }
  }

  lemma ClampedThenRounded(r: Rule, a: real, b: real)
    requires a <= b
    ensures Rounded(r, Clamped(r, a)) <= Rounded(r, Clamped(r, b))
  {
    if r.decimals.Some? {
      RoundToMonotone(Clamped(r, a), Clamped(r, b), r.decimals.value);
    }
  }

  /** The whole pipeline never reverses an order with a non-negative scale, and always does or
      flattens it with a non-positive one. */
  lemma Monotone(r: Rule, x: real, y: real)
    requires x <= y
    ensures r.scale >= 0.0 ==> Mapped(r, x) <= Mapped(r, y)
    ensures r.scale <= 0.0 ==> Mapped(r, x) >= Mapped(r, y)
  {
    var d, k := y - x, r.scale;
    assert Affine(r, y) == Affine(r, x) + d * k;
    if k >= 0.0 {
      assert d * k >= 0.0;
      ClampedThenRounded(r, Affine(r, x), Affine(r, y));
    }
    if k <= 0.0 {
      assert d * k <= 0.0;
      ClampedThenRounded(r, Affine(r, y), Affine(r, x));
    }
  }

  /** The tight range: outputs lie between the rounded bounds, each of them on its own. */
  lemma WithinRoundedRange(r: Rule, raw: real)
    ensures r.max.Some? ==> Mapped(r, raw) <= Rounded(r, r.max.value)
    ensures r.min.Some? && BoundsOrdered(r) ==> Rounded(r, r.min.value) <= Mapped(r, raw)
  {
    var value := Clamped(r, Affine(r, raw));
    if r.decimals.Some? {
      if r.max.Some? {
        RoundToMonotone(value, r.max.value, r.decimals.value);
      }
      if r.min.Some? && BoundsOrdered(r) {
        RoundToMonotone(r.min.value, value, r.decimals.value);
      }
    }
  }

  predicate IsUnits(x: real, decimals: nat, k: int) { x == FromUnits(k as real, decimals) }

  /** `x` has no more decimals than the rule keeps. */
  ghost predicate OnGrid(r: Rule, x: real) {
    r.decimals.Some? ==> exists k: int :: IsUnits(x, r.decimals.value, k)
  }

  /** A bound with no more decimals than are kept is kept exactly, whatever the other bound is. */
  lemma WithinGridRange(r: Rule, raw: real)
    ensures r.max.Some? && OnGrid(r, r.max.value) ==> Mapped(r, raw) <= r.max.value
    ensures r.min.Some? && BoundsOrdered(r) && OnGrid(r, r.min.value) ==> r.min.value <= Mapped(r, raw)
  {
    WithinRoundedRange(r, raw);
    if r.max.Some? {
      RoundedOnGrid(r, r.max.value);
    }
    if r.min.Some? {
      RoundedOnGrid(r, r.min.value);
    }
  }

  lemma RoundedOnGrid(r: Rule, x: real)
    ensures OnGrid(r, x) ==> Rounded(r, x) == x
  {
    if r.decimals.Some? && OnGrid(r, x) {
      var k :| IsUnits(x, r.decimals.value, k);
      RoundToFixes(k, r.decimals.value);
    }
  }

  lemma IntegerOnGrid(r: Rule, k: int)
    ensures OnGrid(r, k as real)
  {
    if r.decimals.Some? {
      var p := PowTen(r.decimals.value);
      var units := k * p;
      PowTenPositive(r.decimals.value);
      Inverses(k as real, r.decimals.value);
      assert IsUnits(k as real, r.decimals.value, units);
    }
  }

  lemma {:induction false} PowTen(n: nat) returns (p: int)
    ensures p as real == Pow(10.0, n)
  {
    p := 1;
    if n > 0 {
      var q := PowTen(n - 1);
      p := 10 * q;
    }
  }

  /** Whole-number bounds, as in the shipped table, are kept exactly, whatever number of decimals. */
  lemma WithinIntegerRange(r: Rule, raw: real, k: int)
    ensures r.max == Some(k as real) ==> Mapped(r, raw) <= k as real
    ensures r.min == Some(k as real) && BoundsOrdered(r) ==> k as real <= Mapped(r, raw)
  {
    IntegerOnGrid(r, k);
    WithinGridRange(r, raw);
  }

  /** Whatever table `reload` accepts, no output is further than half a unit past a bound of its rule. */
  lemma ParsedRange(key: string, fields: map<string, Json>, raw: real)
    ensures var r := ParseRule(key, fields);
      && (r.max.Some? ==> Mapped(r, raw) <= r.max.value + 0.5)
      && (r.min.Some? && BoundsOrdered(r) ==> r.min.value - 0.5 <= Mapped(r, raw))
      && (r.decimals.Some? ==> r.decimals.value <= 6) && 0.0 <= Slack(r) <= 0.5
      && (key != "" ==> r.source != "")
  {
    var r := ParseRule(key, fields);
    WithinRange(r, raw);
    if r.decimals.Some? {
      PowTenPositive(r.decimals.value);
      HalfShrinks(Pow(10.0, r.decimals.value));
    }
  }

  lemma HalfShrinks(p: real)
    requires p >= 1.0
    ensures 0.0 <= 0.5 / p <= 0.5
  {
    assert 0.5 <= 0.5 * p;
    RatioOrder(0.5, p, 0.5);
    RatioOrder(0.5, p, 0.0);
  }
}
