/** The interval snapper (src/shared/utils/time.py): a frequency parser for
    `<digits><m|h|d>` and the floor / ceil / nearest snapping of an instant
    to the grid of that frequency, on integer epoch seconds. */
module Time {

  import opened Wrappers
  import opened Text
  import Arith

  /** A datetime's time-zone information: none at all, or a fixed offset
      from UTC in seconds. */
  datatype Zone = Naive | Aware(offsetSeconds: int)

  /** A datetime, reduced to its epoch second and its zone. For an aware
      instant `seconds` is the POSIX timestamp; for a naive one it is the
      wall-clock reading taken as UTC, which is how the snapper reads it. */
  datatype Instant = Instant(seconds: int, zone: Zone)

  /** `dt.tzinfo is not None and dt.utcoffset() == timedelta(0)`. */
  predicate IsUtc(t: Instant) {
    t.zone == Aware(0)
  }

  function Utc(seconds: int): (t: Instant)
    ensures IsUtc(t) && t.seconds == seconds
  {
    Instant(seconds, Aware(0))
  }

  const Minute: nat := 60
  const Hour: nat := 3600
  const Day: nat := 86400

  predicate IsUnit(c: char) {
    c == 'm' || c == 'h' || c == 'd' || c == 'M' || c == 'H' || c == 'D'
  }

  /** Length of a unit in minutes: m = 1, h = 60, d = 1440. */
  function UnitMinutes(c: char): nat
    requires IsUnit(c)
  {
    if c == 'm' || c == 'M' then 1
    else if c == 'h' || c == 'H' then 60
    else 1440
  }

  /** The `_UNITS` table: m = 60 s, h = 3600 s, d = 86400 s. */
  function UnitSeconds(c: char): nat
    requires IsUnit(c)
  {
    UnitMinutes(c) * Minute
  }

  /** `_parse_freq`: the text must be, after optional whitespace, one or
      more ASCII digits, optional whitespace, one unit letter of m/h/d in
      either case, and optional whitespace. The value is the count times the
      unit's length in seconds; a zero count is accepted. */
  function ParseFreq(freq: string): (r: Result<nat>)
    ensures r.Err? ==> r.error == BadFrequency
    ensures r.Ok? ==> r.value % Minute == 0
  {
    var t := Strip(freq);
    if |t| < 2 || !IsUnit(t[|t| - 1]) then Err(BadFrequency)
    else
      var count := RStrip(t[..|t| - 1]);
      if |count| == 0 || !AllDigits(count) then Err(BadFrequency)
      else
        var minutes := DigitsValue(count) * UnitMinutes(t[|t| - 1]);
        Arith.MultipleMod(minutes, Minute);
        Ok(minutes * Minute)
  }

  /** An accepted text holds nothing but whitespace, digits and unit
      letters. */
  lemma ParseFreqAlphabet(freq: string)
    requires ParseFreq(freq).Ok?
    ensures forall i :: 0 <= i < |freq| ==> IsSpace(freq[i]) || IsDigit(freq[i]) || IsUnit(freq[i])
  {
    var l := LStrip(freq);
    var t := RStrip(l);
    assert t == Strip(freq);
    StrippedAlphabet(t);
    var k := |freq| - |l|;
    forall i | 0 <= i < |freq|
      ensures IsSpace(freq[i]) || IsDigit(freq[i]) || IsUnit(freq[i])
    {
      if i < k {
        assert freq[i] == freq[..k][i];
      } else if i >= k + |t| {
        assert freq[i] == l[i - k];
        assert l[i - k] == l[|t|..][i - k - |t|];
      } else {
        assert freq[i] == l[i - k] == t[i - k];
      }
    }
  }

  lemma StrippedAlphabet(t: string)
    requires |t| >= 2 && IsUnit(t[|t| - 1])
    requires var count := RStrip(t[..|t| - 1]); AllDigits(count)
    ensures forall j :: 0 <= j < |t| ==> IsSpace(t[j]) || IsDigit(t[j]) || IsUnit(t[j])
  {
    var count := RStrip(t[..|t| - 1]);
    forall j | 0 <= j < |t|
      ensures IsSpace(t[j]) || IsDigit(t[j]) || IsUnit(t[j])
    {
      if j < |count| {
        assert t[j] == count[j];
      } else if j < |t| - 1 {
        assert t[j] == t[..|t| - 1][|count|..][j - |count|];
      }
    }
  }

  /** Every text of the shape the grammar describes is accepted, with the
      value the digits and the unit give. */
  lemma ParseFreqAccepts(lead: string, digits: string, mid: string, unit: char, trail: string)
    requires AllSpace(lead) && AllSpace(mid) && AllSpace(trail)
    requires |digits| > 0 && AllDigits(digits)
    requires IsUnit(unit)
    ensures ParseFreq(lead + digits + mid + [unit] + trail) == Ok(DigitsValue(digits) * UnitMinutes(unit) * Minute)
  {
    var core := digits + mid + [unit];
    StripFrequency(lead, digits, mid, unit, trail);
    ParseStripped(lead + digits + mid + [unit] + trail, core, digits);
  }

  /** `freq` is the grammar's text: whitespace, one or more digits,
      whitespace, a unit letter, whitespace. */
  predicate FreqShaped(freq: string, lead: string, digits: string, mid: string, unit: char, trail: string) {
    && AllSpace(lead) && |digits| > 0 && AllDigits(digits) && AllSpace(mid) && IsUnit(unit) && AllSpace(trail)
    && freq == lead + digits + mid + [unit] + trail
  }

  /** Conversely, every accepted text has the grammar's shape, and its
      value is what its digits and unit give: texts such as "1 2h" or
      "1h1h" are rejected. */
  lemma ParseFreqShape(freq: string)
    requires ParseFreq(freq).Ok?
    ensures exists lead, digits, mid, unit, trail ::
      && FreqShaped(freq, lead, digits, mid, unit, trail)
      && ParseFreq(freq).value == DigitsValue(digits) * UnitMinutes(unit) * Minute
  {
    var t := Strip(freq);
    var digits := RStrip(t[..|t| - 1]);
    var lead, mid, trail := StrippedParts(freq);
    assert FreqShaped(freq, lead, digits, mid, t[|t| - 1], trail);
  }

  /** A text whose stripped form has at least two characters is its
      leading whitespace, the stripped form's body up to the last
      character split at its own trailing whitespace, that last character,
      and the trailing whitespace. */
  lemma StrippedParts(freq: string) returns (lead: string, mid: string, trail: string)
    requires |Strip(freq)| >= 2
    ensures var t := Strip(freq);
      var digits := RStrip(t[..|t| - 1]);
      && AllSpace(lead) && AllSpace(mid) && AllSpace(trail)
      && freq == lead + digits + mid + [t[|t| - 1]] + trail
  {
    var l := LStrip(freq);
    var t := Strip(freq);
    lead := freq[..|freq| - |l|];
    trail := l[|t|..];
    var body := t[..|t| - 1];
    var digits := RStrip(body);
    mid := body[|digits|..];
    NestedParts(freq, l, t, body, digits);
  }

  /** Peeling a suffix `l` of `s`, a prefix `t` of `l`, the last element
      of `t` and a prefix `digits` of the rest cuts `s` into five pieces. */
  lemma NestedParts<T>(s: seq<T>, l: seq<T>, t: seq<T>, body: seq<T>, digits: seq<T>)
    requires |l| <= |s| && l == s[|s| - |l|..]
    requires 1 <= |t| <= |l| && t == l[..|t|]
    requires body == t[..|t| - 1]
    requires |digits| <= |body| && digits == body[..|digits|]
    ensures s == s[..|s| - |l|] + digits + body[|digits|..] + [t[|t| - 1]] + l[|t|..]
  {
    assert body == digits + body[|digits|..];
    assert t == body + [t[|t| - 1]];
    assert l == t + l[|t|..];
    assert s == s[..|s| - |l|] + l;
  }

  lemma StripFrequency(lead: string, digits: string, mid: string, unit: char, trail: string)
    requires AllSpace(lead) && AllSpace(mid) && AllSpace(trail)
    requires |digits| > 0 && AllDigits(digits)
    requires IsUnit(unit)
    ensures var core := digits + mid + [unit];
      && Strip(lead + digits + mid + [unit] + trail) == core
      && RStrip(core[..|core| - 1]) == digits
  {
    var core := digits + mid + [unit];
    assert lead + digits + mid + [unit] + trail == lead + core + trail;
    assert core[0] == digits[0];
    StripPadded(lead, core, trail);
    assert core[..|core| - 1] == digits + mid;
    RStripSpaceSuffix(digits, mid);
  }

  lemma ParseStripped(freq: string, core: string, digits: string)
    requires Strip(freq) == core && |core| >= 2 && IsUnit(core[|core| - 1])
    requires RStrip(core[..|core| - 1]) == digits && |digits| > 0 && AllDigits(digits)
    ensures ParseFreq(freq) == Ok(DigitsValue(digits) * UnitMinutes(core[|core| - 1]) * Minute)
  {
  }

  /** Two frequencies naming the same number of minutes give the same step
      whatever units and padding they are written with ("24h" and "1d",
      "60m" and " 1H "). */
  lemma EquivalentUnits(a: string, u: char, b: string, v: char, pad: string)
    requires |a| > 0 && AllDigits(a) && IsUnit(u)
    requires |b| > 0 && AllDigits(b) && IsUnit(v)
    requires AllSpace(pad)
    requires DigitsValue(a) * UnitMinutes(u) == DigitsValue(b) * UnitMinutes(v)
    ensures ParseFreq(pad + a + pad + [u] + pad) == ParseFreq(pad + b + pad + [v] + pad)
  {
    ParseFreqAccepts(pad, a, pad, u, pad);
    ParseFreqAccepts(pad, b, pad, v, pad);
  }

  /** A unit letter with no count in front of it is rejected. */
  lemma MissingCountFails(lead: string, unit: char, trail: string)
    requires AllSpace(lead) && AllSpace(trail) && IsUnit(unit)
    ensures ParseFreq(lead + [unit] + trail) == Err(BadFrequency)
  {
    StripPadded(lead, [unit], trail);
  }

  /** Any character that is not whitespace, a digit or a unit letter (a
      sign, a decimal point, an unknown unit) makes the text invalid. */
  lemma ForeignCharacterFails(freq: string, i: int)
    requires 0 <= i < |freq|
    requires !IsSpace(freq[i]) && !IsDigit(freq[i]) && !IsUnit(freq[i])
    ensures ParseFreq(freq) == Err(BadFrequency)
  {
    if ParseFreq(freq).Ok? {
      ParseFreqAlphabet(freq);
    }
  }

  datatype Mode = Floor | Ceil | Nearest

  /** The mode names `snap_to_interval` accepts. */
  function ModeOf(name: string): (m: Option<Mode>)
    ensures m.Some? <==> name in {"floor", "ceil", "nearest"}
  {
    if name == "floor" then Some(Floor)
    else if name == "ceil" then Some(Ceil)
    else if name == "nearest" then Some(Nearest)
    else None
  }

  /** Largest grid point at or below `ts`. */
  function FloorTo(ts: int, step: nat): (g: int)
    requires step > 0
    ensures g % step == 0
    ensures g <= ts < g + step
  {
    assert ts - ts % step == (ts / step) * step;
    Arith.MultipleMod(ts / step, step);
    ts - ts % step
  }

  /** Smallest grid point at or above `ts`. */
  function CeilTo(ts: int, step: nat): (g: int)
    requires step > 0
    ensures g % step == 0
    ensures ts <= g < ts + step
  {
    var rem := ts % step;
    assert ts - rem == (ts / step) * step;
    Arith.MultipleMod(ts / step, step);
    Arith.MultipleMod(ts / step + 1, step);
    if rem == 0 then ts else ts + (step - rem)
  }

  /** The closer of the two neighbouring grid points; at exactly half a step
      the upper one. */
  function NearestTo(ts: int, step: nat): (g: int)
    requires step > 0
    ensures g % step == 0
    ensures 2 * (g - ts) <= step && 2 * (ts - g) < step
  {
    var rem := ts % step;
    assert ts - rem == (ts / step) * step;
    Arith.MultipleMod(ts / step, step);
    Arith.MultipleMod(ts / step + 1, step);
    if 2 * rem < step then ts - rem else ts + (step - rem)
  }

  function SnapTo(ts: int, step: nat, mode: Mode): (g: int)
    requires step > 0
    ensures g % step == 0
  {
    match mode
    case Floor => FloorTo(ts, step)
    case Ceil => CeilTo(ts, step)
    case Nearest => NearestTo(ts, step)
  }

  /** `snap_to_interval(dt, freq, mode)`. The frequency is parsed first; a
      zero step then fails on `ts % step` before the mode is looked at; an
      unknown mode fails last. A naive instant is read as UTC, and the result
      is always UTC-aware. */
  function Snap(dt: Instant, freq: string, mode: string): (r: Result<Instant>)
    ensures ParseFreq(freq).Err? ==> r == Err(BadFrequency)
    ensures ParseFreq(freq) == Ok(0) ==> r == Err(ZeroStep)
    ensures ParseFreq(freq).Ok? && ParseFreq(freq).value > 0 && ModeOf(mode).None? ==> r == Err(BadMode)
    ensures r.Ok? <==> ParseFreq(freq).Ok? && ParseFreq(freq).value > 0 && ModeOf(mode).Some?
    ensures r.Ok? ==> IsUtc(r.value) && r.value.seconds % ParseFreq(freq).value == 0
  {
    var step :- ParseFreq(freq);
    if step == 0 then Err(ZeroStep)
    else match ModeOf(mode)
      case None => Err(BadMode)
      case Some(m) => Ok(Utc(SnapTo(dt.seconds, step, m)))
  }

  /** A point already on the grid is left where it is by every mode. */
  lemma OnGridFixed(g: int, step: nat, mode: Mode)
    requires step > 0 && g % step == 0
    ensures SnapTo(g, step, mode) == g
  {
  }

  /** Snapping an already snapped instant with the same frequency and mode
      returns it unchanged. */
  lemma SnapIdempotent(dt: Instant, freq: string, mode: string)
    requires Snap(dt, freq, mode).Ok?
    ensures Snap(Snap(dt, freq, mode).value, freq, mode) == Snap(dt, freq, mode)
  {
    var step := ParseFreq(freq).value;
    var once := Snap(dt, freq, mode).value;
    OnGridFixed(once.seconds, step, ModeOf(mode).value);
  }

  /** Floor mode: the result is the grid point of the step that contains
      the instant. */
  lemma SnapFloor(dt: Instant, freq: string)
    requires ParseFreq(freq).Ok? && ParseFreq(freq).value > 0
    ensures var step := ParseFreq(freq).value;
      && Snap(dt, freq, "floor").Ok?
      && var g := Snap(dt, freq, "floor").value.seconds;
      g % step == 0 && g <= dt.seconds < g + step
  {
  }

  /** Ceil mode: the first grid point at or after the instant; an on-grid
      instant stays put. */
  lemma SnapCeil(dt: Instant, freq: string)
    requires ParseFreq(freq).Ok? && ParseFreq(freq).value > 0
    ensures var step := ParseFreq(freq).value;
      && Snap(dt, freq, "ceil").Ok?
      && var g := Snap(dt, freq, "ceil").value.seconds;
      && g % step == 0 && dt.seconds <= g < dt.seconds + step
      && (dt.seconds % step == 0 ==> g == dt.seconds)
  {
  }

  /** With a known step, floor and ceil mode are `FloorTo` and `CeilTo`. */
  lemma SnapWithStep(dt: Instant, freq: string, step: nat)
    requires ParseFreq(freq) == Ok(step) && step > 0
    ensures Snap(dt, freq, "floor") == Ok(Utc(FloorTo(dt.seconds, step)))
    ensures Snap(dt, freq, "ceil") == Ok(Utc(CeilTo(dt.seconds, step)))
  {
  }

  /** Nearest mode picks the floor when the remainder is under half a step
      and the ceiling otherwise, so an exact tie rounds up. */
  lemma SnapNearest(dt: Instant, freq: string)
    requires ParseFreq(freq).Ok? && ParseFreq(freq).value > 0
    ensures var step := ParseFreq(freq).value;
      && Snap(dt, freq, "nearest").Ok?
      && var g := Snap(dt, freq, "nearest").value.seconds;
      && var rem := dt.seconds % step;
      && (2 * rem < step ==> g == FloorTo(dt.seconds, step))
      && (2 * rem >= step ==> g == CeilTo(dt.seconds, step) && g > dt.seconds)
      && (2 * rem == step ==> g - dt.seconds == rem)
  {
  }

  /** A zero count passes the parser and then fails when snapping. */
  lemma ZeroCountFails(dt: Instant, lead: string, digits: string, unit: char, mode: string)
    requires AllSpace(lead) && |digits| > 0 && AllDigits(digits) && DigitsValue(digits) == 0 && IsUnit(unit)
    ensures ParseFreq(lead + digits + lead + [unit] + lead) == Ok(0)
    ensures Snap(dt, lead + digits + lead + [unit] + lead, mode) == Err(ZeroStep)
  {
    ParseFreqAccepts(lead, digits, lead, unit, lead);
  }
}
