/** Configuration access (src/config/loader.py): a dotted-path lookup into
    a nested configuration dictionary and the environment-or-value
    fallback, plus the Python conversions (`bool(...)`, `int(...)`) the
    callers apply to what they read. */
module Config {

  import opened Wrappers
  import opened Text

  /** A parsed configuration value. */
  datatype Value =
    | VNone
    | VBool(b: bool)
    | VInt(i: int)
    | VStr(s: string)
    | VList(items: seq<Value>)
    | VDict(entries: map<string, Value>)

  /** Follow `parts` from `cur`: every step needs a dictionary holding the
      key; any miss yields `default`. */
  function Walk(cur: Value, parts: seq<string>, default: Value): Value
    decreases |parts|
  {
    if |parts| == 0 then cur
    else if !cur.VDict? || parts[0] !in cur.entries then default
    else Walk(cur.entries[parts[0]], parts[1..], default)
  }

  /** `conf_get`: a missing or empty dictionary gives `default`;
      otherwise the path is split at every '.' and followed. */
  function ConfGet(obj: Option<map<string, Value>>, path: string, default: Value): (r: Value)
    ensures obj.None? || obj.value == map[] ==> r == default
  {
    if obj.None? || obj.value == map[] then default
    else Walk(VDict(obj.value), Split(path, '.'), default)
  }

  /** A single key: the stored value whatever it is (even `None` or
      falsy), or `default` when the key is absent. */
  lemma ConfGetKey(m: map<string, Value>, k: string, default: Value)
    requires m != map[] && '.' !in k
    ensures ConfGet(Some(m), k, default) == if k in m then m[k] else default
  {
    SplitNoSep(k, '.');
    var parts := Split(k, '.');
    assert parts[0] == k && parts[1..] == [];
    if k in m {
      assert Walk(VDict(m), parts, default) == Walk(m[k], [], default);
    }
  }

  /** Looking up `a.rest` is looking up `rest` in the dictionary under
      `a`. */
  lemma ConfGetNested(m: map<string, Value>, a: string, rest: string, default: Value)
    requires m != map[] && '.' !in a && a in m && m[a].VDict?
    ensures ConfGet(Some(m), a + "." + rest, default) == ConfGet(Some(m[a].entries), rest, default)
  {
    SplitHead(a, '.', rest);
    assert a + "." + rest == a + ['.'] + rest;
    var parts := Split(a + "." + rest, '.');
    assert parts[0] == a && parts[1..] == Split(rest, '.');
    assert Walk(VDict(m), parts, default) == Walk(m[a], Split(rest, '.'), default);
    var inner := m[a].entries;
    if inner == map[] {
      var ps := Split(rest, '.');
      assert ps[0] !in inner;
    }
  }

  /** A missing key or a non-dictionary on the way gives `default`. */
  lemma ConfGetBlocked(m: map<string, Value>, a: string, rest: string, default: Value)
    requires '.' !in a && (a !in m || !m[a].VDict?)
    ensures ConfGet(Some(m), a + "." + rest, default) == default
  {
    SplitHead(a, '.', rest);
    assert a + "." + rest == a + ['.'] + rest;
    var parts := Split(a + "." + rest, '.');
    assert parts[0] == a;
    if m != map[] && a in m {
      var ps := Split(rest, '.');
      assert parts[1..] == ps && |ps| >= 1;
      assert Walk(VDict(m), parts, default) == Walk(m[a], ps, default);
    }
  }

  /** `env_or_value`: a set variable named by a non-empty `envName` wins,
      even when its text is empty; otherwise `value` unless it is `None`,
      then `default`. */
  function EnvOrValue(envName: Option<string>, env: string -> Option<string>, value: Value, default: Value): (r: Value)
    ensures EnvHit(envName, env) ==> r == VStr(env(envName.value).value)
    ensures !EnvHit(envName, env) ==> (value != VNone ==> r == value) && (value == VNone ==> r == default)
    ensures r == VNone <==> !EnvHit(envName, env) && value == VNone && default == VNone
  {
    if EnvHit(envName, env) then VStr(env(envName.value).value)
    else if value != VNone then value
    else default
  }

  /** The environment supplies the value. */
  predicate EnvHit(envName: Option<string>, env: string -> Option<string>) {
    envName.Some? && envName.value != [] && env(envName.value).Some?
  }

  /** Python truthiness. */
  predicate Truthy(v: Value) {
    match v
    case VNone => false
    case VBool(b) => b
    case VInt(i) => i != 0
    case VStr(s) => s != []
    case VList(xs) => xs != []
    case VDict(m) => m != map[]
  }

  /** `int(v)`: booleans are 0 and 1, integers stay, text is stripped
      and read as an integer literal; anything else raises (`None`). */
  function IntOf(v: Value): (r: Option<int>)
    ensures v.VInt? ==> r == Some(v.i)
    ensures v.VBool? ==> r == Some(if v.b then 1 else 0)
    ensures v.VStr? ==> r == ParseInt(Strip(v.s))
    ensures v.VNone? || v.VList? || v.VDict? ==> r.None?
  {
    match v
    case VBool(b) => Some(if b then 1 else 0)
    case VInt(i) => Some(i)
    case VStr(s) => ParseInt(Strip(s))
    case _ => None
  }

  /** The digits of an integer literal as `int()` accepts them: a
      non-empty run of ASCII digits in which a single underscore may stand
      between two digits. */
  predicate Grouped(d: string) {
    && |d| > 0 && IsDigit(d[0]) && IsDigit(d[|d| - 1])
    && (forall i :: 0 <= i < |d| ==> IsDigit(d[i]) || d[i] == '_')
    && (forall i :: 0 <= i < |d| - 1 && d[i] == '_' ==> d[i + 1] != '_')
  }

  /** The text with its underscores removed. */
  function Ungroup(d: string): (u: string)
    ensures (forall i :: 0 <= i < |d| ==> IsDigit(d[i]) || d[i] == '_') ==> AllDigits(u)
    ensures AllDigits(d) ==> u == d
  {
    if |d| == 0 then []
    else
      var init := d[..|d| - 1];
      assert init + [d[|d| - 1]] == d;
      Ungroup(init) + (if d[|d| - 1] == '_' then [] else [d[|d| - 1]])
  }

  /** The value of grouped digits in base ten. */
  function GroupedValue(d: string): nat
    requires Grouped(d)
  {
    DigitsValue(Ungroup(d))
  }

  /** A sign followed by grouped digits. */
  predicate Signed(t: string) {
    |t| > 1 && (t[0] == '+' || t[0] == '-') && Grouped(t[1..])
  }

  /** `int()` of stripped text: an optional sign, then grouped digits,
      read in base ten; every other text raises (`None`). */
  function ParseInt(t: string): (r: Option<int>)
    ensures Grouped(t) ==> r == Some(GroupedValue(t))
    ensures Signed(t) && t[0] == '+' ==> r == Some(GroupedValue(t[1..]))
    ensures Signed(t) && t[0] == '-' ==> r == Some(-(GroupedValue(t[1..]) as int))
    ensures r.Some? <==> Grouped(t) || Signed(t)
  {
    if |t| > 0 && (t[0] == '+' || t[0] == '-') then
      var d := t[1..];
      if Grouped(d) then
        var n: int := GroupedValue(d);
        Some(if t[0] == '-' then -n else n)
      else None
    else if Grouped(t) then Some(GroupedValue(t))
    else None
  }

  /** `str(n)` for a natural number: its decimal digits. */
  function Decimal(n: nat): (s: string)
    ensures |s| > 0 && AllDigits(s) && DigitsValue(s) == n
    decreases n
  {
    var last := [('0' as int + n % 10) as char];
    if n < 10 then last
    else
      var init := Decimal(n / 10);
      assert (init + last)[..|init|] == init;
      init + last
  }

  /** `str(i)`: a minus sign before the digits of a negative number. */
  function IntText(i: int): string {
    if i < 0 then "-" + Decimal(-i) else Decimal(i)
  }

  /** `int()` reads back what `str()` writes. */
  lemma ParseIntText(i: int)
    ensures ParseInt(IntText(i)) == Some(i)
  {
    var n: nat := if i < 0 then -i else i;
    var d := Decimal(n);
    DecimalGrouped(n);
    if i < 0 {
      var x := "-" + d;
      assert x[1..] == d && x[0] == '-';
      assert ParseInt(x) == Some(-(GroupedValue(d) as int));
    } else {
      assert ParseInt(d) == Some(GroupedValue(d));
    }
  }

  lemma DecimalGrouped(n: nat)
    ensures Grouped(Decimal(n)) && Ungroup(Decimal(n)) == Decimal(n)
  {
  }

  /** ... whatever whitespace surrounds the text. */
  lemma IntOfText(i: int, lead: string, trail: string)
    requires AllSpace(lead) && AllSpace(trail)
    ensures IntOf(VStr(lead + IntText(i) + trail)) == Some(i)
  {
    var x := IntText(i);
    assert !IsSpace(x[0]) && !IsSpace(x[|x| - 1]);
    StripPadded(lead, x, trail);
    ParseIntText(i);
  }

  /** `int(conf_get(conf, path, default))` for an integer default. */
  function IntSetting(conf: Option<map<string, Value>>, path: string, default: int): Option<int> {
    IntOf(ConfGet(conf, path, VInt(default)))
  }
}
