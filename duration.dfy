/**
 * The duration syntax the `time.Duration` setter accepts (Go's
 * `time.ParseDuration`): an optional sign, then one or more groups of a decimal
 * number with an optional fraction followed by a unit (`ns`, `us`, `µs`, `μs`,
 * `ms`, `s`, `m`, `h`); the bare string `0` is zero. The result is in
 * nanoseconds and must fit a signed 64-bit integer.
 */
module Duration {
  import opened Wrappers

  const Limit: int := 0x8000_0000_0000_0000

  predicate IsDigit(c: char)
  {
    '0' <= c <= '9'
  }

  /** The end of the run of digits that starts at `i`. */
  function DigitsEnd(s: string, i: nat): (j: nat)
    requires i <= |s|
    ensures i <= j <= |s|
    ensures forall k :: i <= k < j ==> IsDigit(s[k])
    ensures j < |s| ==> !IsDigit(s[j])
    decreases |s| - i
  {
    if i == |s| || !IsDigit(s[i]) then i else DigitsEnd(s, i + 1)
  }

  /** The end of the unit that starts at `i`: every character up to the next
      digit or `.`. */
  function UnitEnd(s: string, i: nat): (j: nat)
    requires i <= |s|
    ensures i <= j <= |s|
    ensures forall k :: i <= k < j ==> !IsDigit(s[k]) && s[k] != '.'
    ensures j < |s| ==> IsDigit(s[j]) || s[j] == '.'
    decreases |s| - i
  {
    if i == |s| || IsDigit(s[i]) || s[i] == '.' then i else UnitEnd(s, i + 1)
  }

  /** The number a string of digits denotes. */
  function DigitsValue(d: string): (v: nat)
    requires forall k :: 0 <= k < |d| ==> IsDigit(d[k])
  {
    if d == [] then 0
    else
      assert IsDigit(d[|d| - 1]);
      10 * DigitsValue(d[..|d| - 1]) + (d[|d| - 1] as int - '0' as int)
  }

  function Pow10(n: nat): (p: nat)
    ensures p >= 1
  {
    if n == 0 then 1 else 10 * Pow10(n - 1)
  }

  /** Nanoseconds per unit; `None` for an unknown unit. */
  function UnitValue(u: string): (r: Option<nat>)
    ensures r.Some? ==> 1 <= r.value <= 3_600_000_000_000
  {
    if u == "ns" then Some(1)
    else if u == "us" || u == "µs" || u == "μs" then Some(1_000)
    else if u == "ms" then Some(1_000_000)
    else if u == "s" then Some(1_000_000_000)
    else if u == "m" then Some(60_000_000_000)
    else if u == "h" then Some(3_600_000_000_000)
    else None
  }

  /** One group `[0-9]*(.[0-9]*)?unit` at the front of `s`: its value in
      nanoseconds and the rest of the text, or `None` when the group is
      malformed or exceeds 2^63. */
  function Group(s: string): (r: Option<(nat, string)>)
    requires s != []
    ensures r.Some? ==> r.value.0 <= Limit && |r.value.1| < |s|
  {
    if !(s[0] == '.' || IsDigit(s[0])) then None
    else
      var i := DigitsEnd(s, 0);
      var v := DigitsValue(s[..i]);
      if v > Limit then None
      else
        var hasDot := i < |s| && s[i] == '.';
        var j := if hasDot then DigitsEnd(s, i + 1) else i;
        var fraction := if hasDot then s[i + 1..j] else [];
        if i == 0 && fraction == [] then None
        else
          var k := UnitEnd(s, j);
          if k == j then None
          else
            match UnitValue(s[j..k])
            case None => None
            case Some(unit) =>
              match Scale(v, fraction, unit)
              case None => None
              case Some(w) => Some((w, s[k..]))
  }

  function Product(a: nat, b: nat): (p: nat)
  {
    a * b
  }

  function Quotient(a: nat, b: nat): (q: nat)
    requires b >= 1
  {
    a / b
  }

  /** A group's value in nanoseconds: the integer part times the unit, plus the
      fraction of the unit rounded down; `None` beyond 2^63. */
  function Scale(v: nat, fraction: string, unit: nat): (r: Option<nat>)
    requires forall k :: 0 <= k < |fraction| ==> IsDigit(fraction[k])
    requires unit >= 1
    ensures r.Some? ==> r.value <= Limit
  {
    if v > Quotient(Limit, unit) then None
    else
      var whole := Product(v, unit);
      var part := Quotient(Product(DigitsValue(fraction), unit), Pow10(|fraction|));
      if whole + part > Limit then None else Some(whole + part)
  }

  /** The sum of the groups of `s` added to `acc`, failing once it exceeds 2^63. */
  function Groups(s: string, acc: nat): (r: Option<nat>)
    requires acc <= Limit
    ensures r.Some? ==> acc <= r.value <= Limit
    decreases |s|
  {
    if s == [] then Some(acc)
    else
      match Group(s)
      case None => None
      case Some((v, rest)) => if acc + v > Limit then None else Groups(rest, acc + v)
  }

  /** `time.ParseDuration`: nanoseconds, or `None` for text that is not a
      duration or one outside the signed 64-bit range. */
  function ParseDuration(s: string): (r: Option<int>)
    ensures r.Some? ==> -Limit <= r.value < Limit
    ensures s == [] ==> r.None?
  {
    var signed := |s| > 0 && (s[0] == '-' || s[0] == '+');
    var neg := signed && s[0] == '-';
    var body := if signed then s[1..] else s;
    if body == "0" then Some(0)
    else if body == [] then None
    else
      match Groups(body, 0)
      case None => None
      case Some(d) =>
        var n: int := d;
        if neg then Some(-n) else if n >= Limit then None else Some(n)
  }

  /** A number without a unit is not a duration (only `0` is exempt), and an
      unknown unit is rejected. */
  lemma MissingOrUnknownUnit()
    ensures ParseDuration("5") == None
    ensures ParseDuration("0") == Some(0)
    ensures ParseDuration("3d") == None
  {
    assert DigitsEnd("5", 0) == 1;
    assert DigitsEnd("3d", 0) == 1;
    assert UnitEnd("3d", 1) == 2;
  }

  /** `30s` is thirty seconds. */
  lemma ThirtySeconds()
    ensures ParseDuration("30s") == Some(30_000_000_000)
  {
    var s := "30s";
    assert DigitsEnd(s, 0) == 2;
    assert s[..2] == "30";
    assert DigitsValue("30") == 30;
    assert UnitEnd(s, 2) == 3;
    assert s[2..3] == "s";
    assert Group(s) == Some((30_000_000_000, ""));
  }

  /** Groups add up: `1h30m` is ninety minutes. */
  lemma HourAndHalf()
    ensures ParseDuration("1h30m") == Some(5_400_000_000_000)
  {
    var s := "1h30m";
    assert DigitsEnd(s, 0) == 1;
    assert s[..1] == "1";
    assert DigitsValue("1") == 1;
    assert UnitEnd(s, 1) == 2;
    assert s[1..2] == "h";
    assert s[2..] == "30m";
    assert Group(s) == Some((3_600_000_000_000, "30m"));
    var t := "30m";
    assert DigitsEnd(t, 0) == 2;
    assert t[..2] == "30";
    assert DigitsValue("30") == 30;
    assert UnitEnd(t, 2) == 3;
    assert t[2..3] == "m";
    assert Group(t) == Some((1_800_000_000_000, ""));
  }

  /** A fraction scales with its unit and a leading `-` negates: `-1.5ms`. */
  lemma NegativeFraction()
    ensures ParseDuration("-1.5ms") == Some(-1_500_000)
  {
    var s := "1.5ms";
    assert "-1.5ms"[1..] == s;
    assert DigitsEnd(s, 0) == 1;
    assert s[..1] == "1";
    assert DigitsValue("1") == 1;
    assert DigitsEnd(s, 2) == 3;
    assert s[2..3] == "5";
    assert DigitsValue("5") == 5;
    assert UnitEnd(s, 3) == 5;
    assert s[3..5] == "ms";
    assert Scale(1, "5", 1_000_000) == Some(1_500_000);
    assert Group(s) == Some((1_500_000, ""));
  }
}
