/** Relative durations of log filters, as electron/server-manager.js checks them. */
module LogDuration {
  import opened JsStrings
  import opened Versions

  // ------------------------------------------------------------ what a duration is

  datatype Unit = Ns | Us | MicroSignS | GreekMuS | Ms | S | M | H

  function UnitText(unit: Unit): (text: JsString)
    ensures text != [] && !IsDigit(text[0]) && text[0] != DOT
  {
    match unit
    case Ns => [0x6E, 0x73]
    case Us => [0x75, 0x73]
    case MicroSignS => [0xB5, 0x73]
    case GreekMuS => [0x3BC, 0x73]
    case Ms => [0x6D, 0x73]
    case S => [0x73]
    case M => [0x6D]
    case H => [0x68]
  }

  function Nanoseconds(unit: Unit): nat {
    match unit
    case Ns => 1
    case Us => 1_000
    case MicroSignS => 1_000
    case GreekMuS => 1_000
    case Ms => 1_000_000
    case S => 1_000_000_000
    case M => 60_000_000_000
    case H => 3_600_000_000_000
  }

  /** Digits before and behind an optional point; one side may be empty. */
  datatype Number = Number(whole: JsString, point: bool, fraction: JsString)

  predicate AllDigits(s: JsString) {
    forall c :: c in s ==> IsDigit(c)
  }

  predicate IsNumber(n: Number) {
    && AllDigits(n.whole) && AllDigits(n.fraction) && (n.whole != [] || n.fraction != [])
    && (!n.point ==> n.fraction == [])
  }

  function NumberText(n: Number): JsString {
    n.whole + (if n.point then [DOT] + n.fraction else [])
  }

  datatype Component = Component(number: Number, unit: Unit)

  function ComponentText(c: Component): JsString {
    NumberText(c.number) + UnitText(c.unit)
  }

  function TenTo(n: nat): nat
    ensures TenTo(n) > 0
  {
    if n == 0 then 1 else 10 * TenTo(n - 1)
  }

  function Times(amount: nat, unit: nat): nat {
    amount * unit
  }

  function DividedBy(amount: nat, scale: nat): nat
    requires scale > 0
  {
    amount / scale
  }

  /** Whole nanoseconds; what is left of the fraction is cut off. */
  function ComponentValue(c: Component): (v: nat)
    requires IsNumber(c.number)
  {
    var unit := Nanoseconds(c.unit);
    Times(DigitsValue(c.number.whole), unit)
    + DividedBy(Times(DigitsValue(c.number.fraction), unit), TenTo(|c.number.fraction|))
  }

  ghost predicate Components(cs: seq<Component>) {
    forall c :: c in cs ==> IsNumber(c.number)
  }

  function Text(cs: seq<Component>): JsString {
    if cs == [] then [] else ComponentText(cs[0]) + Text(cs[1..])
  }

  ghost function Sum(cs: seq<Component>): nat
    requires Components(cs)
  {
    if cs == [] then 0 else ComponentValue(cs[0]) + Sum(cs[1..])
  }

  const ZERO: JsString := [0x30]

  const MAX_INT64 := 9223372036854775807

  /** The text without its sign, and the largest sum allowed. */
  function Unsigned(value: JsString): (JsString, int) {
    if value != [] && value[0] == HYPHEN then (value[1..], MAX_INT64 + 1)
    else if value != [] && value[0] == PLUS then (value[1..], MAX_INT64)
    else (value, MAX_INT64)
  }

  ghost predicate IsSumOf(body: JsString, cs: seq<Component>, limit: int) {
    cs != [] && Components(cs) && Text(cs) == body && Sum(cs) <= limit
  }

  /** Behind an optional sign: zero, or components whose sum fits into 64 bits. */
  ghost predicate IsDuration(value: JsString) {
    var (body, limit) := Unsigned(value);
    body == ZERO || exists cs :: IsSumOf(body, cs, limit)
  }

  // ------------------------------------------------------------ how it is matched

  function NumberAt(s: JsString): (r: Option<Number>) {
    var d := DigitRun(s);
    if d > 0 && d < |s| && s[d] == DOT then Some(Number(s[..d], true, s[d + 1..][..DigitRun(s[d + 1..])]))
    else if d > 0 then Some(Number(s[..d], false, []))
    else if s != [] && s[0] == DOT && DigitRun(s[1..]) > 0 then Some(Number([], true, s[1..][..DigitRun(s[1..])]))
    else None
  }

  /** The first alternative of `ns|us|µs|μs|ms|s|m|h` that matches. */
  function UnitAt(s: JsString): Option<Unit> {
    if UnitText(Ns) <= s then Some(Ns)
    else if UnitText(Us) <= s then Some(Us)
    else if UnitText(MicroSignS) <= s then Some(MicroSignS)
    else if UnitText(GreekMuS) <= s then Some(GreekMuS)
    else if UnitText(Ms) <= s then Some(Ms)
    else if UnitText(S) <= s then Some(S)
    else if UnitText(M) <= s then Some(M)
    else if UnitText(H) <= s then Some(H)
    else None
  }

  /**
   The match at the start of `s`. Giving back digits or the point does not
   help the expression, because no unit starts with one.
   */
  function ComponentAt(s: JsString): (r: Option<Component>)
    ensures r.Some? ==> IsNumber(r.value.number) && ComponentText(r.value) <= s
  {
    var n := NumberAt(s);
    NumberAtIsNumber(s);
    if n.None? then None
    else
      match UnitAt(s[|NumberText(n.value)|..])
      case None => None
      case Some(unit) =>
        UnitAtIsPrefix(s[|NumberText(n.value)|..]);
        assert s == NumberText(n.value) + s[|NumberText(n.value)|..];
        Some(Component(n.value, unit))
  }

  lemma NumberAtIsNumber(s: JsString)
    ensures NumberAt(s).Some? ==> IsNumber(NumberAt(s).value) && NumberText(NumberAt(s).value) <= s
  {
    DigitRunIsDigits(s);
    var d := DigitRun(s);
    if d > 0 && d < |s| && s[d] == DOT {
      DigitRunIsDigits(s[d + 1..]);
      assert s == s[..d] + ([DOT] + s[d + 1..]);
    } else if s != [] && s[0] == DOT {
      DigitRunIsDigits(s[1..]);
      assert s == [DOT] + s[1..];
    }
  }

  lemma UnitAtIsPrefix(s: JsString)
    ensures UnitAt(s).Some? ==> UnitText(UnitAt(s).value) <= s
  {}

  /** `exec` from a position: the leftmost match. */
  function NextMatch(body: JsString, from: nat): (r: Option<(nat, Component)>)
    requires from <= |body|
    ensures r.Some? ==> from <= r.value.0 <= |body| && ComponentAt(body[r.value.0..]) == Some(r.value.1)
    decreases |body| - from
  {
    if ComponentAt(body[from..]).Some? then Some((from, ComponentAt(body[from..]).value))
    else if from == |body| then None
    else NextMatch(body, from + 1)
  }

  /** The components matched one behind the other, None when a match fails before the end. */
  ghost function Scan(s: JsString): (r: Option<seq<Component>>)
    ensures r.Some? ==> Components(r.value) && Text(r.value) == s
    decreases |s|
  {
    if s == [] then Some([])
    else
      match ComponentAt(s)
      case None => None
      case Some(c) =>
        assert s == ComponentText(c) + s[|ComponentText(c)|..];
        ComponentIsNotEmpty(c);
        match Scan(s[|ComponentText(c)|..])
        case None => None
        case Some(rest) =>
          assert ([c] + rest)[1..] == rest;
          Some([c] + rest)
  }

  lemma ComponentIsNotEmpty(c: Component)
    ensures |ComponentText(c)| > 0
  {}

  ghost function Behind(done: seq<Component>, rest: Option<seq<Component>>): Option<seq<Component>> {
    if rest.None? then None else Some(done + rest.value)
  }

  lemma MatchedComponent(body: JsString, from: nat, c: Component)
    requires from <= |body| && ComponentAt(body[from..]) == Some(c)
    ensures IsNumber(c.number) && |ComponentText(c)| > 0 && from + |ComponentText(c)| <= |body|
    ensures body[..from] + ComponentText(c) == body[..from + |ComponentText(c)|]
  {
    hide UnitText;
  }

  lemma {:induction false} AppendComponent(cs: seq<Component>, c: Component)
    requires Components(cs) && IsNumber(c.number)
    ensures Components(cs + [c]) && Text(cs + [c]) == Text(cs) + ComponentText(c)
    ensures Sum(cs + [c]) == Sum(cs) + ComponentValue(c)
    decreases |cs|
  {
    hide ComponentText, ComponentValue, IsNumber;
    if cs == [] {
      assert cs + [c] == [c] && [c][1..] == [];
    } else {
      assert (cs + [c])[1..] == cs[1..] + [c];
      AppendComponent(cs[1..], c);
    }
  }

  // ------------------------------------------------------------ the components of a text are unique

  predicate StartsNumber(s: JsString) {
    s == [] || IsDigit(s[0]) || s[0] == DOT
  }

  lemma {:induction false} DigitRunOf(s: JsString, rest: JsString)
    requires AllDigits(s) && (rest == [] || !IsDigit(rest[0]))
    ensures DigitRun(s + rest) == |s|
    decreases |s|
  {
    if s == [] {
      assert s + rest == rest;
    } else {
      assert s[0] in s && (s + rest)[1..] == s[1..] + rest;
      DigitRunOf(s[1..], rest);
    }
  }

  /** The number in front of a unit is the longest one. */
  lemma NumberIsFound(n: Number, rest: JsString)
    requires IsNumber(n) && rest != [] && !IsDigit(rest[0]) && rest[0] != DOT
    ensures NumberAt(NumberText(n) + rest) == Some(n)
  {
    hide DigitRun, AllDigits;
    var s := NumberText(n) + rest;
    if n.point {
      var behind := n.fraction + rest;
      assert s == n.whole + ([DOT] + behind);
      DigitRunOf(n.whole, [DOT] + behind);
      DigitRunOf(n.fraction, rest);
      assert s[|n.whole|] == DOT && s[|n.whole| + 1..] == behind && s[..|n.whole|] == n.whole;
      assert behind[..|n.fraction|] == n.fraction;
    } else {
      assert s == n.whole + rest;
      DigitRunOf(n.whole, rest);
      assert s[..|n.whole|] == n.whole;
    }
  }

  /** A unit in front of a number, or of the end, is found; `ms` is not taken for `m`. */
  lemma UnitIsFound(unit: Unit, rest: JsString)
    requires StartsNumber(rest)
    ensures UnitAt(UnitText(unit) + rest) == Some(unit)
  {
    var s := UnitText(unit) + rest;
    assert s[0] == UnitText(unit)[0];
    assert |UnitText(unit)| == 2 ==> s[1] == UnitText(unit)[1];
    assert |UnitText(unit)| == 1 && |s| > 1 ==> s[1] == rest[0];
  }

  lemma ComponentIsFound(c: Component, rest: JsString)
    requires IsNumber(c.number) && StartsNumber(rest)
    ensures ComponentAt(ComponentText(c) + rest) == Some(c)
  {
    hide NumberAt, UnitAt, UnitText, NumberText, StartsNumber, IsNumber;
    var s := ComponentText(c) + rest;
    assert s == NumberText(c.number) + (UnitText(c.unit) + rest);
    NumberIsFound(c.number, UnitText(c.unit) + rest);
    UnitIsFound(c.unit, rest);
    assert s[|NumberText(c.number)|..] == UnitText(c.unit) + rest;
  }

  lemma TextStartsNumber(cs: seq<Component>)
    requires Components(cs)
    ensures StartsNumber(Text(cs))
  {
    if cs != [] {
      var n := cs[0].number;
      assert cs[0] in cs && IsNumber(n);
      hide UnitText;
      assert Text(cs)[0] == NumberText(n)[0];
      assert n.whole != [] ==> NumberText(n)[0] == n.whole[0] && n.whole[0] in n.whole;
    }
  }

  /** A text has at most one division into components, and the scan finds it. */
  lemma {:induction false} ScanFinds(cs: seq<Component>)
    requires Components(cs)
    ensures Scan(Text(cs)) == Some(cs)
    decreases |cs|
  {
    hide ComponentAt, ComponentText, IsNumber, StartsNumber;
    if cs != [] {
      var c, rest := cs[0], Text(cs[1..]);
      assert c in cs;
      TextStartsNumber(cs[1..]);
      ComponentIsFound(c, rest);
      ScanFinds(cs[1..]);
      ComponentIsNotEmpty(c);
      assert (ComponentText(c) + rest)[|ComponentText(c)|..] == rest;
      assert cs == [c] + cs[1..];
    }
  }

  lemma ComponentsAreUnique(cs: seq<Component>, ds: seq<Component>)
    requires Components(cs) && Components(ds) && Text(cs) == Text(ds)
    ensures cs == ds
  {
    hide Scan;
    ScanFinds(cs);
    ScanFinds(ds);
  }

  lemma ScanDecides(body: JsString, limit: int)
    ensures (exists cs :: IsSumOf(body, cs, limit)) <==>
              Scan(body).Some? && Scan(body).value != [] && Sum(Scan(body).value) <= limit
  {
    hide Scan, Sum;
    if cs :| IsSumOf(body, cs, limit) {
      ScanFinds(cs);
    }
    if Scan(body).Some? && Scan(body).value != [] && Sum(Scan(body).value) <= limit {
      assert IsSumOf(body, Scan(body).value, limit);
    }
  }

  // ------------------------------------------------------------ the steps of the loop

  lemma NothingDone(body: JsString)
    ensures Scan(body) == Behind([], Scan(body[0..]))
    ensures Sum([]) == 0
  {
    hide Scan;
    assert body[0..] == body;
    if Scan(body).Some? {
      assert [] + Scan(body).value == Scan(body).value;
    }
  }

  lemma ScanStops(s: JsString)
    ensures ComponentAt(s).None? && s != [] ==> Scan(s).None?
  {}

  lemma ScanStep(body: JsString, from: nat, c: Component, done: seq<Component>)
    requires from < |body| && ComponentAt(body[from..]) == Some(c) && from + |ComponentText(c)| <= |body|
    ensures Behind(done, Scan(body[from..])) == Behind(done + [c], Scan(body[from + |ComponentText(c)|..]))
  {
    hide ComponentAt, ComponentText;
    var rest := body[from + |ComponentText(c)|..];
    assert body[from..][|ComponentText(c)|..] == rest;
    if Scan(rest).Some? {
      assert done + ([c] + Scan(rest).value) == (done + [c]) + Scan(rest).value;
    }
  }

  /** Sums only grow, so a partial sum beyond the limit is final. */
  lemma SumOfMore(done: seq<Component>, rest: Option<seq<Component>>)
    requires Components(done) && (rest.Some? ==> Components(rest.value))
    ensures rest.Some? ==> Components(done + rest.value) && Sum(done + rest.value) >= Sum(done)
  {
    if rest.Some? {
      SumConcat(done, rest.value);
    }
  }

  lemma {:induction false} SumConcat(a: seq<Component>, b: seq<Component>)
    requires Components(a) && Components(b)
    ensures Components(a + b) && Sum(a + b) == Sum(a) + Sum(b)
    decreases |a|
  {
    hide ComponentValue, IsNumber;
    if a == [] {
      assert a + b == b;
    } else {
      assert (a + b)[1..] == a[1..] + b;
      SumConcat(a[1..], b);
    }
  }

  lemma ScanEnds(body: JsString, consumed: nat, done: seq<Component>)
    requires consumed <= |body| && NextMatch(body, consumed).None?
    requires Scan(body) == Behind(done, Scan(body[consumed..]))
    ensures consumed == |body| ==> Scan(body) == Some(done)
    ensures consumed < |body| ==> Scan(body).None?
  {
    ScanStops(body[consumed..]);
    hide Scan, ComponentAt;
    if consumed == |body| {
      EmptyScan();
      assert done + [] == done;
    }
  }

  lemma EmptyScan()
    ensures Scan([]) == Some([])
  {}

  method ValidLogRelativeDuration(value: JsString) returns (valid: bool)
    ensures valid <==> IsDuration(value)
  {
    hide ComponentAt, ComponentText, ComponentValue, Nanoseconds, IsNumber, Scan, Sum, Text;
    var (body, limit) := Unsigned(value);
    if body == ZERO {
      return true;
    }
    ScanDecides(body, limit);
    var total, consumed := 0, 0;
    ghost var done: seq<Component> := [];
    assert body[0..] == body;
    NothingDone(body);
    var next := NextMatch(body, 0);
    while next.Some?
      invariant 0 <= consumed <= |body|
      invariant next == NextMatch(body, consumed)
      invariant Components(done) && Sum(done) == total <= limit
      invariant Scan(body) == Behind(done, Scan(body[consumed..]))
      invariant consumed > 0 <==> done != []
      decreases |body| - consumed
    {
      var (index, component) := next.value;
      if index != consumed {
        ScanStops(body[consumed..]);
        return false;
      }
      MatchedComponent(body, consumed, component);
      ScanStep(body, consumed, component, done);
      AppendComponent(done, component);
      consumed := index + |ComponentText(component)|;
      done := done + [component];
      total := total + ComponentValue(component);
      if total > limit {
        SumOfMore(done, Scan(body[consumed..]));
        return false;
      }
      next := NextMatch(body, consumed);
    }
    valid := consumed > 0 && consumed == |body|;
    ScanEnds(body, consumed, done);
  }


  // ------------------------------------------------------------ names, values and signs

  const MICRO_SIGN: CodeUnit := 0xB5
  const GREEK_MU: CodeUnit := 0x3BC

  /** How the units are spelled, and what each is in terms of the next smaller one. */
  lemma UnitsExactly()
    ensures UnitText(Ns) == Js("ns") && UnitText(Us) == Js("us") && UnitText(Ms) == Js("ms")
    ensures UnitText(MicroSignS) == [MICRO_SIGN] + Js("s") && UnitText(GreekMuS) == [GREEK_MU] + Js("s")
    ensures UnitText(S) == Js("s") && UnitText(M) == Js("m") && UnitText(H) == Js("h")
    ensures Nanoseconds(Ns) == 1 && Nanoseconds(Us) == 1000 * Nanoseconds(Ns)
    ensures Nanoseconds(MicroSignS) == Nanoseconds(Us) && Nanoseconds(GreekMuS) == Nanoseconds(Us)
    ensures Nanoseconds(Ms) == 1000 * Nanoseconds(Us) && Nanoseconds(S) == 1000 * Nanoseconds(Ms)
    ensures Nanoseconds(M) == 60 * Nanoseconds(S) && Nanoseconds(H) == 60 * Nanoseconds(M)
  {}

  lemma TenToExactly(n: nat)
    ensures TenTo(0) == 1 && TenTo(n + 1) == 10 * TenTo(n)
  {}

  lemma {:induction false} DigitsValueConcat(a: JsString, b: JsString)
    requires AllDigits(a) && AllDigits(b)
    ensures AllDigits(a + b)
    ensures DigitsValue(a + b) == Times(DigitsValue(a), TenTo(|b|)) + DigitsValue(b)
    decreases |b|
  {
    if b == [] {
      assert a + b == a;
      TenToExactly(0);
      assert Times(DigitsValue(a), 1) == DigitsValue(a);
    } else {
      var last := |b| - 1;
      assert (a + b)[..|a + b| - 1] == a + b[..last] && (a + b)[|a + b| - 1] == b[last];
      assert forall c :: c in b[..last] ==> c in b;
      DigitsValueConcat(a, b[..last]);
      TenToExactly(last);
      TimesTen(DigitsValue(a), TenTo(last));
    }
  }

  lemma TimesTen(x: nat, y: nat)
    ensures Times(x, 10 * y) == 10 * Times(x, y)
  {}

  lemma DividesDown(amount: nat, scale: nat)
    requires scale > 0
    ensures Times(DividedBy(amount, scale), scale) <= amount < Times(DividedBy(amount, scale) + 1, scale)
  {
    assert amount == amount / scale * scale + amount % scale;
    assert (amount / scale + 1) * scale == amount / scale * scale + scale;
  }

  lemma TimesSum(x: nat, y: nat, z: nat)
    ensures Times(x + y, z) == Times(x, z) + Times(y, z)
  {
    assert (x + y) * z == x * z + y * z;
  }

  lemma TimesSwap(x: nat, y: nat, z: nat)
    ensures Times(Times(x, y), z) == Times(Times(x, z), y)
  {
    assert x * y * z == x * z * y;
  }

  /**
   The value of a component is its decimal number times its unit, cut off to
   whole nanoseconds: with the point taken out of the number, that many powers
   of ten are divided away.
   */
  lemma ValueExactly(c: Component)
    requires IsNumber(c.number)
    ensures AllDigits(c.number.whole + c.number.fraction)
    ensures var all := Times(DigitsValue(c.number.whole + c.number.fraction), Nanoseconds(c.unit));
            var scale := TenTo(|c.number.fraction|);
            Times(ComponentValue(c), scale) <= all < Times(ComponentValue(c) + 1, scale)
  {
    hide DigitsValue, Nanoseconds, TenTo, Times, DividedBy;
    var w, f, unit, scale := c.number.whole, c.number.fraction, Nanoseconds(c.unit), TenTo(|c.number.fraction|);
    var cut := DividedBy(Times(DigitsValue(f), unit), scale);
    DigitsValueConcat(w, f);
    TimesSum(Times(DigitsValue(w), scale), DigitsValue(f), unit);
    TimesSwap(DigitsValue(w), scale, unit);
    DividesDown(Times(DigitsValue(f), unit), scale);
    TimesSum(Times(DigitsValue(w), unit), cut, scale);
    TimesSum(Times(DigitsValue(w), unit), cut + 1, scale);
  }

  /** A minus sign allows one nanosecond more than no sign or a plus sign. */
  lemma SignsExactly(body: JsString)
    ensures var bare := exists cs :: IsSumOf(body, cs, 0x7FFF_FFFF_FFFF_FFFF);
            && (IsDuration(Js("-") + body) <==> body == Js("0") || exists cs :: IsSumOf(body, cs, 0x8000_0000_0000_0000))
            && (IsDuration(Js("+") + body) <==> body == Js("0") || bare)
            && (body == [] || (body[0] != Js("-")[0] && body[0] != Js("+")[0]) ==>
                (IsDuration(body) <==> body == Js("0") || bare))
  {
    hide IsSumOf;
    assert Js("-") == [HYPHEN] && Js("+") == [PLUS] && Js("0") == ZERO;
    assert ([HYPHEN] + body)[1..] == body && ([PLUS] + body)[1..] == body;
  }
}
