/** Punycode (RFC 3492): the decoder of section 6.2, the adaptation of section 6.1, and
    what an encoding written delta by delta decodes to. */
module Punycode {
  import opened Tables

  /** A code point, or a character of the output. */
  type Code = nat

  const INITIAL_N: nat := 128
  const INITIAL_BIAS: nat := 72
  const DELIMITER: Code := 45

  /** t of section 6.2: the threshold of the digit at position k. */
  function Threshold(k: nat, bias: nat): (t: nat)
    ensures 1 <= t <= 26
  {
    if k <= bias then 1 else if k - bias >= 26 then 26 else k - bias
  }

  /** Quotient and remainder. */
  function DivMod(a: nat, b: nat): (nat, nat)
    requires b > 0
    decreases a
  {
    if a < b then (0, a) else var (q, r) := DivMod(a - b, b); (q + 1, r)
  }

  lemma {:induction false} DivModOf(q: nat, r: nat, b: nat)
    requires r < b
    ensures q * b + r >= 0 && DivMod(q * b + r, b) == (q, r)
    decreases q
  {
    if q > 0 {
      assert q * b + r == (q - 1) * b + r + b;
      DivModOf(q - 1, r, b);
    }
  }

  lemma {:induction false} RemainderSmall(a: nat, b: nat)
    requires b > 0
    ensures DivMod(a, b).1 < b
  {
    if a >= b { RemainderSmall(a - b, b); }
  }

  lemma DivModIs(a: nat, b: nat)
    requires b > 0
    ensures DivMod(a, b) == (a / b, a % b)
  {
    QuotientBound(a, b);
    assert a == (a / b) * b + a % b;
    DivModOf(a / b, a % b, b);
  }

  function ScaleDown(delta: nat, k: nat): (nat, nat)
    decreases delta
  {
    if delta > 455 then ScaleDown(delta / 35, k + 36) else (delta, k)
  }

  /** Section 6.1 */
  function Adapt(delta: nat, numPoints: nat, firstTime: bool): nat
    requires numPoints > 0
  {
    var halved := if firstTime then delta / 700 else delta / 2;
    var (d, k) := ScaleDown(halved + DivMod(halved, numPoints).0, 0);
    k + 36 * d / (d + 38)
  }

  // ---- digits ----

  function Digit(d: nat): Code
    requires d < 36
  {
    if d < 26 then 97 + d else 22 + d
  }

  function Value(c: Code): Option<nat> {
    if 97 <= c <= 122 then Some(c - 97)
    else if 65 <= c <= 90 then Some(c - 65)
    else if 48 <= c <= 57 then Some(c - 22)
    else None
  }

  /** A digit that is not the last, and what it leaves. */
  function LowDigit(q: nat, t: nat): (d: nat)
    requires 1 <= t <= 26 && q >= t
    ensures t <= d < 36
  {
    t + (q - t) % (36 - t)
  }

  function Higher(q: nat, t: nat): (r: nat)
    requires 1 <= t <= 26 && q >= t
    ensures r < q
  {
    QuotientBound(q - t, 36 - t);
    (q - t) / (36 - t)
  }

  lemma Product(x: nat, y: nat)
    ensures x * y >= 0
  {
  }

  lemma QuotientBound(a: nat, b: nat)
    requires b > 0
    ensures 0 <= a / b <= a
  {
    var d := a / b;
    assert a == b * d + a % b;
    Product(b - 1, d);
    assert b * d == (b - 1) * d + d;
  }

  /** A generalized variable-length integer: its digits, least significant first. */
  function WriteInt(q: nat, k: nat, bias: nat): (s: seq<Code>)
    ensures s != []
    decreases q
  {
    var t := Threshold(k, bias);
    if q < t then [Digit(q)] else [Digit(LowDigit(q, t))] + WriteInt(Higher(q, t), k + 36, bias)
  }

  /** The integer at the front, in units of w, and how many digits it has. */
  function ReadInt(s: seq<Code>, k: nat, w: nat, bias: nat): (r: Option<(nat, nat)>)
    ensures r.Some? ==> 0 < r.value.1 <= |s|
  {
    if s == [] || Value(s[0]).None? then None
    else
      var d, t := Value(s[0]).value, Threshold(k, bias);
      if d < t then Some((d * w, 1))
      else
        var rest := ReadInt(s[1..], k + 36, w * (36 - t), bias);
        if rest.None? then None else Some((d * w + rest.value.0, rest.value.1 + 1))
  }

  lemma DigitsSum(q: nat, t: nat, w: nat)
    requires 1 <= t <= 26 && q >= t
    ensures LowDigit(q, t) * w + Higher(q, t) * (w * (36 - t)) == q * w
  {
    var b := 36 - t;
    var d, m := (q - t) / b, (q - t) % b;
    assert q == t + m + d * b;
    assert d * (w * b) == (d * b) * w;
    assert (t + m) * w + (d * b) * w == (t + m + d * b) * w;
  }

  lemma ValueOfDigit(d: nat)
    requires d < 36
    ensures Value(Digit(d)) == Some(d)
  {
  }

  lemma ReadStep(c: Code, more: seq<Code>, k: nat, w: nat, bias: nat, d: nat, v: nat, n: nat)
    requires Value(c) == Some(d) && d >= Threshold(k, bias)
    requires ReadInt(more, k + 36, w * (36 - Threshold(k, bias)), bias) == Some((v, n))
    ensures ReadInt([c] + more, k, w, bias) == Some((d * w + v, n + 1))
  {
    assert ([c] + more)[1..] == more;
  }

  lemma {:induction false} IntRoundTrip(q: nat, k: nat, w: nat, bias: nat, rest: seq<Code>)
    ensures ReadInt(WriteInt(q, k, bias) + rest, k, w, bias) == Some((q * w, |WriteInt(q, k, bias)|))
    decreases q
  {
    var t := Threshold(k, bias);
    if q < t {
      ValueOfDigit(q);
    } else {
      var d, h := LowDigit(q, t), Higher(q, t);
      var more := WriteInt(h, k + 36, bias);
      ValueOfDigit(d);
      IntRoundTrip(h, k + 36, w * (36 - t), bias, rest);
      ReadStep(Digit(d), more + rest, k, w, bias, d, h * (w * (36 - t)), |more|);
      assert ([Digit(d)] + more) + rest == [Digit(d)] + (more + rest);
      DigitsSum(q, t, w);
    }
  }

  // ---- the decoder ----

  /** n, i and bias of section 6.2, with the output so far. */
  datatype State = State(n: nat, i: nat, bias: nat, output: seq<Code>)

  /** One delta taken in: where it leads, the insertion, the new bias. */
  function Advance(st: State, delta: nat): State {
    var length := |st.output| + 1;
    var (turns, i) := DivMod(st.i + delta, length);
    RemainderSmall(st.i + delta, length);
    var n := st.n + turns;
    State(n, i + 1, Adapt(delta, length, st.i == 0), st.output[..i] + [n] + st.output[i..])
  }

  function DecodeFrom(s: seq<Code>, st: State): Option<seq<Code>>
    decreases |s|
  {
    if s == [] then Some(st.output)
    else
      var r := ReadInt(s, 36, 1, st.bias);
      if r.None? then None else DecodeFrom(s[r.value.1..], Advance(st, r.value.0))
  }

  /** The place of the last delimiter, the length if there is none. */
  function LastDelimiter(s: seq<Code>): (p: nat)
    ensures p <= |s|
    ensures p < |s| ==> s[p] == DELIMITER && DELIMITER !in s[p + 1..]
    ensures p == |s| ==> DELIMITER !in s
  {
    if s == [] then 0
    else if s[|s| - 1] == DELIMITER then |s| - 1
    else
      var init := s[..|s| - 1];
      assert s == init + [s[|s| - 1]];
      var p := LastDelimiter(init);
      if p == |init| then |s|
      else
        assert s[p + 1..] == init[p + 1..] + [s[|s| - 1]];
        p
  }

  lemma {:induction false} LastDelimiterAt(a: seq<Code>, b: seq<Code>)
    requires DELIMITER !in b
    ensures LastDelimiter(a + [DELIMITER] + b) == |a|
    decreases |b|
  {
    var s := a + [DELIMITER] + b;
    if b != [] {
      var init := b[..|b| - 1];
      assert s[..|s| - 1] == a + [DELIMITER] + init;
      assert s[|s| - 1] == b[|b| - 1] && b[|b| - 1] in b;
      assert forall c :: c in init ==> c in b;
      LastDelimiterAt(a, init);
    }
  }

  /** Section 6.2, over unbounded integers. */
  function Decode(s: seq<Code>): Option<seq<Code>> {
    var p := LastDelimiter(s);
    var basic := if p < |s| then s[..p] else [];
    var extended := if |basic| > 0 then s[|basic| + 1..] else s;
    if exists c :: c in basic && c >= INITIAL_N then None
    else DecodeFrom(extended, State(INITIAL_N, 0, INITIAL_BIAS, basic))
  }

  // ---- an encoding, delta by delta ----

  function StateAfter(basic: seq<Code>, deltas: seq<nat>): State {
    if deltas == [] then State(INITIAL_N, 0, INITIAL_BIAS, basic)
    else Advance(StateAfter(basic, deltas[..|deltas| - 1]), deltas[|deltas| - 1])
  }

  function WriteDeltas(basic: seq<Code>, deltas: seq<nat>): seq<Code> {
    if deltas == [] then []
    else
      var init := deltas[..|deltas| - 1];
      WriteDeltas(basic, init) + WriteInt(deltas[|deltas| - 1], 36, StateAfter(basic, init).bias)
  }

  lemma DeltasSnoc(basic: seq<Code>, deltas: seq<nat>, d: nat)
    ensures StateAfter(basic, deltas + [d]) == Advance(StateAfter(basic, deltas), d)
    ensures WriteDeltas(basic, deltas + [d]) == WriteDeltas(basic, deltas) + WriteInt(d, 36, StateAfter(basic, deltas).bias)
  {
    assert (deltas + [d])[..|deltas|] == deltas;
  }

  /** Decoding the written deltas leads to the state after them. */
  lemma {:induction false} DeltasDecode(basic: seq<Code>, deltas: seq<nat>, rest: seq<Code>)
    ensures DecodeFrom(WriteDeltas(basic, deltas) + rest, StateAfter(basic, [])) == DecodeFrom(rest, StateAfter(basic, deltas))
    decreases |deltas|
  {
    if deltas == [] {
      assert [] + rest == rest;
    } else {
      var init, d := deltas[..|deltas| - 1], deltas[|deltas| - 1];
      var st := StateAfter(basic, init);
      var written := WriteInt(d, 36, st.bias);
      DeltasDecode(basic, init, written + rest);
      assert WriteDeltas(basic, init) + (written + rest) == WriteDeltas(basic, deltas) + rest;
      IntRoundTrip(d, 36, 1, st.bias, rest);
      assert (written + rest)[|written|..] == rest;
    }
  }
}
