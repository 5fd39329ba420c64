/** uv__idna_toascii_label (src/idna.c), over the code points of a label: what it writes
    is decoded by RFC 3492 to the label. */
module Idna {
  import opened Tables
  import opened Punycode
  import opened Sequences

  const MAX32: nat := 0xFFFF_FFFF
  const MAX_CODE: nat := 0x10_FFFF
  const UV_E2BIG: int := -7

  // ---- which part of the label has been handled ----

  /** The code points below m, and those equal to m before place s, in order. */
  function Keep(word: seq<Code>, m: nat, s: nat): (r: seq<Code>)
    ensures |r| <= |word|
  {
    if word == [] then []
    else
      var p := |word| - 1;
      Keep(word[..p], m, s) + if word[p] < m || (word[p] == m && p < s) then [word[p]] else []
  }

  lemma {:induction false} KeepLess(word: seq<Code>, n: nat, m: nat)
    requires n <= m && forall c :: c in word ==> c < n || c >= m
    ensures Keep(word, n, 0) == Keep(word, m, 0)
  {
    if word != [] {
      var p := |word| - 1;
      assert word == word[..p] + [word[p]] && forall c :: c in word[..p] ==> c in word;
      assert word[p] in word;
      KeepLess(word[..p], n, m);
    }
  }

  lemma {:induction false} KeepAll(word: seq<Code>, m: nat)
    requires forall c :: c in word ==> c < m
    ensures Keep(word, m, 0) == word
  {
    if word != [] {
      var p := |word| - 1;
      assert word == word[..p] + [word[p]] && forall c :: c in word[..p] ==> c in word;
      assert word[p] in word;
      KeepAll(word[..p], m);
    }
  }

  lemma {:induction false} KeepPast(word: seq<Code>, m: nat, s: nat)
    requires s >= |word|
    ensures Keep(word, m, s) == Keep(word, m + 1, 0)
  {
    if word != [] { KeepPast(word[..|word| - 1], m, s); }
  }

  /** Place s holds something other than m: nothing more is handled. */
  lemma {:induction false} KeepOther(word: seq<Code>, m: nat, s: nat)
    requires s < |word| ==> word[s] != m
    ensures Keep(word, m, s + 1) == Keep(word, m, s)
  {
    if word != [] { KeepOther(word[..|word| - 1], m, s); }
  }

  /** How many of the first s code points are at most m. */
  function Rank(word: seq<Code>, m: nat, s: nat): nat
    requires s <= |word|
  {
    if s == 0 then 0 else Rank(word, m, s - 1) + if word[s - 1] <= m then 1 else 0
  }

  lemma {:induction false} RankInit(word: seq<Code>, m: nat, s: nat)
    requires s < |word|
    ensures Rank(word, m, s) == Rank(word[..|word| - 1], m, s)
  {
    if s > 0 { RankInit(word, m, s - 1); }
  }

  lemma {:induction false} RankAll(word: seq<Code>, m: nat, s: nat)
    requires s == |word|
    ensures Rank(word, m, s) == |Keep(word, m, s)|
    decreases s
  {
    if s > 0 {
      var init := word[..s - 1];
      RankInit(word, m, s - 1);
      RankAll(init, m, s - 1);
      KeepPast(init, m, s - 1);
      KeepPast(init, m, s);
    }
  }

  /** Handling an m at place s inserts it after what is kept of the first s. */
  lemma {:induction false} KeepInserts(word: seq<Code>, m: nat, s: nat)
    requires s < |word| && word[s] == m
    ensures var k, c := Keep(word, m, s), Rank(word, m, s);
            c <= |k| && Keep(word, m, s + 1) == k[..c] + [m] + k[c..]
    decreases |word|
  {
    var p := |word| - 1;
    var init := word[..p];
    RankInit(word, m, s);
    if s == p {
      RankAll(init, m, p);
      KeepPast(init, m, p);
      KeepPast(init, m, p + 1);
    } else {
      KeepInserts(init, m, s);
      if Keep(word, m, s + 1) != Keep(init, m, s + 1) {
        var k, c, x := Keep(init, m, s), Rank(word, m, s), Keep(word, m, s)[|Keep(word, m, s)| - 1];
        LongerAfter(k, c, m, x);
      }
    }
  }

  lemma LongerAfter(k: seq<Code>, c: nat, m: Code, x: Code)
    requires c <= |k|
    ensures k[..c] + [m] + k[c..] + [x] == (k + [x])[..c] + [m] + (k + [x])[c..]
  {
  }

  // ---- the output, cut off at the room there is ----

  function Cut(s: seq<Code>, room: nat): seq<Code> {
    if |s| <= room then s else s[..room]
  }

  /** if (*d < de) *(*d)++ = c */
  method Put(out: seq<Code>, room: nat, c: Code, ghost full: seq<Code>) returns (r: seq<Code>)
    requires out == Cut(full, room)
    ensures r == Cut(full + [c], room)
  {
    r := if |out| < room then out + [c] else out;
  }

  /** One digit written, the rest still to come. */
  lemma DigitOut(done: seq<Code>, q: nat, k: nat, t: nat, bias: nat)
    requires t == Threshold(k, bias) && q >= t
    ensures done + WriteInt(q, k, bias) == done + [Digit(LowDigit(q, t))] + WriteInt(Higher(q, t), k + 36, bias)
  {
    Regroup(done, [Digit(LowDigit(q, t))], WriteInt(Higher(q, t), k + 36, bias));
  }

  /** The least significant digit at threshold t, and what it leaves. */
  method TakeDigit(q: nat, t: nat) returns (q': nat, digit: nat)
    requires 1 <= t <= 26 && q >= t
    ensures digit == LowDigit(q, t) && q' == Higher(q, t) < q
  {
    var x, y := q - t, 36 - t;
    QuotientBound(x, y);
    q' := x / y;
    digit := t + x % y;
  }

  /** The digits of one delta. */
  method PutInt(out0: seq<Code>, room: nat, delta: nat, bias: nat, ghost full: seq<Code>) returns (out: seq<Code>)
    requires out0 == Cut(full, room)
    ensures out == Cut(full + WriteInt(delta, 36, bias), room)
  {
    out := out0;
    var k: nat, q: nat := 36, delta;
    ghost var done := full;
    while true
      invariant out == Cut(done, room) && done + WriteInt(q, k, bias) == full + WriteInt(delta, 36, bias)
      decreases q
    {
      var t := 1;
      if k > bias {
        t := k - bias;
      }
      if t > 26 {
        t := 26;
      }
      if q < t {
        break;
      }
      DigitOut(done, q, k, t, bias);
      q, t := TakeDigit(q, t);
      out := Put(out, room, Digit(t), done);
      done := done + [Digit(t)];
      k := k + 36;
    }
    out := Put(out, room, Digit(q), done);
  }

  lemma Damp(d: nat)
    ensures d / 2 / 350 == d / 700
  {
  }

  /** The new bias, as the encoder computes it. */
  method AdaptBias(delta0: nat, h: nat, first: bool) returns (bias: nat)
    requires h > 0
    ensures bias == Adapt(delta0, h, first)
  {
    var delta: nat := delta0 / 2;
    if first {
      Damp(delta0);
      delta := delta / 350;
    }
    DivModIs(delta, h);
    delta := delta + delta / h;
    bias := Skew(delta);
  }

  method Skew(delta0: nat) returns (bias: nat)
    ensures var (d, k) := ScaleDown(delta0, 0); bias == k + 36 * d / (d + 38)
  {
    var delta: nat := delta0;
    bias := 0;
    while delta > 35 * 26 / 2
      invariant ScaleDown(delta, bias) == ScaleDown(delta0, 0)
    {
      delta := delta / 35;
      bias := bias + 36;
    }
    bias := bias + 36 * delta / (delta + 38);
  }

  // ---- what the decoder has to do to get to the next insertion ----

  /** Turns of the decoder's cycle over a state's output, in steps. */
  function Cycle(turns: int, st: State): int {
    turns * (|st.output| + 1)
  }

  /** From decoder state st, with the code points below m handled and those equal to m
      before place s, delta is what it takes to get to an insertion at place s. */
  ghost predicate EncodingAt(word: seq<Code>, st: State, m: nat, s: nat, delta: int)
    requires s <= |word|
  {
    st.n <= m && st.output == Keep(word, m, s) && st.i + delta == Cycle(m - st.n, st) + Rank(word, m, s)
  }

  /** A code point other than m is passed. */
  lemma Passes(word: seq<Code>, st: State, m: nat, s: nat, delta: int)
    requires s < |word| && EncodingAt(word, st, m, s, delta) && word[s] != m
    ensures EncodingAt(word, st, m, s + 1, delta + if word[s] < m then 1 else 0)
  {
    KeepOther(word, m, s);
  }

  lemma AdvancesTo(st: State, delta: nat, m: nat, c: nat)
    requires st.n <= m && c <= |st.output| && st.i + delta == Cycle(m - st.n, st) + c
    ensures Advance(st, delta)
         == State(m, c + 1, Adapt(delta, |st.output| + 1, st.i == 0), st.output[..c] + [m] + st.output[c..])
  {
    DivModOf(m - st.n, c, |st.output| + 1);
  }

  /** An m is reached: writing delta makes the decoder insert it where it belongs. */
  lemma Inserts(word: seq<Code>, st: State, m: nat, s: nat, delta: nat) returns (st': State)
    requires s < |word| && EncodingAt(word, st, m, s, delta) && word[s] == m
    ensures st' == Advance(st, delta) && st'.n == m && st'.i > 0 && |st'.output| == |st.output| + 1
    ensures st'.bias == Adapt(delta, |st.output| + 1, st.i == 0)
    ensures EncodingAt(word, st', m, s + 1, 0)
  {
    var c := Rank(word, m, s);
    KeepInserts(word, m, s);
    AdvancesTo(st, delta, m, c);
    st' := State(m, c + 1, Adapt(delta, |st.output| + 1, st.i == 0), st.output[..c] + [m] + st.output[c..]);
  }

  /** The next value m in the label that is at least n. */
  lemma Skips(word: seq<Code>, st: State, n: nat, m: nat, delta: int)
    requires EncodingAt(word, st, n, 0, delta) && n <= m && forall c :: c in word ==> c < n || c >= m
    ensures EncodingAt(word, st, m, 0, delta + Cycle(m - n, st))
  {
    KeepLess(word, n, m);
    assert Cycle(m - st.n, st) == Cycle(n - st.n, st) + Cycle(m - n, st);
  }

  /** The label has been gone through for m. */
  lemma Turns(word: seq<Code>, st: State, m: nat, delta: int)
    requires EncodingAt(word, st, m, |word|, delta) && st.n == m
    ensures EncodingAt(word, st, m + 1, 0, delta + 1)
    ensures delta <= |word| - st.i
  {
    RankAll(word, m, |word|);
    KeepPast(word, m, |word|);
  }

  // ---- the encoder ----

  const PREFIX: seq<Code> := [120, 110, 45, 45]

  function Basic(word: seq<Code>): seq<Code> {
    Keep(word, INITIAL_N, 0)
  }

  function Separator(basic: seq<Code>): seq<Code> {
    if basic == [] then [] else [DELIMITER]
  }

  method CountBasic(word: seq<Code>) returns (h: nat, todo: nat)
    ensures h == |Basic(word)| && h + todo == |word|
  {
    h, todo := 0, 0;
    for i := 0 to |word|
      invariant h == |Basic(word[..i])| && h + todo == i
    {
      assert word[..i + 1][..i] == word[..i];
      if word[i] < 128 {
        h := h + 1;
      } else {
        todo := todo + 1;
      }
    }
    assert word[..|word|] == word;
  }

  /** Copies the ASCII characters, h in number. */
  method PutBasic(word: seq<Code>, h: nat, out0: seq<Code>, room: nat, ghost full: seq<Code>) returns (out: seq<Code>)
    requires h == |Basic(word)| && out0 == Cut(full, room)
    ensures out == Cut(full + Basic(word), room)
  {
    out := out0;
    var x := 0;
    assert full + [] == full;
    for i := 0 to |word|
      invariant x == |Basic(word[..i])| && out == Cut(full + Basic(word[..i]), room)
    {
      assert word[..i + 1][..i] == word[..i];
      if word[i] <= 127 {
        assert full + (Basic(word[..i]) + [word[i]]) == full + Basic(word[..i]) + [word[i]];
        out := Put(out, room, word[i], full + Basic(word[..i]));
        x := x + 1;
        if x == h {
          BasicDone(word, i + 1);
          return;
        }
      }
    }
    assert word[..|word|] == word;
  }

  lemma {:induction false} BasicDone(word: seq<Code>, i: nat)
    requires i <= |word| && |Basic(word[..i])| >= |Basic(word)|
    ensures Basic(word[..i]) == Basic(word)
  {
    if i < |word| {
      BasicGrows(word[..|word| - 1], i);
      assert word[..|word| - 1][..i] == word[..i];
      BasicDone(word[..|word| - 1], i);
    } else {
      assert word[..i] == word;
    }
  }

  lemma {:induction false} BasicGrows(word: seq<Code>, i: nat)
    requires i <= |word|
    ensures |Basic(word[..i])| <= |Basic(word)|
  {
    if i < |word| {
      assert word[..|word| - 1][..i] == word[..i];
      BasicGrows(word[..|word| - 1], i);
    } else {
      assert word[..i] == word;
    }
  }

  /** The least code point that is at least n. */
  method LeastFrom(word: seq<Code>, n: nat) returns (m: nat)
    requires forall c :: c in word ==> c <= MAX_CODE
    requires exists c :: c in word && c >= n
    ensures n <= m <= MAX_CODE && m in word && forall c :: c in word ==> c < n || c >= m
  {
    m := MAX32;
    for i := 0 to |word|
      invariant m == MAX32 || (n <= m && m in word[..i])
      invariant forall j :: 0 <= j < i ==> word[j] < n || word[j] >= m
    {
      if word[i] >= n && word[i] < m {
        m := word[i];
      }
    }
    var c :| c in word && c >= n;
    assert exists j :: 0 <= j < |word| && word[j] == c;
  }

  lemma SomeLeft(word: seq<Code>, n: nat)
    requires |Keep(word, n, 0)| < |word|
    ensures exists c :: c in word && c >= n
  {
    if forall c :: c in word ==> c < n { KeepAll(word, n); }
  }

  /** With all handled, what is kept is the label. */
  lemma {:induction false} KeepFull(word: seq<Code>, m: nat, s: nat)
    requires |Keep(word, m, s)| == |word|
    ensures Keep(word, m, s) == word
  {
    if word != [] {
      KeepFull(word[..|word| - 1], m, s);
    }
  }

  /** The overflow test, and why it cannot fail for a label of moderate length. */
  lemma NoOverflow(x: nat, y: nat, delta: nat)
    requires y > 0 && delta <= MAX32
    ensures x > (MAX32 - delta) / y <==> delta + x * y > MAX32
  {
    var q := (MAX32 - delta) / y;
    assert MAX32 - delta == y * q + (MAX32 - delta) % y;
    if x > q { Product(x - q - 1, y); assert x * y == (x - q - 1) * y + q * y + y; }
    else { Product(q - x, y); assert q * y == (q - x) * y + x * y; }
  }

  /** Short enough that no delta can overflow 32 bits. */
  predicate Short(word: seq<Code>) {
    (MAX_CODE + 1) * (|word| + 1) <= MAX32
  }

  lemma DeltaBound(word: seq<Code>, st: State, m: nat, delta: nat)
    requires EncodingAt(word, st, m, 0, delta) && m <= MAX_CODE && |st.output| <= |word|
    ensures delta + |word| <= (MAX_CODE + 1) * (|word| + 1)
  {
    Product(MAX_CODE - (m - st.n), |st.output| + 1);
    assert (m - st.n) * (|st.output| + 1) == MAX_CODE * (|st.output| + 1) - (MAX_CODE - (m - st.n)) * (|st.output| + 1);
  }

  // ---- writing the deltas ----

  function Head(word: seq<Code>): seq<Code> {
    PREFIX + Basic(word) + Separator(Basic(word))
  }

  ghost function StateOf(word: seq<Code>, deltas: seq<nat>): State {
    StateAfter(Basic(word), deltas)
  }

  /** All that is written for the label once the deltas are. */
  ghost function Full(word: seq<Code>, deltas: seq<nat>): seq<Code> {
    Head(word) + WriteDeltas(Basic(word), deltas)
  }

  /** The encoder's variables agree with the decoder's state, and the output is written. */
  ghost predicate Written(word: seq<Code>, deltas: seq<nat>, h: nat, bias: nat, first: bool, out: seq<Code>, room: nat) {
    var st := StateOf(word, deltas);
    && h == |st.output| && bias == st.bias && (first <==> deltas == []) && (first <==> st.i == 0)
    && out == Cut(Full(word, deltas), room)
  }

  lemma WrittenOn(word: seq<Code>, deltas: seq<nat>, delta: nat)
    ensures StateOf(word, deltas + [delta]) == Advance(StateOf(word, deltas), delta)
    ensures Full(word, deltas + [delta]) == Full(word, deltas) + WriteInt(delta, 36, StateOf(word, deltas).bias)
  {
    DeltasSnoc(Basic(word), deltas, delta);
    Regroup(Head(word), WriteDeltas(Basic(word), deltas), WriteInt(delta, 36, StateOf(word, deltas).bias));
  }

  // ---- the exact deltas, of any size ----

  /** From decoder state st the next insertion is that of m at place s, d away. */
  ghost predicate IsNext(word: seq<Code>, st: State, m: nat, s: nat, d: nat) {
    s < |word| && word[s] == m && EncodingAt(word, st, m, s, d)
  }

  ghost predicate Follows(word: seq<Code>, st: State, d: nat) {
    exists m: nat, s: nat :: IsNext(word, st, m, s, d)
  }

  ghost predicate FollowsAt(word: seq<Code>, deltas: seq<nat>, k: nat)
    requires k < |deltas|
  {
    Follows(word, StateOf(word, deltas[..k]), deltas[k])
  }

  /** Each of the deltas is what it takes the decoder to get to its next insertion. */
  ghost predicate Exact(word: seq<Code>, deltas: seq<nat>) {
    forall k :: 0 <= k < |deltas| ==> FollowsAt(word, deltas, k)
  }

  predicate AllFit(deltas: seq<nat>) {
    forall d :: d in deltas ==> d <= MAX32
  }

  /** Some exact delta of the label takes more than 32 bits. */
  ghost predicate Overflows(word: seq<Code>) {
    exists deltas :: Exact(word, deltas) && !AllFit(deltas)
  }

  lemma {:induction false} KeepMore(word: seq<Code>, m: nat, s: nat, m': nat, s': nat)
    requires m < m' || (m == m' && s <= s')
    ensures |Keep(word, m, s)| <= |Keep(word, m', s')|
  {
    if word != [] { KeepMore(word[..|word| - 1], m, s, m', s'); }
  }

  lemma NextIsFirst(word: seq<Code>, st: State, m: nat, s: nat, d: nat, m': nat, s': nat, d': nat)
    requires IsNext(word, st, m, s, d) && IsNext(word, st, m', s', d')
    ensures m >= m' && (m == m' ==> s >= s')
  {
    KeepInserts(word, m, s);
    if m < m' || (m == m' && s < s') { KeepMore(word, m, s + 1, m', s'); }
  }

  lemma NextIsOne(word: seq<Code>, st: State, d: nat, d': nat)
    requires Follows(word, st, d) && Follows(word, st, d')
    ensures d == d'
  {
    var m: nat, s: nat :| IsNext(word, st, m, s, d);
    var m': nat, s': nat :| IsNext(word, st, m', s', d');
    NextIsFirst(word, st, m, s, d, m', s', d');
    NextIsFirst(word, st, m', s', d', m, s, d);
  }

  lemma NoneFollows(word: seq<Code>, st: State, d: nat)
    requires st.output == word
    ensures !Follows(word, st, d)
  {
    if m: nat, s: nat :| IsNext(word, st, m, s, d) { KeepInserts(word, m, s); }
  }

  lemma SameFollows(word: seq<Code>, a: seq<nat>, b: seq<nat>, k: nat)
    requires k < |a| && k < |b| && a[..k] == b[..k] && a[k] == b[k] && FollowsAt(word, a, k)
    ensures FollowsAt(word, b, k)
  {
  }

  lemma ExactNext(word: seq<Code>, deltas: seq<nat>, m: nat, s: nat, d: nat)
    requires Exact(word, deltas) && IsNext(word, StateOf(word, deltas), m, s, d)
    ensures Exact(word, deltas + [d])
  {
    var all := deltas + [d];
    assert all[..|deltas|] == deltas;
    assert Follows(word, StateOf(word, deltas), d);
    forall k | 0 <= k < |all| ensures FollowsAt(word, all, k) {
      if k < |deltas| {
        assert deltas[..k] == all[..k] && FollowsAt(word, deltas, k);
        SameFollows(word, deltas, all, k);
      }
    }
  }

  lemma ExactInit(word: seq<Code>, deltas: seq<nat>, init: seq<nat>, d: nat)
    requires Exact(word, deltas) && deltas != [] && init == deltas[..|deltas| - 1] && d == deltas[|deltas| - 1]
    ensures Exact(word, init) && Follows(word, StateOf(word, init), d) && deltas == init + [d]
  {
    assert FollowsAt(word, deltas, |deltas| - 1);
    forall k | 0 <= k < |init| ensures FollowsAt(word, init, k) {
      assert init[..k] == deltas[..k] && FollowsAt(word, deltas, k);
      SameFollows(word, deltas, init, k);
    }
  }

  lemma PrefixOfInit(a: seq<nat>, n: nat)
    requires n < |a|
    ensures a[..|a| - 1][..n] == a[..n]
  {
  }

  /** There is one sequence of exact deltas, of any length. */
  lemma {:induction false} ExactUnique(word: seq<Code>, a: seq<nat>, b: seq<nat>)
    requires Exact(word, a) && Exact(word, b) && |a| <= |b|
    ensures a == b[..|a|]
    decreases |b|
  {
    if |b| > 0 {
      var init, d := b[..|b| - 1], b[|b| - 1];
      ExactInit(word, b, init, d);
      if |a| < |b| {
        ExactUnique(word, a, init);
        PrefixOfInit(b, |a|);
      } else {
        var init', d' := a[..|a| - 1], a[|a| - 1];
        ExactInit(word, a, init', d');
        ExactUnique(word, init', init);
        assert init[..|init'|] == init;
        NextIsOne(word, StateOf(word, init), d, d');
      }
    }
  }

  /** With all inserted, no delta follows. */
  lemma {:induction false} CompleteIsLast(word: seq<Code>, a: seq<nat>, b: seq<nat>)
    requires Exact(word, a) && StateOf(word, a).output == word && Exact(word, b)
    ensures |b| <= |a|
    decreases |b|
  {
    if |b| > |a| {
      var init, d := b[..|b| - 1], b[|b| - 1];
      ExactInit(word, b, init, d);
      CompleteIsLast(word, a, init);
      ExactUnique(word, init, a);
      assert a[..|init|] == a;
      NoneFollows(word, StateOf(word, a), d);
    }
  }

  lemma PartFits(a: seq<nat>, n: nat)
    requires AllFit(a) && n <= |a|
    ensures AllFit(a[..n])
  {
    forall d | d in a[..n] ensures d <= MAX32 { assert d in a; }
  }

  lemma CompleteFits(word: seq<Code>, deltas: seq<nat>)
    requires Exact(word, deltas) && AllFit(deltas) && StateOf(word, deltas).output == word
    ensures !Overflows(word)
  {
    if b :| Exact(word, b) && !AllFit(b) {
      CompleteIsLast(word, deltas, b);
      ExactUnique(word, b, deltas);
      PartFits(deltas, |b|);
    }
  }

  lemma TooLargeHere(word: seq<Code>, deltas: seq<nat>, m: nat, s: nat, delta: nat)
    requires Exact(word, deltas) && IsNext(word, StateOf(word, deltas), m, s, delta) && delta > MAX32
    ensures Overflows(word)
  {
    ExactNext(word, deltas, m, s, delta);
    var all := deltas + [delta];
    assert delta in all && !AllFit(all);
  }

  /** A delta that is too large on the way to an insertion is too large there. */
  lemma TooLarge(word: seq<Code>, deltas: seq<nat>, st: State, m: nat, s: nat, delta: nat)
    requires Exact(word, deltas) && st == StateOf(word, deltas) && s <= |word| && EncodingAt(word, st, m, s, delta)
    requires delta > MAX32 && m in word[s..]
    ensures Overflows(word)
    decreases |word| - s
  {
    if word[s] == m {
      TooLargeHere(word, deltas, m, s, delta);
    } else {
      Passes(word, st, m, s, delta);
      LaterThan(word, m, s);
      TooLarge(word, deltas, st, m, s + 1, delta + if word[s] < m then 1 else 0);
    }
  }

  lemma LaterThan(word: seq<Code>, m: nat, s: nat)
    requires s < |word| && m in word[s..] && word[s] != m
    ensures m in word[s + 1..]
  {
    assert word[s..] == [word[s]] + word[s + 1..];
  }

  // ---- writing them ----

  /** One delta goes out, and the encoder's variables follow the decoder. */
  method PutDelta(word: seq<Code>, ghost deltas: seq<nat>, delta: nat, h: nat, bias: nat, first: bool, out: seq<Code>, room: nat)
    returns (newBias: nat, newOut: seq<Code>)
    requires Written(word, deltas, h, bias, first, out, room)
    ensures newBias == Adapt(delta, h + 1, first) && newOut == Cut(Full(word, deltas + [delta]), room)
  {
    newOut := PutInt(out, room, delta, bias, Full(word, deltas));
    newBias := AdaptBias(delta, h + 1, first);
    WrittenOn(word, deltas, delta);
  }

  /** The code point at place s, on the pass for m. */
  method EncodeAt(word: seq<Code>, s: nat, ghost deltas0: seq<nat>, m: nat, delta0: nat, h0: nat, bias0: nat, first0: bool,
                  out0: seq<Code>, room: nat)
    returns (ok: bool, delta: nat, h: nat, bias: nat, first: bool, out: seq<Code>, ghost deltas: seq<nat>)
    requires Written(word, deltas0, h0, bias0, first0, out0, room) && Sound(word, deltas0) && s < |word|
    requires EncodingAt(word, StateOf(word, deltas0), m, s, delta0) && delta0 <= MAX32 && (delta0 == MAX32 ==> m in word[s..])
    ensures !ok ==> Overflows(word) && delta0 == MAX32
    ensures ok ==> Written(word, deltas, h, bias, first, out, room) && Sound(word, deltas)
    ensures ok ==> EncodingAt(word, StateOf(word, deltas), m, s + 1, delta)
    ensures word[s] == m ==> ok && StateOf(word, deltas).n == m && h == h0 + 1 && deltas != [] && delta == 0
    ensures word[s] != m && ok ==> h == h0 && deltas == deltas0 && delta == delta0 + (if word[s] < m then 1 else 0) <= MAX32
  {
    delta, h, bias, first, out, deltas := delta0, h0, bias0, first0, out0, deltas0;
    ghost var st := StateOf(word, deltas);
    var c := word[s];
    if c != m {
      Passes(word, st, m, s, delta);
    }
    if c < m {
      if delta == MAX32 {
        LaterThan(word, m, s);
        TooLarge(word, deltas, st, m, s + 1, delta + 1);
        return false, delta, h, bias, first, out, deltas;
      }
      delta := delta + 1;
    }
    if c == m {
      ghost var st' := Inserts(word, st, m, s, delta);
      WrittenOn(word, deltas, delta);
      SoundNext(word, deltas, st, m, s, delta);
      bias, out := PutDelta(word, deltas, delta, h, bias, first, out, room);
      deltas := deltas + [delta];
      first := false;
      h := h + 1;
      delta := 0;
    }
    ok := true;
  }

  ghost predicate Sound(word: seq<Code>, deltas: seq<nat>) {
    Exact(word, deltas) && AllFit(deltas)
  }

  lemma SoundNext(word: seq<Code>, deltas: seq<nat>, st: State, m: nat, s: nat, d: nat)
    requires Sound(word, deltas) && st == StateOf(word, deltas) && IsNext(word, st, m, s, d) && d <= MAX32
    ensures Sound(word, deltas + [d])
  {
    ExactNext(word, deltas, m, s, d);
  }

  /** The pass over the label for its code point m. */
  method EncodePass(word: seq<Code>, ghost deltas0: seq<nat>, m: nat, delta0: nat, h0: nat, bias0: nat, first0: bool,
                    out0: seq<Code>, room: nat)
    returns (ok: bool, delta: nat, h: nat, bias: nat, first: bool, out: seq<Code>, ghost deltas: seq<nat>)
    requires Written(word, deltas0, h0, bias0, first0, out0, room) && m in word && delta0 <= MAX32
    requires EncodingAt(word, StateOf(word, deltas0), m, 0, delta0) && Sound(word, deltas0) && |word| < MAX32
    ensures ok ==> Written(word, deltas, h, bias, first, out, room) && Sound(word, deltas)
    ensures ok ==> EncodingAt(word, StateOf(word, deltas), m, |word|, delta) && StateOf(word, deltas).n == m
    ensures ok ==> h > h0 && deltas != [] && delta <= MAX32
    ensures !ok ==> Overflows(word)
    ensures delta0 + |word| <= MAX32 ==> ok
  {
    ok, delta, h, bias, first, out, deltas := true, delta0, h0, bias0, first0, out0, deltas0;
    for s := 0 to |word|
      invariant Written(word, deltas, h, bias, first, out, room) && Sound(word, deltas) && delta <= MAX32
      invariant EncodingAt(word, StateOf(word, deltas), m, s, delta)
      invariant h >= h0 && (m in word[..s] ==> StateOf(word, deltas).n == m && h > h0 && deltas != [] && delta <= s)
      invariant delta0 + |word| <= MAX32 ==> delta + (|word| - s) <= MAX32
    {
      TakeOneMore(word, s);
      if delta == MAX32 { StillAhead(word, m, s); }
      ok, delta, h, bias, first, out, deltas := EncodeAt(word, s, deltas, m, delta, h, bias, first, out, room);
      if !ok {
        return;
      }
    }
    assert word[..|word|] == word;
  }

  lemma StillAhead(word: seq<Code>, m: nat, s: nat)
    requires m in word && s <= |word| && m !in word[..s]
    ensures m in word[s..]
  {
    assert word == word[..s] + word[s..];
  }

  // ---- what the decoder makes of it ----

  lemma {:induction false} NoDelimiterInt(q: nat, k: nat, bias: nat)
    ensures DELIMITER !in WriteInt(q, k, bias)
    decreases q
  {
    var t := Threshold(k, bias);
    if q >= t { NoDelimiterInt(Higher(q, t), k + 36, bias); }
  }

  lemma {:induction false} NoDelimiter(basic: seq<Code>, deltas: seq<nat>)
    ensures DELIMITER !in WriteDeltas(basic, deltas)
  {
    if deltas != [] {
      var init := deltas[..|deltas| - 1];
      NoDelimiter(basic, init);
      NoDelimiterInt(deltas[|deltas| - 1], 36, StateAfter(basic, init).bias);
    }
  }

  lemma {:induction false} BasicIsAscii(word: seq<Code>)
    ensures forall c :: c in Basic(word) ==> c < INITIAL_N
  {
    if word != [] {
      var init, last := word[..|word| - 1], word[|word| - 1];
      BasicIsAscii(init);
      assert Basic(word) == Basic(init) + if last < INITIAL_N then [last] else [];
    }
  }

  /** The decoder splits the output where the encoder joined it. */
  lemma SplitsRight(basic: seq<Code>, digits: seq<Code>)
    requires DELIMITER !in digits && digits != [] && forall c :: c in basic ==> c < INITIAL_N
    ensures Decode(basic + Separator(basic) + digits) == DecodeFrom(digits, State(INITIAL_N, 0, INITIAL_BIAS, basic))
  {
    var s := basic + Separator(basic) + digits;
    if basic == [] {
      assert s == digits;
    } else {
      LastDelimiterAt(basic, digits);
      assert s[..|basic|] == basic && s[|basic| + 1..] == digits;
    }
  }

  lemma FullSplits(word: seq<Code>, deltas: seq<nat>)
    ensures var basic := Basic(word);
            |Full(word, deltas)| >= 4 && Full(word, deltas)[..4] == PREFIX
            && Full(word, deltas)[4..] == basic + Separator(basic) + WriteDeltas(basic, deltas)
  {
    var basic := Basic(word);
    var rest := basic + Separator(basic) + WriteDeltas(basic, deltas);
    assert Full(word, deltas) == PREFIX + rest;
  }

  lemma WrittenSome(basic: seq<Code>, deltas: seq<nat>)
    requires deltas != []
    ensures WriteDeltas(basic, deltas) != []
  {
  }

  lemma DecodesTo(word: seq<Code>, deltas: seq<nat>)
    requires deltas != [] && StateOf(word, deltas).output == word
    ensures |Full(word, deltas)| >= 4 && Full(word, deltas)[..4] == PREFIX && Decode(Full(word, deltas)[4..]) == Some(word)
  {
    var basic := Basic(word);
    BasicIsAscii(word);
    FullSplits(word, deltas);
    DecodesBody(basic, deltas);
  }

  lemma DecodesBody(basic: seq<Code>, deltas: seq<nat>)
    requires deltas != [] && forall c :: c in basic ==> c < INITIAL_N
    ensures Decode(basic + Separator(basic) + WriteDeltas(basic, deltas)) == Some(StateAfter(basic, deltas).output)
  {
    var digits := WriteDeltas(basic, deltas);
    NoDelimiter(basic, deltas);
    WrittenSome(basic, deltas);
    SplitsRight(basic, digits);
    DeltasDecode(basic, deltas, []);
    assert digits + [] == digits;
  }

  // ---- the whole ----

  /** Encodes a label into `room` bytes; `full` is what it would write with room enough.
      A label of ASCII characters is copied. Any other is refused exactly when one of its
      exact deltas takes more than 32 bits, or else written so that the decoder recovers
      it. */
  method ToAsciiLabel(word: seq<Code>, room: nat) returns (rc: int, out: seq<Code>, ghost full: seq<Code>)
    requires (forall c :: c in word ==> c <= MAX_CODE) && |word| < MAX32
    ensures rc >= 0 || rc == UV_E2BIG
    ensures rc == UV_E2BIG <==> Overflows(word)
    ensures rc >= 0 ==> out == Cut(full, room)
    ensures (forall c :: c in word ==> c < 128) ==> rc == |word| && full == word
    ensures rc >= 0 && (exists c :: c in word && c >= 128) ==>
      |full| >= 4 && full[..4] == PREFIX && Decode(full[4..]) == Some(word)
    ensures Short(word) ==> rc >= 0
  {
    var h, todo := CountBasic(word);
    out, full := [], [];
    if todo > 0 {
      out := Put(out, room, 120, []);
      out := Put(out, room, 110, [120]);
      out := Put(out, room, 45, [120, 110]);
      out := Put(out, room, 45, [120, 110, 45]);
      full := PREFIX;
    }
    out := PutBasic(word, h, out, room, full);
    full := full + Basic(word);
    if todo == 0 {
      AllBasic(word);
      CompleteFits(word, []);
      return h, out, full;
    }
    if h > 0 {
      out := Put(out, room, DELIMITER, full);
    }
    NotAllBasic(word);
    rc, out, full := EncodeRest(word, h, todo, out, room);
  }

  lemma AllBasic(word: seq<Code>)
    requires |Basic(word)| == |word|
    ensures Basic(word) == word && forall c :: c in word ==> c < 128
  {
    KeepFull(word, INITIAL_N, 0);
    BasicIsAscii(word);
  }

  lemma NotAllBasic(word: seq<Code>)
    requires |Basic(word)| < |word|
    ensures exists c :: c in word && c >= 128
  {
    SomeLeft(word, INITIAL_N);
  }

  /** The loop over the code points beyond ASCII, in increasing order. */
  method EncodeRest(word: seq<Code>, h0: nat, todo0: nat, out0: seq<Code>, room: nat)
    returns (rc: int, out: seq<Code>, ghost full: seq<Code>)
    requires forall c :: c in word ==> c <= MAX_CODE
    requires h0 == |Basic(word)| && todo0 == |word| - h0 > 0 && out0 == Cut(Head(word), room) && |word| < MAX32
    ensures rc == 0 || rc == UV_E2BIG
    ensures rc == UV_E2BIG <==> Overflows(word)
    ensures rc == 0 ==> out == Cut(full, room) && |full| >= 4 && full[..4] == PREFIX && Decode(full[4..]) == Some(word)
    ensures Short(word) ==> rc == 0
  {
    var h: nat, todo: nat, n: nat, bias: nat, delta: nat, first := h0, todo0, INITIAL_N, INITIAL_BIAS, 0, true;
    ghost var deltas: seq<nat> := [];
    out, full := out0, [];
    Begins(word, room);
    while todo > 0
      invariant Written(word, deltas, h, bias, first, out, room) && h + todo == |word|
      invariant EncodingAt(word, StateOf(word, deltas), n, 0, delta) && delta <= MAX32
      invariant Sound(word, deltas) && (todo == 0 ==> deltas != [])
      decreases todo
    {
      var ok;
      ok, n, delta, h, bias, first, out, deltas := EncodeNext(word, deltas, n, delta, h, bias, first, out, room);
      if !ok {
        return UV_E2BIG, out, [];
      }
      todo := |word| - h;
    }
    rc, full := 0, Full(word, deltas);
    AllWritten(word, deltas, n, delta);
    KeepFull(word, n, 0);
    CompleteFits(word, deltas);
  }

  lemma Begins(word: seq<Code>, room: nat)
    ensures Written(word, [], |Basic(word)|, INITIAL_BIAS, true, Cut(Head(word), room), room)
    ensures EncodingAt(word, StateOf(word, []), INITIAL_N, 0, 0)
  {
    assert Head(word) + [] == Head(word);
    assert Cycle(0, StateOf(word, [])) == 0;
  }

  lemma AllWritten(word: seq<Code>, deltas: seq<nat>, n: nat, delta: int)
    requires EncodingAt(word, StateOf(word, deltas), n, 0, delta) && |StateOf(word, deltas).output| == |word| && deltas != []
    ensures var full := Full(word, deltas); |full| >= 4 && full[..4] == PREFIX && Decode(full[4..]) == Some(word)
  {
    KeepFull(word, n, 0);
    DecodesTo(word, deltas);
  }

  /** The next value of the label: the way to it, and the pass for it. */
  method EncodeNext(word: seq<Code>, ghost deltas0: seq<nat>, n0: nat, delta0: nat, h0: nat, bias0: nat, first0: bool,
                    out0: seq<Code>, room: nat)
    returns (ok: bool, n: nat, delta: nat, h: nat, bias: nat, first: bool, out: seq<Code>, ghost deltas: seq<nat>)
    requires forall c :: c in word ==> c <= MAX_CODE
    requires Written(word, deltas0, h0, bias0, first0, out0, room) && h0 < |word| < MAX32 && delta0 <= MAX32
    requires EncodingAt(word, StateOf(word, deltas0), n0, 0, delta0) && Sound(word, deltas0)
    ensures ok ==> Written(word, deltas, h, bias, first, out, room) && EncodingAt(word, StateOf(word, deltas), n, 0, delta)
    ensures ok ==> h0 < h <= |word| && deltas != [] && delta <= MAX32 && Sound(word, deltas)
    ensures !ok ==> Overflows(word)
    ensures Short(word) ==> ok
  {
    n, delta, h, bias, first, out, deltas := n0, delta0, h0, bias0, first0, out0, deltas0;
    SomeLeft(word, n0);
    var m := LeastFrom(word, n0);
    ghost var st, reach := StateOf(word, deltas0), delta + (m - n) * (h + 1);
    ok, delta := SkipTo(word, st, n, m, delta, h);
    if !ok {
      assert word[0..] == word;
      TooLarge(word, deltas0, st, m, 0, reach);
      return;
    }
    n := m;
    ok, delta, h, bias, first, out, deltas := EncodePass(word, deltas0, m, delta, h, bias, first, out, room);
    if ok {
      Turns(word, StateOf(word, deltas), m, delta);
      n, delta := n + 1, delta + 1;
    }
  }

  /** delta grows by what it takes the decoder to get to m, unless that overflows. */
  method SkipTo(word: seq<Code>, ghost st: State, n: nat, m: nat, delta0: nat, h: nat) returns (ok: bool, delta: nat)
    requires EncodingAt(word, st, n, 0, delta0) && h == |st.output| && n <= m <= MAX_CODE && delta0 <= MAX32
    requires forall c :: c in word ==> c < n || c >= m
    ensures ok ==> delta <= MAX32 && EncodingAt(word, st, m, 0, delta)
    ensures !ok ==> delta0 + (m - n) * (h + 1) > MAX32 && EncodingAt(word, st, m, 0, delta0 + (m - n) * (h + 1))
    ensures Short(word) ==> ok && delta + |word| <= MAX32
  {
    var x, y := m - n, h + 1;
    Skips(word, st, n, m, delta0);
    NoOverflow(x, y, delta0);
    Product(x, y);
    DeltaBound(word, st, m, delta0 + x * y);
    if x > (MAX32 - delta0) / y {
      return false, delta0;
    }
    return true, delta0 + x * y;
  }
}
