/** Internal keys and their order (db/dbformat.h, db/dbformat.cc), and the
    specification of a multi-version store: a plain map at every sequence number. */
module Format {

  newtype byte = b: int | 0 <= b < 256
  type Bytes = seq<byte>

  /** A user key stands for its place in the order of the user comparator; two
      keys the comparator calls equal have the same place. Byte strings are
      countable, so every total order on them embeds in the reals. */
  type UserKey = real

  /** kTypeDeletion == 0 and kTypeValue == 1; kValueTypeForSeek is Value. */
  datatype ValueType = Deletion | Value

  datatype InternalKey = InternalKey(user: UserKey, sequence: nat, kind: ValueType)

  datatype Entry = Entry(key: InternalKey, value: Bytes)

  const MAX_SEQUENCE: nat := 0xFF_FFFF_FFFF_FFFF

  function Pack(sequence: nat, kind: ValueType): nat {
    sequence * 256 + (if kind.Value? then 1 else 0)
  }

  /** InternalKeyComparator::Compare(a, b) < 0 */
  predicate Less(a: InternalKey, b: InternalKey) {
    a.user < b.user
    || (a.user == b.user && Pack(a.sequence, a.kind) > Pack(b.sequence, b.kind))
  }

  /** The key LookupKey and DBIter::Seek search for. */
  function SeekKey(user: UserKey, sequence: nat): InternalKey {
    InternalKey(user, sequence, Value)
  }

  /** The order of stored entries: no sequence number repeats within a user key. */
  predicate Before(a: InternalKey, b: InternalKey) {
    a.user < b.user || (a.user == b.user && a.sequence > b.sequence)
  }

  ghost predicate Sorted(es: seq<Entry>) {
    forall i, j :: 0 <= i < j < |es| ==> Before(es[i].key, es[j].key)
  }

  ghost function SetOf(es: seq<Entry>): set<Entry> {
    set e | e in es
  }

  // ---- the specification ----

  datatype Outcome = Found(value: Bytes) | NotFound

  type Image = map<UserKey, Bytes>

  function Apply(m: Image, e: Entry): Image {
    if e.key.kind.Value? then m[e.key.user := e.value] else m - {e.key.user}
  }

  /** The map after the operations numbered at most s. */
  function Replay(history: seq<Entry>, s: nat): Image {
    if history == [] then map[]
    else
      var m := Replay(history[..|history| - 1], s);
      var e := history[|history| - 1];
      if e.key.sequence <= s then Apply(m, e) else m
  }

  function Answer(m: Image, u: UserKey): Outcome {
    if u in m then Found(m[u]) else NotFound
  }

  function OutcomeOf(e: Entry): Outcome {
    if e.key.kind.Value? then Found(e.value) else NotFound
  }

  predicate Visible(e: Entry, u: UserKey, s: nat) {
    e.key.user == u && e.key.sequence <= s
  }

  /** e is the newest entry of es for u that snapshot s may see. */
  ghost predicate IsTop(es: set<Entry>, u: UserKey, s: nat, e: Entry) {
    e in es && Visible(e, u, s)
    && forall f :: f in es && Visible(f, u, s) ==> f.key.sequence <= e.key.sequence
  }

  ghost predicate Unseen(es: set<Entry>, u: UserKey, s: nat) {
    forall f :: f in es ==> !Visible(f, u, s)
  }

  /** A read of u at snapshot s over the multi-version contents es gives r. */
  ghost predicate Reads(es: set<Entry>, u: UserKey, s: nat, r: Outcome) {
    (Unseen(es, u, s) && r == NotFound)
    || exists e :: IsTop(es, u, s, e) && r == OutcomeOf(e)
  }

  ghost predicate UniqueSequences(es: set<Entry>) {
    forall e, f :: e in es && f in es && e.key.sequence == f.key.sequence ==> e == f
  }

  ghost predicate Increasing(h: seq<Entry>) {
    forall i, j :: 0 <= i < j < |h| ==> h[i].key.sequence < h[j].key.sequence
  }

  lemma ReadsUnique(es: set<Entry>, u: UserKey, s: nat, r: Outcome, q: Outcome)
    requires UniqueSequences(es) && Reads(es, u, s, r) && Reads(es, u, s, q)
    ensures r == q
  {
  }

  lemma {:induction false} TopExists(es: set<Entry>, u: UserKey, s: nat) returns (e: Entry)
    requires !Unseen(es, u, s)
    ensures IsTop(es, u, s, e)
    decreases |es|
  {
    var f :| f in es && Visible(f, u, s);
    if IsTop(es, u, s, f) {
      e := f;
    } else if Unseen(es - {f}, u, s) {
      assert IsTop(es, u, s, f);
      e := f;
    } else {
      e := TopExists(es - {f}, u, s);
      if e.key.sequence < f.key.sequence {
        e := f;
      }
    }
  }

  /** Entries a snapshot cannot see do not matter to it. */
  lemma SameWithUnseen(a: set<Entry>, b: set<Entry>, u: UserKey, s: nat, r: Outcome)
    requires Unseen(b, u, s) && Reads(a, u, s, r)
    ensures Reads(a + b, u, s, r)
  {
    if Unseen(a, u, s) {
      assert Unseen(a + b, u, s);
    } else {
      var e :| IsTop(a, u, s, e) && r == OutcomeOf(e);
      assert IsTop(a + b, u, s, e);
    }
  }

  /** The newest visible entry of the newer part is the newest of all. */
  lemma TopOnTop(older: set<Entry>, newer: set<Entry>, u: UserKey, s: nat, e: Entry)
    requires IsTop(newer, u, s, e)
    requires forall x, y :: x in older && y in newer ==> x.key.sequence < y.key.sequence
    ensures IsTop(older + newer, u, s, e)
  {
  }

  lemma ApplyAnswers(m: Image, e: Entry, u: UserKey)
    ensures Answer(Apply(m, e), u) == if e.key.user == u then OutcomeOf(e) else Answer(m, u)
  {
  }

  /** One operation more. */
  lemma ReadsOneMore(es: set<Entry>, m: Image, e: Entry, u: UserKey, s: nat)
    requires Reads(es, u, s, Answer(m, u)) && forall x :: x in es ==> x.key.sequence < e.key.sequence
    ensures Reads(es + {e}, u, s, Answer(if e.key.sequence <= s then Apply(m, e) else m, u))
  {
    ApplyAnswers(m, e, u);
    if Visible(e, u, s) {
      assert IsTop({e}, u, s, e);
      TopOnTop(es, {e}, u, s, e);
    } else {
      assert Unseen({e}, u, s);
      SameWithUnseen(es, {e}, u, s, Answer(m, u));
    }
  }

  lemma SetOfLast(h: seq<Entry>)
    requires h != []
    ensures SetOf(h) == SetOf(h[..|h| - 1]) + {h[|h| - 1]}
  {
    assert h == h[..|h| - 1] + [h[|h| - 1]];
  }

  /** Folding the operations and searching for the newest visible one agree. */
  lemma {:induction false} ReplayReads(h: seq<Entry>, u: UserKey, s: nat)
    requires Increasing(h)
    ensures Reads(SetOf(h), u, s, Answer(Replay(h, s), u))
  {
    if h == [] {
      assert Unseen(SetOf(h), u, s);
    } else {
      var h', e := h[..|h| - 1], h[|h| - 1];
      ReplayReads(h', u, s);
      SetOfLast(h);
      ReadsOneMore(SetOf(h'), Replay(h', s), e, u, s);
    }
  }

  lemma IncreasingIsUnique(h: seq<Entry>)
    requires Increasing(h)
    ensures UniqueSequences(SetOf(h))
  {
  }
}
