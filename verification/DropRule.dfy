/** What one compaction drops and why no reader can tell: the rule of
    DoCompactionWork (db/db_impl.cc) over the merged inputs. */
module DropRule {
  import opened Format

  /** Rule (A): the entry before it is a newer one for the same user key that the
      smallest snapshot already sees. */
  predicate Hidden(input: seq<Entry>, snap: nat, i: nat)
    requires i < |input|
  {
    i > 0 && input[i - 1].key.user == input[i].key.user && input[i - 1].key.sequence <= snap
  }

  /** An old enough deletion marker for a key of `base`, the keys that no deeper
      level can hold. */
  ghost predicate Obsolete(input: seq<Entry>, base: iset<UserKey>, snap: nat, i: nat)
    requires i < |input|
  {
    && !Hidden(input, snap, i)
    && input[i].key.kind.Deletion?
    && input[i].key.sequence <= snap
    && input[i].key.user in base
  }

  ghost predicate Kept(input: seq<Entry>, base: iset<UserKey>, snap: nat, i: nat)
    requires i < |input|
  {
    !Hidden(input, snap, i) && !Obsolete(input, base, snap, i)
  }

  /** The kept entries among the first n, in order. */
  ghost function Survivors(input: seq<Entry>, base: iset<UserKey>, snap: nat, n: nat): seq<Entry>
    requires n <= |input|
  {
    if n == 0 then []
    else
      Survivors(input, base, snap, n - 1)
      + if Kept(input, base, snap, n - 1) then [input[n - 1]] else []
  }

  lemma {:induction false} SurvivorMember(input: seq<Entry>, base: iset<UserKey>, snap: nat, n: nat, e: Entry)
    requires n <= |input|
    ensures e in Survivors(input, base, snap, n)
       <==> exists i :: 0 <= i < n && input[i] == e && Kept(input, base, snap, i)
  {
    if n > 0 {
      SurvivorMember(input, base, snap, n - 1, e);
    }
  }

  lemma {:induction false} SurvivorsSorted(input: seq<Entry>, base: iset<UserKey>, snap: nat, n: nat)
    requires n <= |input| && Sorted(input)
    ensures Sorted(Survivors(input, base, snap, n))
  {
    if n > 0 {
      var out := Survivors(input, base, snap, n - 1);
      SurvivorsSorted(input, base, snap, n - 1);
      forall i | 0 <= i < |out| ensures Before(out[i].key, input[n - 1].key) {
        SurvivorMember(input, base, snap, n - 1, out[i]);
      }
    }
  }

  /** A compaction seen as sets: the merged inputs, what it leaves untouched, and the
      part `left` of that which may be older than an input entry of a base key. */
  ghost predicate Setting(untouched: set<Entry>, left: set<Entry>, input: seq<Entry>, base: iset<UserKey>) {
    && Sorted(input)
    && UniqueSequences(untouched + SetOf(input))
    && untouched !! SetOf(input)
    && left <= untouched
    && (forall e, x ::
          e in input && x in untouched
          && e.key.user in base && x.key.user == e.key.user && x.key.sequence < e.key.sequence
          ==> x in left)
  }

  ghost function Whole(untouched: set<Entry>, input: seq<Entry>): set<Entry> {
    untouched + SetOf(input)
  }

  ghost function After(untouched: set<Entry>, input: seq<Entry>, base: iset<UserKey>, snap: nat): set<Entry> {
    untouched + SetOf(Survivors(input, base, snap, |input|))
  }

  lemma AfterIsSmaller(untouched: set<Entry>, input: seq<Entry>, base: iset<UserKey>, snap: nat)
    ensures After(untouched, input, base, snap) <= Whole(untouched, input)
  {
    forall e | e in After(untouched, input, base, snap) ensures e in Whole(untouched, input) {
      SurvivorMember(input, base, snap, |input|, e);
    }
  }

  /** The merge lists the entries of one user key consecutively. */
  lemma SameUserBetween(input: seq<Entry>, i: nat, j: nat)
    requires Sorted(input) && i < j < |input| && input[i].key.user == input[j].key.user
    ensures input[j - 1].key.user == input[j].key.user
    ensures input[j - 1].key.sequence <= input[i].key.sequence
    ensures input[j].key.sequence < input[i].key.sequence
  {
    assert Before(input[i].key, input[j].key) && Before(input[j - 1].key, input[j].key);
    if i < j - 1 {
      assert Before(input[i].key, input[j - 1].key);
    }
  }

  lemma NewerComesFirst(input: seq<Entry>, i: nat, j: nat)
    requires Sorted(input) && i < |input| && j < |input|
    requires input[i].key.user == input[j].key.user && input[i].key.sequence < input[j].key.sequence
    ensures j < i
  {
  }

  lemma HiddenExactly(input: seq<Entry>, snap: nat, i: nat)
    requires Sorted(input) && i < |input|
    ensures Hidden(input, snap, i) <==> exists f :: f in input && f.key.user == input[i].key.user
                                          && input[i].key.sequence < f.key.sequence <= snap
  {
    if Hidden(input, snap, i) { assert Before(input[i - 1].key, input[i].key) && input[i - 1] in input; }
    if f :| f in input && f.key.user == input[i].key.user && input[i].key.sequence < f.key.sequence <= snap {
      var j :| 0 <= j < |input| && input[j] == f;
      NewerComesFirst(input, i, j);
      SameUserBetween(input, j, i);
    }
  }

  /** Which entries are kept: those no newer entry of their key hides from the smallest
      snapshot, but for the deletion markers it sees of keys of `base`. */
  lemma SurvivorsExactly(input: seq<Entry>, base: iset<UserKey>, snap: nat, e: Entry)
    requires Sorted(input)
    ensures e in Survivors(input, base, snap, |input|) <==>
      (e in input
       && !(exists f :: f in input && f.key.user == e.key.user && e.key.sequence < f.key.sequence <= snap)
       && !(e.key.kind.Deletion? && e.key.sequence <= snap && e.key.user in base))
  {
    SurvivorMember(input, base, snap, |input|, e);
    if i :| 0 <= i < |input| && input[i] == e && Kept(input, base, snap, i) { HiddenExactly(input, snap, i); }
    if e in input {
      var i :| 0 <= i < |input| && input[i] == e;
      HiddenExactly(input, snap, i);
    }
  }

  /** Only the obsolete-marker rule can drop the newest entry a snapshot sees. */
  lemma DroppedTopIsObsolete(untouched: set<Entry>, left: set<Entry>, input: seq<Entry>, base: iset<UserKey>,
                             snap: nat, s: nat, e: Entry) returns (i: nat)
    requires Setting(untouched, left, input, base) && s >= snap
    requires IsTop(Whole(untouched, input), e.key.user, s, e)
    requires e !in After(untouched, input, base, snap)
    ensures i < |input| && input[i] == e && Obsolete(input, base, snap, i)
  {
    assert e in input;
    i :| 0 <= i < |input| && input[i] == e;
    SurvivorMember(input, base, snap, |input|, e);
    assert i > 0 ==> Before(input[i - 1].key, input[i].key) && input[i - 1] in SetOf(input);
  }

  /** Below an obsolete marker only left-out entries remain. */
  lemma BelowMarker(untouched: set<Entry>, left: set<Entry>, input: seq<Entry>, base: iset<UserKey>,
                    snap: nat, i: nat, x: Entry)
    requires Setting(untouched, left, input, base)
    requires i < |input| && Obsolete(input, base, snap, i)
    requires x in After(untouched, input, base, snap)
    requires Visible(x, input[i].key.user, input[i].key.sequence)
    ensures x in left
  {
    var e := input[i];
    assert e in SetOf(input);
    AfterIsSmaller(untouched, input, base, snap);
    if x !in untouched {
      SurvivorMember(input, base, snap, |input|, x);
      var j :| 0 <= j < |input| && input[j] == x && Kept(input, base, snap, j);
      if i < j {
        SameUserBetween(input, i, j);
      }
      assert false;
    } else {
      assert x.key.sequence != e.key.sequence;
    }
  }

  /** Dropped markers uncover nothing: at the marker's own sequence the left-out
      entries show no value for its key. */
  ghost predicate NothingUncovered(untouched: set<Entry>, left: set<Entry>, input: seq<Entry>,
                                   base: iset<UserKey>, snap: nat)
  {
    forall i :: 0 <= i < |input| && Obsolete(input, base, snap, i)
                && IsTop(Whole(untouched, input), input[i].key.user, snap, input[i]) ==>
      Reads(left, input[i].key.user, input[i].key.sequence, NotFound)
  }

  ghost predicate SameReads(before: set<Entry>, after: set<Entry>, snap: nat) {
    forall u, s, r :: s >= snap ==> (Reads(before, u, s, r) <==> Reads(after, u, s, r))
  }

  lemma SomeRead(es: set<Entry>, u: UserKey, s: nat) returns (r: Outcome)
    ensures Reads(es, u, s, r)
  {
    if Unseen(es, u, s) {
      r := NotFound;
    } else {
      var e := TopExists(es, u, s);
      r := OutcomeOf(e);
    }
  }

  /** What a snapshot reads once its newest entry, a marker, is gone. */
  lemma ReadsBelowMarker(untouched: set<Entry>, left: set<Entry>, input: seq<Entry>, base: iset<UserKey>,
                         snap: nat, s: nat, i: nat, r: Outcome)
    requires Setting(untouched, left, input, base) && s >= snap
    requires i < |input| && Obsolete(input, base, snap, i)
    requires IsTop(Whole(untouched, input), input[i].key.user, s, input[i])
    requires Reads(left, input[i].key.user, input[i].key.sequence, r)
    ensures Reads(After(untouched, input, base, snap), input[i].key.user, s, r)
  {
    var after := After(untouched, input, base, snap);
    var e := input[i];
    AfterIsSmaller(untouched, input, base, snap);
    forall x | x in after && Visible(x, e.key.user, s)
      ensures x in left && Visible(x, e.key.user, e.key.sequence)
    {
      assert x in Whole(untouched, input);
      BelowMarker(untouched, left, input, base, snap, i, x);
    }
    if Unseen(left, e.key.user, e.key.sequence) {
      assert Unseen(after, e.key.user, s);
    } else {
      var x :| IsTop(left, e.key.user, e.key.sequence, x) && r == OutcomeOf(x);
      assert x in after;
      assert IsTop(after, e.key.user, s, x);
    }
  }

  lemma KeepsRead(untouched: set<Entry>, left: set<Entry>, input: seq<Entry>, base: iset<UserKey>,
                  snap: nat, u: UserKey, s: nat, r: Outcome)
    requires Setting(untouched, left, input, base) && s >= snap
    requires NothingUncovered(untouched, left, input, base, snap)
    requires Reads(Whole(untouched, input), u, s, r)
    ensures Reads(After(untouched, input, base, snap), u, s, r)
  {
    var before, after := Whole(untouched, input), After(untouched, input, base, snap);
    AfterIsSmaller(untouched, input, base, snap);
    if Unseen(before, u, s) {
      assert Unseen(after, u, s);
    } else {
      var e :| IsTop(before, u, s, e) && r == OutcomeOf(e);
      if e in after {
        assert IsTop(after, u, s, e);
      } else {
        var i := DroppedTopIsObsolete(untouched, left, input, base, snap, s, e);
        assert IsTop(before, u, snap, input[i]);
        ReadsBelowMarker(untouched, left, input, base, snap, s, i, NotFound);
      }
    }
  }

  lemma DropIsSafe(untouched: set<Entry>, left: set<Entry>, input: seq<Entry>, base: iset<UserKey>,
                   snap: nat, i: nat)
    requires Setting(untouched, left, input, base)
    requires SameReads(Whole(untouched, input), After(untouched, input, base, snap), snap)
    requires i < |input| && Obsolete(input, base, snap, i)
    requires IsTop(Whole(untouched, input), input[i].key.user, snap, input[i])
    ensures Reads(left, input[i].key.user, input[i].key.sequence, NotFound)
  {
    var before, after := Whole(untouched, input), After(untouched, input, base, snap);
    var e := input[i];
    var r := SomeRead(left, e.key.user, e.key.sequence);
    ReadsBelowMarker(untouched, left, input, base, snap, snap, i, r);
    assert Reads(before, e.key.user, snap, OutcomeOf(e));
    assert Reads(before, e.key.user, snap, r);
    ReadsUnique(before, e.key.user, snap, OutcomeOf(e), r);
  }

  /** Dropping keeps every read at or above the smallest snapshot exactly when the
      dropped deletion markers uncover nothing. */
  lemma DropKeepsReads(untouched: set<Entry>, left: set<Entry>, input: seq<Entry>, base: iset<UserKey>, snap: nat)
    requires Setting(untouched, left, input, base)
    ensures SameReads(Whole(untouched, input), After(untouched, input, base, snap), snap)
       <==> NothingUncovered(untouched, left, input, base, snap)
  {
    var before, after := Whole(untouched, input), After(untouched, input, base, snap);
    AfterIsSmaller(untouched, input, base, snap);
    if NothingUncovered(untouched, left, input, base, snap) {
      forall u, s, r | s >= snap
        ensures Reads(before, u, s, r) <==> Reads(after, u, s, r)
      {
        var q := SomeRead(before, u, s);
        KeepsRead(untouched, left, input, base, snap, u, s, q);
        if Reads(before, u, s, r) { ReadsUnique(before, u, s, q, r); }
        if Reads(after, u, s, r) { ReadsUnique(after, u, s, q, r); }
      }
    }
    if SameReads(before, after, snap) {
      forall i | 0 <= i < |input| && Obsolete(input, base, snap, i)
                 && IsTop(before, input[i].key.user, snap, input[i])
        ensures Reads(left, input[i].key.user, input[i].key.sequence, NotFound)
      {
        DropIsSafe(untouched, left, input, base, snap, i);
      }
    }
  }
}
