/** DBIter (db/db_iter.cc): over the entries of all versions of all keys, a cursor on
    the live pairs of one snapshot, in both directions. */
module DbIter {
  import opened Format
  import opened Tables
  import opened Cursor

  datatype Direction = Forward | Reverse

  // ---- the specification: live entries ----

  /** i is the newest entry of its user key that snapshot s sees, and it is a value. */
  ghost predicate Live(es: seq<Entry>, s: nat, i: nat)
    requires i < |es|
  {
    && es[i].key.sequence <= s
    && es[i].key.kind.Value?
    && forall j :: 0 <= j < i && es[j].key.user == es[i].key.user ==> es[j].key.sequence > s
  }

  /** r is the first live entry at or after i, |es| if there is none. */
  ghost predicate FirstLive(es: seq<Entry>, s: nat, i: nat, r: nat) {
    && i <= r <= |es|
    && (r < |es| ==> Live(es, s, r))
    && forall j :: i <= j < r ==> !Live(es, s, j)
  }

  /** r is the last live entry before i, |es| if there is none. */
  ghost predicate LastLive(es: seq<Entry>, s: nat, i: nat, r: nat) {
    && i <= |es|
    && (if r < |es| then r < i && Live(es, s, r) else r == |es|)
    && forall j :: 0 <= j < i && (r < j || r == |es|) ==> !Live(es, s, j)
  }

  /** Live entries are exactly what a reader of the snapshot finds, one per user key,
      in key order. */
  lemma LiveIsAnswer(es: seq<Entry>, s: nat, i: nat)
    requires Sorted(es) && i < |es|
    ensures Live(es, s, i) <==> IsTop(SetOf(es), es[i].key.user, s, es[i]) && es[i].key.kind.Value?
  {
    var e := es[i];
    if Live(es, s, i) {
      forall f | f in SetOf(es) && Visible(f, e.key.user, s) ensures f.key.sequence <= e.key.sequence {
        var j :| 0 <= j < |es| && es[j] == f;
        assert i < j ==> Before(es[i].key, es[j].key);
      }
    }
    if IsTop(SetOf(es), e.key.user, s, e) {
      forall j | 0 <= j < i && es[j].key.user == e.key.user ensures es[j].key.sequence > s {
        assert es[j] in SetOf(es) && Before(es[j].key, es[i].key);
      }
    }
  }

  lemma LiveInOrder(es: seq<Entry>, s: nat, i: nat, j: nat)
    requires Sorted(es) && i < j < |es| && Live(es, s, i) && Live(es, s, j)
    ensures es[i].key.user < es[j].key.user
  {
    assert Before(es[i].key, es[j].key);
  }

  lemma UsersAscend(es: seq<Entry>, i: nat, j: nat)
    requires Sorted(es) && i <= j < |es|
    ensures es[i].key.user <= es[j].key.user
  {
    assert i < j ==> Before(es[i].key, es[j].key);
  }

  // ---- the iterator ----

  class DBIter {
    const iter: RunIterator
    const sequence: nat
    var savedKey: Option<UserKey>      // None when cleared
    var savedValue: Bytes
    var direction: Direction
    var valid: bool
    ghost var cur: nat                 // the live entry, |es| when not valid

    /** Reverse: the internal iterator is before the current key's entries, with nothing
        visible between. */
    ghost predicate Behind(p: nat, bound: nat)
      requires p <= |iter.es| && bound <= |iter.es|
    {
      && (p < |iter.es| ==> p < bound)
      && forall j :: 0 <= j < bound && (p < j || p == |iter.es|) ==> iter.es[j].key.sequence > sequence
    }

    ghost predicate Ok()
      reads this, iter
    {
      && iter.Ok() && cur <= |iter.es|
      && (valid <==> cur < |iter.es|)
      && (valid ==> Live(iter.es, sequence, cur))
      && (valid && direction.Forward? ==> iter.pos == cur)
      && (valid && direction.Reverse? ==>
            && savedKey == Some(iter.es[cur].key.user) && savedValue == iter.es[cur].value
            && Behind(iter.pos, cur)
            && (iter.pos < cur ==> iter.es[iter.pos].key.user < iter.es[cur].key.user))
    }

    constructor (iter: RunIterator, sequence: nat)
      requires iter.Ok()
      ensures Ok() && this.iter == iter && this.sequence == sequence && !valid
    {
      this.iter, this.sequence := iter, sequence;
      savedKey, savedValue, direction, valid := None, [], Forward, false;
      cur := |iter.es|;
    }

    /** key() and value() */
    function Current(): (kv: (UserKey, Bytes))
      requires Ok() && valid
      reads this, iter
      ensures kv == (iter.es[cur].key.user, iter.es[cur].value)
    {
      if direction.Forward? then (iter.es[iter.pos].key.user, iter.es[iter.pos].value)
      else (savedKey.value, savedValue)
    }

    /** A forward scan at p: visible entries already passed hide only keys up to skip, and
        visible entries ahead are not below skip. */
    ghost predicate Scanned(p: nat, skipping: bool, skip: Option<UserKey>)
      requires p <= |iter.es|
    {
      && (skipping ==> skip.Some?)
      && (forall i :: p <= i < |iter.es| && Covered(p, i) ==> skipping && iter.es[i].key.user <= skip.value)
      && (skipping ==> (forall i :: p <= i < |iter.es| ==> iter.es[i].key.sequence > sequence || skip.value <= iter.es[i].key.user))
    }

    /** A visible entry before p has the user key of entry i. */
    ghost predicate Covered(p: nat, i: nat)
      requires p <= |iter.es| && i < |iter.es|
    {
      exists j :: 0 <= j < p && Seen(j, iter.es[i].key.user)
    }

    /** Nothing live lies between start and p, but for the key skipped from the outset. */
    ghost predicate Passed(start: nat, p: nat, skip0: Option<UserKey>) {
      forall i :: start <= i < p && i < |iter.es| && Live(iter.es, sequence, i) ==> skip0 == Some(iter.es[i].key.user)
    }

    /** The key being skipped is the first one, or belongs to a visible entry passed. */
    ghost predicate SkipsSeen(p: nat, skip0: Option<UserKey>, skip: Option<UserKey>)
      requires p <= |iter.es|
    {
      skip == skip0 || (skip.Some? && exists j :: 0 <= j < p && Seen(j, skip.value))
    }

    ghost predicate Seen(j: nat, u: UserKey)
      requires j < |iter.es|
    {
      iter.es[j].key.user == u && iter.es[j].key.sequence <= sequence
    }

    lemma ScanStep(p: nat, skipping: bool, skip: Option<UserKey>)
      requires Sorted(iter.es) && p < |iter.es| && Scanned(p, skipping, skip)
      ensures var e := iter.es[p];
              if e.key.sequence > sequence then Scanned(p + 1, skipping, skip)
              else if e.key.kind.Deletion? || (skipping && e.key.user <= skip.value) then Scanned(p + 1, true, Some(e.key.user))
              else Live(iter.es, sequence, p)
    {
      forall i | p <= i < |iter.es| ensures iter.es[p].key.user <= iter.es[i].key.user { UsersAscend(iter.es, p, i); }
      assert forall j :: 0 <= j < p && iter.es[j].key.user == iter.es[p].key.user && iter.es[j].key.sequence <= sequence ==>
        Seen(j, iter.es[p].key.user);
    }

    lemma PassStep(start: nat, p: nat, skipping: bool, skip: Option<UserKey>, skip0: Option<UserKey>)
      requires p < |iter.es| && Scanned(p, skipping, skip) && Passed(start, p, skip0)
      requires skipping ==> SkipsSeen(p, skip0, skip)
      ensures var e := iter.es[p];
              if e.key.sequence > sequence then Passed(start, p + 1, skip0)
              else if e.key.kind.Deletion? then Passed(start, p + 1, skip0) && SkipsSeen(p + 1, skip0, Some(e.key.user))
              else if skipping && e.key.user <= skip.value then
                Passed(start, p + 1, skip0) && SkipsSeen(p + 1, skip0, Some(e.key.user)) && skip == Some(e.key.user)
              else true
      ensures skipping ==> SkipsSeen(p + 1, skip0, skip)
    {
      var e := iter.es[p];
      if e.key.sequence <= sequence {
        assert Seen(p, e.key.user);
      }
      if skipping && skip != skip0 {
        var j :| 0 <= j < p && Seen(j, skip.value);
      }
    }

    /** The first live entry from the current position on, past `skip` if skipping. */
    method FindNextUserEntry(skipping0: bool)
      requires iter.Ok() && iter.Valid() && direction.Forward?
      requires Scanned(iter.pos, skipping0, savedKey)
      modifies this, iter
      ensures Ok() && direction.Forward? && old(iter.pos) <= cur
      ensures Passed(old(iter.pos), cur, if skipping0 then old(savedKey) else None)
      ensures cur < |iter.es| && skipping0 ==> iter.es[cur].key.user > old(savedKey).value
    {
      var skipping := skipping0;
      ghost var start, skip0 := iter.pos, if skipping0 then savedKey else None;
      while true
        invariant iter.Ok() && iter.Valid() && direction.Forward? && start <= iter.pos
        invariant Scanned(iter.pos, skipping, savedKey)
        invariant skipping ==> SkipsSeen(iter.pos, skip0, savedKey)
        invariant skip0.Some? ==> skipping && savedKey.value >= skip0.value
        invariant Passed(start, iter.pos, skip0)
        decreases |iter.es| - iter.pos
      {
        ScanStep(iter.pos, skipping, savedKey);
        PassStep(start, iter.pos, skipping, savedKey, skip0);
        var e := iter.es[iter.pos];
        if e.key.sequence <= sequence {
          if e.key.kind.Deletion? {
            savedKey := Some(e.key.user);
            skipping := true;
          } else if skipping && e.key.user <= savedKey.value {
            // hidden
          } else {
            valid := true;
            savedKey := None;
            cur := iter.pos;
            return;
          }
        }
        iter.Next();
        if !iter.Valid() {
          break;
        }
      }
      savedKey := None;
      valid := false;
      cur := |iter.es|;
    }

    method Next()
      requires Ok() && valid
      modifies this, iter
      ensures Ok() && FirstLive(iter.es, sequence, old(cur) + 1, cur)
    {
      ghost var was := cur;
      if direction.Reverse? {
        direction := Forward;
        if !iter.Valid() {
          iter.SeekToFirst();
        } else {
          iter.Next();
        }
      } else {
        savedKey := Some(iter.es[iter.pos].key.user);
      }
      NextScan(was);
      ghost var start := iter.pos;
      FindNextUserEntry(true);
      NextFound(start, was, cur);
    }

    /** Past the skipped key: the entry found is the next live one. */
    lemma NextFound(start: nat, was: nat, r: nat)
      requires iter.Ok() && start <= was < |iter.es| && r <= |iter.es| && Live(iter.es, sequence, was)
      requires Passed(start, r, Some(iter.es[was].key.user))
      requires r < |iter.es| ==> Live(iter.es, sequence, r) && iter.es[r].key.user > iter.es[was].key.user
      ensures FirstLive(iter.es, sequence, was + 1, r)
    {
      forall i | was < i < |iter.es| && Live(iter.es, sequence, i) ensures iter.es[i].key.user > iter.es[was].key.user {
        LiveInOrder(iter.es, sequence, was, i);
      }
      if r <= was {
        UsersAscend(iter.es, r, was);
        assert false;
      }
    }

    /** From just behind the current key, or at it, the scan skips exactly that key. */
    lemma NextScan(was: nat)
      requires iter.Ok() && was < |iter.es| && Live(iter.es, sequence, was)
      requires savedKey == Some(iter.es[was].key.user) && iter.pos <= was
      requires forall j :: iter.pos <= j < was ==> iter.es[j].key.sequence > sequence
      requires forall j :: 0 <= j < iter.pos && iter.es[j].key.sequence <= sequence ==> iter.es[j].key.user < iter.es[was].key.user
      ensures Scanned(iter.pos, true, savedKey)
    {
      forall i | was <= i < |iter.es| ensures iter.es[was].key.user <= iter.es[i].key.user { UsersAscend(iter.es, was, i); }
      forall i | 0 <= i <= was ensures iter.es[i].key.user <= iter.es[was].key.user { UsersAscend(iter.es, i, was); }
    }

    method Seek(target: UserKey)
      requires iter.Ok()
      modifies this, iter
      ensures Ok() && FirstLive(iter.es, sequence, SeekFrom(iter.es, SeekKey(target, sequence), 0), cur)
      ensures cur < |iter.es| ==> iter.es[cur].key.user >= target
      ensures forall i :: 0 <= i < cur && Live(iter.es, sequence, i) ==> iter.es[i].key.user < target
    {
      direction := Forward;
      savedValue := [];
      savedKey := None;
      iter.Seek(SeekKey(target, sequence));
      ghost var p := iter.pos;
      forall i | p <= i < |iter.es| ensures iter.es[i].key.user >= target { UsersAscend(iter.es, p, i); }
      if iter.Valid() {
        FindNextUserEntry(false);
      } else {
        valid := false;
        cur := |iter.es|;
      }
    }

    method SeekToFirst()
      requires iter.Ok()
      modifies this, iter
      ensures Ok() && FirstLive(iter.es, sequence, 0, cur)
    {
      direction := Forward;
      savedValue := [];
      iter.SeekToFirst();
      if iter.Valid() {
        FindNextUserEntry(false);
      } else {
        valid := false;
        cur := |iter.es|;
      }
    }

    // ---- backwards ----

    /** A backward scan at p (or off the front): c is the oldest-position visible entry
        passed, nothing past it is live, and the loop variables describe it. */
    ghost predicate BackScanned(p: nat, bound: nat, c: nat, kind: ValueType)
      requires p <= |iter.es| && c <= bound <= |iter.es|
      reads this
    {
      && (p < |iter.es| ==> p < c)
      && (forall j :: 0 <= j < c && (p < j || p == |iter.es|) ==> iter.es[j].key.sequence > sequence)
      && (forall j :: c < j < bound ==> !Live(iter.es, sequence, j))
      && (c == bound ==> kind.Deletion?)
      && (c < bound ==> iter.es[c].key.sequence <= sequence && kind == iter.es[c].key.kind)
      && (kind.Value? ==> c < bound && savedKey == Some(iter.es[c].key.user) && savedValue == iter.es[c].value)
    }

    /** The last live entry before `bound`. */
    method FindPrevUserEntry(ghost bound: nat)
      requires iter.Ok() && direction.Reverse? && bound <= |iter.es| && Behind(iter.pos, bound)
      modifies this, iter
      ensures Ok() && LastLive(iter.es, sequence, bound, cur)
    {
      var valueType := Deletion;
      ghost var c: nat := bound;
      while iter.Valid()
        invariant iter.Ok() && direction.Reverse? && c <= bound
        invariant BackScanned(iter.pos, bound, c, valueType)
        decreases if iter.Valid() then iter.pos + 1 else 0
      {
        ghost var p := iter.pos;
        var e := iter.es[iter.pos];
        if e.key.sequence <= sequence {
          if valueType.Value? && e.key.user < savedKey.value {
            break;
          }
          PassVisible(p, bound, c, valueType);
          valueType := e.key.kind;
          c := p;
          if valueType.Deletion? {
            savedKey := None;
            savedValue := [];
          } else {
            savedKey := Some(e.key.user);
            savedValue := e.value;
          }
        }
        iter.Prev();
      }
      BackResult(bound, c, valueType);
      if valueType.Deletion? {
        valid := false;
        savedKey := None;
        savedValue := [];
        direction := Forward;
        cur := |iter.es|;
      } else {
        valid := true;
        cur := c;
      }
    }

    /** Taking in a visible entry of the same key, or below a marker, leaves nothing live behind. */
    lemma PassVisible(p: nat, bound: nat, c: nat, kind: ValueType)
      requires iter.Ok() && p < |iter.es| && c <= bound <= |iter.es| && BackScanned(p, bound, c, kind)
      requires iter.es[p].key.sequence <= sequence
      requires !(kind.Value? && iter.es[p].key.user < savedKey.value)
      ensures forall j :: p < j < bound ==> !Live(iter.es, sequence, j)
    {
      if c < bound { UsersAscend(iter.es, p, c); }
    }

    lemma BackResult(bound: nat, c: nat, kind: ValueType)
      requires iter.Ok() && c <= bound <= |iter.es| && BackScanned(iter.pos, bound, c, kind)
      requires iter.Valid() ==> kind.Value? && iter.es[iter.pos].key.user < savedKey.value
      ensures LastLive(iter.es, sequence, bound, if kind.Deletion? then |iter.es| else c)
      ensures kind.Value? ==> Behind(iter.pos, c)
    {
      if iter.Valid() {
        forall j | 0 <= j <= iter.pos ensures iter.es[j].key.user <= iter.es[iter.pos].key.user {
          UsersAscend(iter.es, j, iter.pos);
        }
      }
    }

    method Prev()
      requires Ok() && valid
      modifies this, iter
      ensures Ok() && LastLive(iter.es, sequence, old(cur), cur)
    {
      ghost var was := cur;
      if direction.Forward? {
        savedKey := Some(iter.es[iter.pos].key.user);
        while true
          invariant iter.Ok() && iter.Valid() && iter.pos <= was < |iter.es| && Live(iter.es, sequence, was)
          invariant savedKey == Some(iter.es[was].key.user)
          invariant forall j :: iter.pos <= j < was ==> iter.es[j].key.user == iter.es[was].key.user
          decreases iter.pos
        {
          iter.Prev();
          if !iter.Valid() {
            valid := false;
            savedKey := None;
            savedValue := [];
            cur := |iter.es|;
            return;
          }
          UsersAscend(iter.es, iter.pos, was);
          if iter.es[iter.pos].key.user < savedKey.value {
            break;
          }
        }
        direction := Reverse;
      }
      FindPrevUserEntry(was);
    }

    method SeekToLast()
      requires iter.Ok()
      modifies this, iter
      ensures Ok() && LastLive(iter.es, sequence, |iter.es|, cur)
    {
      direction := Reverse;
      savedValue := [];
      iter.SeekToLast();
      FindPrevUserEntry(|iter.es|);
    }
  }
}
