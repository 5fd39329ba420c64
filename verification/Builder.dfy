/** Version edits and the Builder that applies them (db/version_edit.h,
    db/version_set.cc VersionSet::Builder, LogAndApply, Recover). */
module Builder {
  import opened Format
  import opened Tables

  datatype Edit = Edit(deleted: set<(nat, nat)>, added: seq<(nat, File)>)

  predicate BySmallest(f: File, g: File) {
    Less(f.smallest, g.smallest) || (f.smallest == g.smallest && f.number < g.number)
  }

  ghost predicate Ordered(fs: seq<File>) {
    forall i, j :: 0 <= i < j < |fs| ==> BySmallest(fs[i], fs[j])
  }

  /** The level that edits turn `base` into, as a set of files in BySmallest order. */
  ghost predicate Saved(base: seq<File>, deleted: set<nat>, added: set<File>, out: seq<File>) {
    && Ordered(out)
    && forall f :: f in out <==> (f in base || f in added) && f.number !in deleted
  }

  /** A level is determined by its files. */
  lemma {:induction false} OrderedUnique(a: seq<File>, b: seq<File>)
    requires Ordered(a) && Ordered(b)
    requires forall f :: f in a <==> f in b
    ensures a == b
  {
    if a == [] {
      assert forall i :: 0 <= i < |b| ==> b[i] in b;
    } else {
      assert a[0] in b && b != [];
      assert b[0] in a;
      var i :| 0 <= i < |b| && b[i] == a[0];
      var j :| 0 <= j < |a| && a[j] == b[0];
      assert i == 0;
      assert a[1..] == b[1..] by {
        forall f ensures f in a[1..] <==> f in b[1..] {
          TailMember(a, f);
          TailMember(b, f);
        }
        OrderedUnique(a[1..], b[1..]);
      }
      assert a == [a[0]] + a[1..] && b == [b[0]] + b[1..];
    }
  }

  lemma TailMember(a: seq<File>, f: File)
    requires Ordered(a) && a != []
    ensures f in a[1..] <==> f in a && f != a[0]
  {
    if f in a && f != a[0] {
      var i :| 0 <= i < |a| && a[i] == f;
      assert a[1..][i - 1] == f;
    }
    if f in a[1..] {
      var i :| 0 <= i < |a[1..]| && a[1..][i] == f;
      assert BySmallest(a[0], a[i + 1]);
    }
  }

  // ---- one level ----

  /** std::upper_bound: the first file of base at or after i that f precedes. */
  method UpperBound(base: seq<File>, i: nat, f: File) returns (r: nat)
    requires i <= |base| && Ordered(base)
    ensures i <= r <= |base|
    ensures forall j :: i <= j < r ==> !BySmallest(f, base[j])
    ensures forall j :: r <= j < |base| ==> BySmallest(f, base[j])
  {
    r := i;
    while r < |base| && !BySmallest(f, base[r])
      invariant i <= r <= |base|
      invariant forall j :: i <= j < r ==> !BySmallest(f, base[j])
    {
      r := r + 1;
    }
  }

  /** No file of one list is the same (smallest key, number) as one of the other. */
  ghost predicate NoClash(base: seq<File>, added: seq<File>) {
    forall f, g :: f in base && g in added ==> BySmallest(f, g) || BySmallest(g, f)
  }

  ghost predicate Below(out: seq<File>, rest: seq<File>, i: nat) {
    forall f, j :: f in out && i <= j < |rest| ==> BySmallest(f, rest[j])
  }

  function MaybeAdd(out: seq<File>, f: File, deleted: set<nat>): seq<File> {
    if f.number in deleted then out else out + [f]
  }

  lemma MaybeAddKeepsOrder(out: seq<File>, f: File, deleted: set<nat>)
    requires Ordered(out) && forall g :: g in out ==> BySmallest(g, f)
    ensures Ordered(MaybeAdd(out, f, deleted))
  {
    forall i | 0 <= i < |out| ensures BySmallest(out[i], f) {
      assert out[i] in out;
    }
  }

  /** SaveTo for one level. */
  method SaveLevel(base: seq<File>, deleted: set<nat>, added: seq<File>) returns (out: seq<File>)
    requires Ordered(base) && Ordered(added) && NoClash(base, added)
    ensures Saved(base, deleted, (set f | f in added), out)
  {
    out := [];
    var i := 0;
    for k := 0 to |added|
      invariant i <= |base| && Ordered(out)
      invariant Below(out, base, i) && Below(out, added, k)
      invariant forall f :: f in out <==> (f in base[..i] || f in added[..k]) && f.number !in deleted
    {
      var bpos := UpperBound(base, i, added[k]);
      while i < bpos
        invariant i <= bpos && Ordered(out)
        invariant Below(out, base, i) && Below(out, added, k)
        invariant forall f :: f in out <==> (f in base[..i] || f in added[..k]) && f.number !in deleted
      {
        MaybeAddKeepsOrder(out, base[i], deleted);
        assert BySmallest(base[i], added[k]) by { assert base[i] in base && added[k] in added; }
        out := MaybeAdd(out, base[i], deleted);
        assert base[..i + 1] == base[..i] + [base[i]];
        i := i + 1;
      }
      MaybeAddKeepsOrder(out, added[k], deleted);
      out := MaybeAdd(out, added[k], deleted);
      assert added[..k + 1] == added[..k] + [added[k]];
    }
    while i < |base|
      invariant i <= |base| && Ordered(out) && Below(out, base, i)
      invariant forall f :: f in out <==> (f in base[..i] || f in added) && f.number !in deleted
    {
      MaybeAddKeepsOrder(out, base[i], deleted);
      out := MaybeAdd(out, base[i], deleted);
      assert base[..i + 1] == base[..i] + [base[i]];
      i := i + 1;
    }
    assert base[..i] == base && added[..|added|] == added;
  }

  // ---- the builder ----

  ghost function DeletedAt(edit: Edit, l: nat): set<nat> {
    set d | d in edit.deleted && d.0 == l :: d.1
  }

  ghost function AddedTo(added: seq<(nat, File)>, l: nat): set<File> {
    set a | a in added && a.0 == l :: a.1
  }

  ghost function AddedAt(edit: Edit, l: nat): set<File> {
    AddedTo(edit.added, l)
  }

  ghost function Numbers(fs: set<File>): set<nat> {
    set f | f in fs :: f.number
  }

  ghost predicate InLevels(edit: Edit) {
    (forall d :: d in edit.deleted ==> d.0 < NUM_LEVELS) && (forall a :: a in edit.added ==> a.0 < NUM_LEVELS)
  }

  ghost predicate NumbersName(fs: set<File>) {
    forall f, g :: f in fs && g in fs && f.number == g.number ==> f == g
  }

  /** std::set<FileMetaData*, BySmallestKey>::insert */
  function InsertFile(fs: seq<File>, f: File): (r: seq<File>)
    requires Ordered(fs) && NumbersName((set g | g in fs) + {f})
    ensures Ordered(r) && forall g :: g in r <==> g in fs || g == f
  {
    if fs == [] || BySmallest(f, fs[0]) then
      assert forall i :: 0 < i < |fs| ==> BySmallest(fs[0], fs[i]);
      [f] + fs
    else if BySmallest(fs[0], f) then
      var t := InsertFile(fs[1..], f);
      assert forall i :: 0 <= i < |t| ==> t[i] in t;
      assert forall g :: g in fs[1..] ==> BySmallest(fs[0], g);
      [fs[0]] + t
    else
      assert f == fs[0] by { assert fs[0] in (set g | g in fs) + {f}; }
      fs
  }

  lemma OneMore(added: seq<(nat, File)>, i: nat, l: nat)
    requires i < |added|
    ensures AddedTo(added[..i + 1], l) == AddedTo(added[..i], l) + if added[i].0 == l then {added[i].1} else {}
    ensures AddedTo(added[..i + 1], l) <= AddedTo(added, l)
    ensures Numbers(AddedTo(added[..i + 1], l))
         == Numbers(AddedTo(added[..i], l)) + if added[i].0 == l then {added[i].1.number} else {}
  {
    assert added[..i + 1] == added[..i] + [added[i]];
    forall f | f in AddedTo(added[..i], l) || (added[i].0 == l && f == added[i].1)
      ensures f in AddedTo(added[..i + 1], l)
    {
      assert (l, f) in added[..i + 1];
    }
    forall f | f in AddedTo(added[..i + 1], l) ensures f in AddedTo(added, l) {
      assert (l, f) in added;
    }
  }

  class VersionBuilder {
    const base: Version
    var deleted: seq<set<nat>>
    var added: seq<seq<File>>

    ghost predicate Valid()
      reads this
    {
      && |base| == |deleted| == |added| == NUM_LEVELS
      && forall l :: 0 <= l < NUM_LEVELS ==> Ordered(base[l]) && Ordered(added[l])
    }

    ghost function Files(l: nat): set<File>
      requires Valid() && l < NUM_LEVELS
      reads this
    {
      set f | f in added[l]
    }

    constructor (base: Version)
      requires |base| == NUM_LEVELS && forall l :: 0 <= l < NUM_LEVELS ==> Ordered(base[l])
      ensures Valid() && this.base == base
      ensures forall l :: 0 <= l < NUM_LEVELS ==> deleted[l] == {} && Files(l) == {}
    {
      this.base := base;
      deleted := seq(NUM_LEVELS, _ => {});
      added := seq(NUM_LEVELS, _ => []);
    }

    method ApplyDeletions(edit: Edit)
      requires Valid() && InLevels(edit)
      modifies this`deleted
      ensures Valid()
      ensures forall l :: 0 <= l < NUM_LEVELS ==> deleted[l] == old(deleted[l]) + DeletedAt(edit, l)
    {
      var rest := edit.deleted;
      while rest != {}
        invariant Valid() && rest <= edit.deleted
        invariant forall l, n :: 0 <= l < NUM_LEVELS ==>
          (n in deleted[l] <==> n in old(deleted[l]) || (l, n) in edit.deleted - rest)
      {
        var d :| d in rest;
        deleted := deleted[d.0 := deleted[d.0] + {d.1}];
        rest := rest - {d};
      }
    }

    method AddFile(l: nat, f: File)
      requires Valid() && l < NUM_LEVELS && NumbersName(Files(l) + {f})
      modifies this
      ensures Valid()
      ensures deleted == old(deleted[l := deleted[l] - {f.number}])
      ensures Files(l) == old(Files(l)) + {f}
      ensures forall m :: 0 <= m < NUM_LEVELS && m != l ==> Files(m) == old(Files(m))
    {
      assert (set g | g in added[l]) + {f} == Files(l) + {f};
      deleted := deleted[l := deleted[l] - {f.number}];
      added := added[l := InsertFile(added[l], f)];
    }

    /** Apply: later additions cancel earlier deletions of the same number. */
    method Apply(edit: Edit)
      requires Valid() && InLevels(edit)
      requires forall l :: 0 <= l < NUM_LEVELS ==> NumbersName(Files(l) + AddedAt(edit, l))
      modifies this
      ensures Valid()
      ensures forall l :: 0 <= l < NUM_LEVELS ==>
        deleted[l] == old(deleted[l]) + DeletedAt(edit, l) - Numbers(AddedAt(edit, l))
      ensures forall l :: 0 <= l < NUM_LEVELS ==> Files(l) == old(Files(l)) + AddedAt(edit, l)
    {
      ApplyDeletions(edit);
      ghost var del := deleted;
      for i := 0 to |edit.added|
        invariant Valid()
        invariant forall l :: 0 <= l < NUM_LEVELS ==> deleted[l] == del[l] - Numbers(AddedTo(edit.added[..i], l))
        invariant forall l :: 0 <= l < NUM_LEVELS ==> Files(l) == old(Files(l)) + AddedTo(edit.added[..i], l)
      {
        var (l, f) := edit.added[i];
        assert edit.added[i] in edit.added;
        forall m | 0 <= m < NUM_LEVELS
          ensures AddedTo(edit.added[..i + 1], m) == AddedTo(edit.added[..i], m) + if l == m then {f} else {}
          ensures AddedTo(edit.added[..i + 1], m) <= AddedAt(edit, m)
          ensures Numbers(AddedTo(edit.added[..i + 1], m))
               == Numbers(AddedTo(edit.added[..i], m)) + if l == m then {f.number} else {}
        {
          OneMore(edit.added, i, m);
        }
        AddFile(l, f);
      }
      assert edit.added[..|edit.added|] == edit.added;
    }

    method SaveTo() returns (v: Version)
      requires Valid()
      requires forall l :: 0 <= l < NUM_LEVELS ==> NoClash(base[l], added[l])
      ensures |v| == NUM_LEVELS
      ensures forall l :: 0 <= l < NUM_LEVELS ==> Saved(base[l], deleted[l], Files(l), v[l])
    {
      v := [];
      for l := 0 to NUM_LEVELS
        invariant |v| == l
        invariant forall m :: 0 <= m < l ==> Saved(base[m], deleted[m], Files(m), v[m])
      {
        var files := SaveLevel(base[l], deleted[l], added[l]);
        v := v + [files];
      }
    }
  }

  // ---- one builder for a run of edits, or one version per edit ----

  /** v' is what LogAndApply installs on top of v. */
  ghost predicate Installs(v: Version, edit: Edit, v': Version) {
    && |v| == |v'| == NUM_LEVELS
    && forall l :: 0 <= l < NUM_LEVELS ==>
         Saved(v[l], DeletedAt(edit, l) - Numbers(AddedAt(edit, l)), AddedAt(edit, l), v'[l])
  }

  /** One version per edit, starting from vs[0]. */
  ghost predicate InstallsAll(vs: seq<Version>, edits: seq<Edit>) {
    |vs| == |edits| + 1 && forall i :: 0 <= i < |edits| ==> Installs(vs[i], edits[i], vs[i + 1])
  }

  /** The deletions, and the additions, a builder holds for level l after the edits. */
  ghost function FoldedDeletions(edits: seq<Edit>, l: nat): set<nat> {
    if edits == [] then {}
    else
      var edit := edits[|edits| - 1];
      FoldedDeletions(edits[..|edits| - 1], l) + DeletedAt(edit, l) - Numbers(AddedAt(edit, l))
  }

  ghost function FoldedAdditions(edits: seq<Edit>, l: nat): set<File> {
    if edits == [] then {} else FoldedAdditions(edits[..|edits| - 1], l) + AddedAt(edits[|edits| - 1], l)
  }

  /** A file number is never added to a level that held it before. */
  ghost predicate NeverReadded(v: Version, edits: seq<Edit>)
    requires |v| == NUM_LEVELS
  {
    forall i, l :: 0 <= i < |edits| && 0 <= l < NUM_LEVELS ==>
      Numbers(AddedAt(edits[i], l)) !! Numbers((set f | f in v[l]) + FoldedAdditions(edits[..i], l))
  }

  lemma NumberOf(f: File, fs: set<File>)
    requires f in fs
    ensures f.number in Numbers(fs)
  {
  }

  lemma {:induction false} FoldIsStepwise(vs: seq<Version>, edits: seq<Edit>)
    requires InstallsAll(vs, edits) && |vs[0]| == NUM_LEVELS && NeverReadded(vs[0], edits)
    requires forall l :: 0 <= l < NUM_LEVELS ==> Ordered(vs[0][l])
    ensures |vs[|edits|]| == NUM_LEVELS
    ensures forall l :: 0 <= l < NUM_LEVELS ==>
      Saved(vs[0][l], FoldedDeletions(edits, l), FoldedAdditions(edits, l), vs[|edits|][l])
    decreases |edits|
  {
    if edits != [] {
      var n := |edits| - 1;
      var init, edit := edits[..n], edits[n];
      assert forall i :: 0 <= i <= n ==> init[..i] == edits[..i];
      FoldIsStepwise(vs[..n + 1], init);
      assert Installs(vs[n], edit, vs[n + 1]);
      forall l | 0 <= l < NUM_LEVELS
        ensures Saved(vs[0][l], FoldedDeletions(edits, l), FoldedAdditions(edits, l), vs[n + 1][l])
      {
        var a, before := AddedAt(edit, l), (set f | f in vs[0][l]) + FoldedAdditions(init, l);
        assert Saved(vs[n][l], DeletedAt(edit, l) - Numbers(a), a, vs[n + 1][l]);
        assert Numbers(a) !! Numbers(before);
        forall f | f in before ensures f.number !in Numbers(a) { NumberOf(f, before); }
        forall f | f in a ensures f.number in Numbers(a) { NumberOf(f, a); }
      }
    }
  }

  lemma {:induction false} AdditionsAreNew(v: Version, edits: seq<Edit>, l: nat)
    requires |v| == NUM_LEVELS && NeverReadded(v, edits) && l < NUM_LEVELS
    ensures Numbers(FoldedAdditions(edits, l)) !! Numbers(set f | f in v[l])
    decreases |edits|
  {
    if edits != [] {
      var n := |edits| - 1;
      assert forall i :: 0 <= i <= n ==> edits[..n][..i] == edits[..i];
      AdditionsAreNew(v, edits[..n], l);
      var a, b := AddedAt(edits[n], l), FoldedAdditions(edits[..n], l);
      assert Numbers(a) !! Numbers((set f | f in v[l]) + b);
      forall f | f in v[l] ensures f.number !in Numbers(a + b) {
        NumberOf(f, (set g | g in v[l]) + b);
        NumberOf(f, set g | g in v[l]);
      }
    }
  }

  lemma NewNumbersDoNotClash(base: seq<File>, added: seq<File>, names: set<File>)
    requires forall f :: f in added ==> f in names
    requires Numbers(names) !! Numbers(set f | f in base)
    ensures NoClash(base, added)
  {
    forall f, g | f in base && g in added ensures BySmallest(f, g) || BySmallest(g, f) {
      NumberOf(f, set h | h in base);
      NumberOf(g, names);
    }
  }

  /** VersionSet::Recover: every edit through one builder gives the version that was
      installed edit by edit. */
  method RecoverVersion(base: Version, edits: seq<Edit>) returns (v: Version)
    requires |base| == NUM_LEVELS && forall l :: 0 <= l < NUM_LEVELS ==> Ordered(base[l])
    requires forall e :: e in edits ==> InLevels(e)
    requires forall l :: 0 <= l < NUM_LEVELS ==> NumbersName(FoldedAdditions(edits, l))
    requires NeverReadded(base, edits)
    ensures |v| == NUM_LEVELS
    ensures forall l :: 0 <= l < NUM_LEVELS ==> Saved(base[l], FoldedDeletions(edits, l), FoldedAdditions(edits, l), v[l])
    ensures forall vs :: InstallsAll(vs, edits) && vs[0] == base ==> v == vs[|edits|]
  {
    var builder := new VersionBuilder(base);
    for i := 0 to |edits|
      invariant builder.Valid() && fresh(builder) && builder.base == base
      invariant forall l :: 0 <= l < NUM_LEVELS ==> builder.deleted[l] == FoldedDeletions(edits[..i], l)
      invariant forall l :: 0 <= l < NUM_LEVELS ==> builder.Files(l) == FoldedAdditions(edits[..i], l)
    {
      assert edits[..i + 1][..i] == edits[..i];
      forall l | 0 <= l < NUM_LEVELS
        ensures NumbersName(builder.Files(l) + AddedAt(edits[i], l))
      {
        FoldedMonotone(edits, i + 1);
        assert FoldedAdditions(edits[..i + 1], l) == builder.Files(l) + AddedAt(edits[i], l);
      }
      builder.Apply(edits[i]);
    }
    assert edits[..|edits|] == edits;
    forall l | 0 <= l < NUM_LEVELS ensures NoClash(base[l], builder.added[l]) {
      AdditionsAreNew(base, edits, l);
      NewNumbersDoNotClash(base[l], builder.added[l], builder.Files(l));
    }
    v := builder.SaveTo();
    forall vs | InstallsAll(vs, edits) && vs[0] == base ensures v == vs[|edits|] {
      FoldIsStepwise(vs, edits);
      forall l | 0 <= l < NUM_LEVELS ensures v[l] == vs[|edits|][l] {
        OrderedUnique(v[l], vs[|edits|][l]);
      }
    }
  }

  lemma {:induction false} FoldedMonotone(edits: seq<Edit>, i: nat)
    requires i <= |edits|
    ensures forall l :: FoldedAdditions(edits[..i], l) <= FoldedAdditions(edits, l)
    decreases |edits|
  {
    if i < |edits| {
      assert edits[..|edits| - 1][..i] == edits[..i];
      FoldedMonotone(edits[..|edits| - 1], i);
    } else {
      assert edits[..i] == edits;
    }
  }
}
