// When a patch leaves nothing to change, exactly (backend/app/doc_differ.py:42-272).
//
// The difference goes by code and the patch by name. Each level of a
// configuration gets the condition on names under which the two agree.
module PatchConditions {
  import opened Basics
  import opened DocDiffer

  // ----- when a level without updates converges, exactly -----

  ghost predicate CodesOnce<T>(s: seq<Named<T>>) {
    forall i, j :: 0 <= i < j < |s| && s[i].code != "" ==> s[i].code != s[j].code
  }

  lemma {:induction false} RemovedMembers<T>(s: seq<Named<T>>, names: seq<string>, x: Named<T>)
    ensures x in RunAll(s, RemoveOps(names)) <==> x in s && forall n :: n in names ==> x.name != Some(n)
    decreases |names|
  {
    if names == [] {
      assert RemoveOps<T>(names) == [];
    } else {
      var k := |names| - 1;
      assert names == names[..k] + [names[k]];
      assert RemoveOps<T>(names)[..k] == RemoveOps<T>(names[..k]);
      RemovedMembers(s, names[..k], x);
      WithoutMembers(RunAll(s, RemoveOps(names[..k])), names[k], x);
    }
  }

  lemma {:induction false} WithoutMembers<T>(s: seq<Named<T>>, target: string, x: Named<T>)
    ensures x in Without(s, target) <==> x in s && x.name != Some(target)
    decreases |s|
  {
    if s != [] {
      WithoutMembers(s[..|s| - 1], target, x);
      assert s == s[..|s| - 1] + [s[|s| - 1]];
    }
  }

  lemma {:induction false} LastOnce<T>(s: seq<Named<T>>, x: Named<T>)
    requires CodesOnce(s) && x in s && x.code != ""
    ensures Last(s, x.code) == Some(x)
    decreases |s|
  {
    var n := |s| - 1;
    if s[n] != x {
      assert s == s[..n] + [s[n]];
      var i :| 0 <= i < n && s[i] == x;
      LastOnce(s[..n], x);
    }
  }

  // With distinct codes and names present, the role patch converges exactly
  // when no role to be removed shares its name with a role that stays or
  // comes in: the removals run last and go by name.
  lemma AddRemoveConvergesExactly<T(!new)>(a: seq<Named<T>>, b: seq<Named<T>>)
    requires CodesOnce(a) && forall x :: x in a ==> x.name.Some?
    ensures var r := RunAll(a, Adds(New(a, b)) + RemoveOps(NamesOf(New(b, a))));
            (New(r, b) == [] && New(b, r) == []) <==>
            forall g, x :: g in New(b, a) && (x in a || x in New(a, b)) && x.code != "" && Last(b, x.code).Some?
                           ==> x.name != g.name
  {
    hide New, RunAll, Last, RemoveOps, NamesOf, CodesOnce, IsPatched;
    var r := RunAll(a, Adds(New(a, b)) + RemoveOps(NamesOf(New(b, a))));
    AddRemovePatched(a, b, r);
    if forall g, x :: g in New(b, a) && (x in a || x in New(a, b)) && x.code != "" && Last(b, x.code).Some? ==> x.name != g.name {
      AddRemoveIf(a, b, r);
    }
    if New(r, b) == [] {
      AddRemoveOnlyIf(a, b, r);
    }
  }

  lemma AddRemovePatched<T(!new)>(a: seq<Named<T>>, b: seq<Named<T>>, r: seq<Named<T>>)
    requires forall x :: x in a ==> x.name.Some?
    requires r == RunAll(a, Adds(New(a, b)) + RemoveOps(NamesOf(New(b, a))))
    ensures IsPatched(a, b, r)
  {
    hide New, RunAll, Last, RemoveOps, NamesOf;
    var adds, gone := New(a, b), New(b, a);
    RunAllAppend(a, Adds(adds), RemoveOps(NamesOf(gone)));
    RunAdds(a, adds);
    forall g | g in gone
      ensures g.name == Some(g.NameOrEmpty())
    {
      NewMembers(b, a, g);
    }
    NamesOfMembers(gone);
    forall x
      ensures x in r <==> (x in a || x in adds) && forall g :: g in gone ==> x.name != g.name
    {
      RemovedMembers(a + adds, NamesOf(gone), x);
    }
  }

  lemma NamesOfMembers<T>(s: seq<Named<T>>)
    ensures forall n :: n in NamesOf(s) <==> exists g :: g in s && g.NameOrEmpty() == n
  {
    forall g | g in s
      ensures g.NameOrEmpty() in NamesOf(s)
    {
      var i :| 0 <= i < |s| && s[i] == g;
      assert NamesOf(s)[i] == g.NameOrEmpty();
    }
  }

  ghost predicate IsPatched<T(!new)>(a: seq<Named<T>>, b: seq<Named<T>>, r: seq<Named<T>>) {
    forall x :: x in r <==> (x in a || x in New(a, b)) && forall g :: g in New(b, a) ==> x.name != g.name
  }

  lemma AddRemoveIf<T(!new)>(a: seq<Named<T>>, b: seq<Named<T>>, r: seq<Named<T>>)
    requires CodesOnce(a) && IsPatched(a, b, r)
    requires forall g, x :: g in New(b, a) && (x in a || x in New(a, b)) && x.code != "" && Last(b, x.code).Some?
                            ==> x.name != g.name
    ensures New(r, b) == [] && New(b, r) == []
  {
    hide New, Last, CodesOnce;
    forall c | c != "" && Last(b, c).Some?
      ensures Last(r, c).Some?
    {
      var x := if Last(a, c).Some? then Last(a, c).value else Last(b, c).value;
      NewMembers(a, b, x);
      assert x in r;
      if Last(r, c).None? {
        LastNone(r, c);
        assert false;
      }
    }
    forall c | c != "" && Last(r, c).Some?
      ensures Last(b, c).Some?
    {
      var x := Last(r, c).value;
      NewMembers(a, b, x);
      if x in a {
        LastOnce(a, x);
        NewMembers(b, a, x);
      }
    }
    NothingNew(r, b);
    NothingNew(b, r);
  }

  lemma AddRemoveOnlyIf<T(!new)>(a: seq<Named<T>>, b: seq<Named<T>>, r: seq<Named<T>>)
    requires CodesOnce(a) && IsPatched(a, b, r) && New(r, b) == []
    ensures forall g, x :: g in New(b, a) && (x in a || x in New(a, b)) && x.code != "" && Last(b, x.code).Some?
                           ==> x.name != g.name
  {
    hide New, Last, CodesOnce;
    forall g, x | g in New(b, a) && (x in a || x in New(a, b)) && x.code != "" && Last(b, x.code).Some?
      ensures x.name != g.name
    {
      var c := x.code;
      if Last(r, c).None? {
        NewMembers(r, b, Last(b, c).value);
        assert false;
      }
      var y := Last(r, c).value;
      NewMembers(a, b, x);
      NewMembers(a, b, y);
      OneOfEachCode(a, b, x, y);
    }
  }

  lemma OneOfEachCode<T>(a: seq<Named<T>>, b: seq<Named<T>>, x: Named<T>, y: Named<T>)
    requires CodesOnce(a) && x.code == y.code != ""
    requires x in a || x in New(a, b)
    requires y in a || y in New(a, b)
    ensures x == y
  {
    hide New, Last, CodesOnce;
    NewMembers(a, b, x);
    NewMembers(a, b, y);
    if x in a {
      LastOnce(a, x);
    }
    if y in a {
      LastOnce(a, y);
    }
  }

  // ----- tidy lists -----

  // Names are there and distinct, and so are the codes that are there.
  ghost predicate Tidy<T>(s: seq<Named<T>>) {
    && (forall x :: x in s ==> x.name.Some?)
    && (forall i, j :: 0 <= i < j < |s| ==> s[i].name != s[j].name)
    && CodesOnce(s)
  }

  // No old entry without a code has the new name of a changed one.
  ghost predicate UncodedApart<T(!new)>(a: seq<Named<T>>, ps: seq<Pair<T>>) {
    forall x, p :: x in a && p in ps && x.code == "" ==> x.name != p.after.name
  }

  lemma SameName<T>(s: seq<Named<T>>, x: Named<T>, y: Named<T>)
    requires Tidy(s) && x in s && y in s && x.name == y.name
    ensures x == y
  {
    hide CodesOnce;
    var i :| 0 <= i < |s| && s[i] == x;
    var j :| 0 <= j < |s| && s[j] == y;
  }

  // In a tidy list an entry with a code is the one its code stands for.
  lemma OwnLast<T>(s: seq<Named<T>>, x: Named<T>)
    requires Tidy(s) && x in s && x.code != ""
    ensures Last(s, x.code) == Some(x)
  {
    hide Last, CodesOnce;
    LastOnce(s, x);
  }

  lemma HasLast<T>(s: seq<Named<T>>, x: Named<T>)
    requires x in s
    ensures Last(s, x.code).Some?
  {
    hide Last;
    if Last(s, x.code).None? {
      LastNone(s, x.code);
    }
  }

  // Entries that come in, go out, or stay.
  lemma PairFacts<T>(a: seq<Named<T>>, b: seq<Named<T>>, p: Pair<T>)
    requires p in Both(a, b)
    ensures p.before in a && p.after in b && p.before.code == p.after.code != ""
    ensures Last(a, p.before.code) == Some(p.before) && Last(b, p.after.code) == Some(p.after)
  {
    hide Last, Both;
    BothMembers(a, b, p);
  }

  lemma NewFacts<T>(a: seq<Named<T>>, b: seq<Named<T>>, x: Named<T>)
    requires x in New(a, b)
    ensures x in b && x.code != "" && Last(a, x.code).None? && Last(b, x.code) == Some(x)
  {
    hide Last, New;
    NewMembers(a, b, x);
  }

  lemma EntryCases<T>(a: seq<Named<T>>, b: seq<Named<T>>, e: Named<T>)
    requires Tidy(a) && e in a && e.code != ""
    ensures e in New(b, a) <==> Last(b, e.code).None?
    ensures Last(b, e.code).Some? ==> Pair(e, Last(b, e.code).value) in Both(a, b)
  {
    hide Last, New, Both, Tidy;
    OwnLast(a, e);
    NewMembers(b, a, e);
    if Last(b, e.code).Some? {
      BothMembers(a, b, Pair(e, Last(b, e.code).value));
    }
  }

  // The pair of an entry is determined by its code.
  lemma OnePair<T>(a: seq<Named<T>>, b: seq<Named<T>>, p: Pair<T>, q: Pair<T>)
    requires p in Both(a, b) && q in Both(a, b) && p.after.code == q.after.code
    ensures p == q
  {
    hide Last, Both;
    BothMembers(a, b, p);
    BothMembers(a, b, q);
  }

  // Gone and staying entries of a tidy list have different names.
  lemma GoneIsElsewhere<T>(a: seq<Named<T>>, b: seq<Named<T>>, g: Named<T>, p: Pair<T>)
    requires Tidy(a) && g in New(b, a) && p in Both(a, b)
    ensures g.name != p.before.name
  {
    hide Last, New, Both, Tidy;
    NewFacts(b, a, g);
    PairFacts(a, b, p);
    if g.name == p.before.name {
      SameName(a, g, p.before);
    }
  }

  // No entry that goes out has the name of one that comes in.
  ghost predicate NoNameClash<T(!new)>(a: seq<Named<T>>, b: seq<Named<T>>) {
    forall g, n :: g in New(b, a) && n in New(a, b) ==> g.name != n.name
  }

  // The level compares as unchanged.
  ghost predicate Meets<T>(f: Pair<T> -> bool, r: seq<Named<T>>, b: seq<Named<T>>) {
    New(r, b) == [] && New(b, r) == [] && Filter(f, Both(r, b)) == []
  }

  // What that is, entry by entry.
  ghost predicate EachMeets<T(!new)>(f: Pair<T> -> bool, r: seq<Named<T>>, b: seq<Named<T>>) {
    && (forall c :: c != "" ==> (Last(r, c).Some? <==> Last(b, c).Some?))
    && (forall c :: c != "" && Last(r, c).Some? && Last(b, c).Some? ==> !f(Pair(Last(r, c).value, Last(b, c).value)))
  }

  lemma MeetsIsEach<T(!new)>(f: Pair<T> -> bool, r: seq<Named<T>>, b: seq<Named<T>>)
    ensures Meets(f, r, b) <==> EachMeets(f, r, b)
  {
    hide Last, New, Both, Filter;
    if EachMeets(f, r, b) {
      NothingNew(r, b);
      NothingNew(b, r);
      forall q | q in Both(r, b)
        ensures !f(q)
      {
        BothMembers(r, b, q);
      }
      NothingLeft(f, Both(r, b));
    }
    if Meets(f, r, b) {
      forall c | c != ""
        ensures Last(r, c).Some? <==> Last(b, c).Some?
        ensures Last(r, c).Some? && Last(b, c).Some? ==> !f(Pair(Last(r, c).value, Last(b, c).value))
      {
        if Last(b, c).Some? {
          NewMembers(r, b, Last(b, c).value);
        }
        if Last(r, c).Some? {
          NewMembers(b, r, Last(r, c).value);
        }
        if Last(r, c).Some? && Last(b, c).Some? {
          var q := Pair(Last(r, c).value, Last(b, c).value);
          BothMembers(r, b, q);
          FilterMembers(f, Both(r, b), q);
        }
      }
    }
  }

  // After removals by name an entry is left unless its name is that of one
  // that goes out.
  lemma AfterRemovals<T>(s: seq<Named<T>>, gone: seq<Named<T>>, z: Named<T>)
    requires forall g :: g in gone ==> g.name.Some?
    ensures z in RunAll(s, RemoveOps(NamesOf(gone))) <==> z in s && forall g :: g in gone ==> z.name != g.name
  {
    hide RunAll, RemoveOps, NamesOf;
    RemovedMembers(s, NamesOf(gone), z);
    NamesOfMembers(gone);
  }

  // ----- updates that aim at the new names: dictionaries -----

  // What the updates make of an entry.
  function PutOver<T>(ps: seq<Pair<T>>, e: Named<T>): Named<T> {
    if ps == [] then e
    else if ps[|ps| - 1].after.name == e.name then ps[|ps| - 1].after
    else PutOver(ps[..|ps| - 1], e)
  }

  lemma {:induction false} PutOverIs<T>(ps: seq<Pair<T>>, e: Named<T>)
    ensures PutOver(ps, e).name == e.name
    ensures (PutOver(ps, e) == e && forall p :: p in ps ==> p.after.name != e.name)
            || exists p :: p in ps && p.after == PutOver(ps, e)
    decreases |ps|
  {
    if ps != [] {
      var n := |ps| - 1;
      PutOverIs(ps[..n], e);
      assert ps == ps[..n] + [ps[n]];
      if ps[n].after.name == e.name {
        assert ps[n] in ps;
      } else if exists p :: p in ps[..n] && p.after == PutOver(ps[..n], e) {
        var p :| p in ps[..n] && p.after == PutOver(ps[..n], e);
        assert p in ps;
      }
    }
  }

  lemma {:induction false} ReplaceAt<T>(s: seq<Named<T>>, target: string, entry: Named<T>)
    ensures |Replace(s, target, entry)| == |s|
    ensures forall i :: 0 <= i < |s| ==> Replace(s, target, entry)[i] == if s[i].name == Some(target) then entry else s[i]
  {
    if s != [] {
      ReplaceAt(s[..|s| - 1], target, entry);
    }
  }

  lemma {:induction false} RunPutsOver<T>(s: seq<Named<T>>, ps: seq<Pair<T>>)
    requires forall p :: p in ps ==> p.after.name.Some?
    ensures |RunAll(s, PutsAfter(ps))| == |s|
    ensures forall i :: 0 <= i < |s| ==> RunAll(s, PutsAfter(ps))[i] == PutOver(ps, s[i])
    decreases |ps|
  {
    if ps != [] {
      hide Replace;
      var n := |ps| - 1;
      RunPutsOver(s, ps[..n]);
      assert ps[n] in ps;
      assert PutsAfter(ps)[..n] == PutsAfter(ps[..n]);
      var mid := RunAll(s, PutsAfter(ps[..n]));
      ReplaceAt(mid, ps[n].after.NameOrEmpty(), ps[n].after);
      forall i | 0 <= i < |s| {
        PutOverIs(ps[..n], s[i]);
      }
    }
  }

  ghost function LevelAfter<T>(a: seq<Named<T>>, b: seq<Named<T>>, ps: seq<Pair<T>>): seq<Named<T>> {
    RunAll(a, Adds(New(a, b)) + PutsAfter(ps) + RemoveOps(NamesOf(New(b, a))))
  }

  lemma LevelSteps<T>(a: seq<Named<T>>, b: seq<Named<T>>, puts: seq<ListOp<T>>)
    ensures RunAll(a, Adds(New(a, b)) + puts + RemoveOps(NamesOf(New(b, a))))
            == RunAll(RunAll(a + New(a, b), puts), RemoveOps(NamesOf(New(b, a))))
  {
    hide RunAll, Adds, New;
    RunAllAppend(a, Adds(New(a, b)) + puts, RemoveOps(NamesOf(New(b, a))));
    RunAllAppend(a, Adds(New(a, b)), puts);
    RunAdds(a, New(a, b));
  }

  // Where an entry of the result comes from, and that what is not removed is
  // in it.
  lemma LevelOrigin<T>(a: seq<Named<T>>, b: seq<Named<T>>, ps: seq<Pair<T>>, z: Named<T>) returns (e: Named<T>)
    requires Tidy(a) && (forall p :: p in ps ==> p.after.name.Some?) && z in LevelAfter(a, b, ps)
    ensures (e in a || e in New(a, b)) && z == PutOver(ps, e) && z.name == e.name
    ensures forall g :: g in New(b, a) ==> e.name != g.name
  {
    hide RunAll, PutsAfter, New, RemoveOps, NamesOf, PutOver, CodesOnce;
    LevelSteps(a, b, PutsAfter(ps));
    var s := a + New(a, b);
    RunPutsOver(s, ps);
    GoneNamed(a, b);
    AfterRemovals(RunAll(s, PutsAfter(ps)), New(b, a), z);
    var i :| 0 <= i < |s| && RunAll(s, PutsAfter(ps))[i] == z;
    e := s[i];
    PutOverIs(ps, e);
  }

  lemma LevelKeeps<T>(a: seq<Named<T>>, b: seq<Named<T>>, ps: seq<Pair<T>>, e: Named<T>)
    requires Tidy(a) && (forall p :: p in ps ==> p.after.name.Some?) && (e in a || e in New(a, b))
    requires forall g :: g in New(b, a) ==> e.name != g.name
    ensures PutOver(ps, e) in LevelAfter(a, b, ps)
  {
    hide RunAll, PutsAfter, New, RemoveOps, NamesOf, PutOver, CodesOnce;
    LevelSteps(a, b, PutsAfter(ps));
    var s := a + New(a, b);
    RunPutsOver(s, ps);
    GoneNamed(a, b);
    PutOverIs(ps, e);
    AfterRemovals(RunAll(s, PutsAfter(ps)), New(b, a), PutOver(ps, e));
    assert e in s;
    var i :| 0 <= i < |s| && s[i] == e;
    assert RunAll(s, PutsAfter(ps))[i] == PutOver(ps, e);
  }

  lemma GoneNamed<T>(a: seq<Named<T>>, b: seq<Named<T>>)
    requires Tidy(a)
    ensures forall g :: g in New(b, a) ==> g.name.Some?
  {
    hide New;
    forall g | g in New(b, a)
      ensures g.name.Some?
    {
      NewFacts(b, a, g);
    }
  }

  ghost function OldNames<T>(ps: seq<Pair<T>>): set<Option<string>> {
    set p | p in ps :: p.before.name
  }

  ghost function NewNames<T>(ps: seq<Pair<T>>): set<Option<string>> {
    set p | p in ps :: p.after.name
  }

  // The changed entries of a level.
  ghost function ChangedOf<T>(f: Pair<T> -> bool, a: seq<Named<T>>, b: seq<Named<T>>): seq<Pair<T>> {
    Filter(f, Both(a, b))
  }

  lemma ChangedFacts<T>(f: Pair<T> -> bool, a: seq<Named<T>>, b: seq<Named<T>>, p: Pair<T>)
    ensures p in ChangedOf(f, a, b) <==> p in Both(a, b) && f(p)
  {
    FilterMembers(f, Both(a, b), p);
  }

  lemma ChangedNamed<T>(f: Pair<T> -> bool, a: seq<Named<T>>, b: seq<Named<T>>)
    requires Tidy(b)
    ensures forall p :: p in ChangedOf(f, a, b) ==> p.after.name.Some?
  {
    hide ChangedOf, CodesOnce, Both;
    forall p | p in ChangedOf(f, a, b)
      ensures p.after.name.Some?
    {
      ChangedFacts(f, a, b, p);
      PairFacts(a, b, p);
    }
  }

  // An entry that comes in is not updated.
  lemma NewIsNotPut<T>(f: Pair<T> -> bool, a: seq<Named<T>>, b: seq<Named<T>>, n: Named<T>)
    requires Tidy(b) && n in New(a, b)
    ensures PutOver(ChangedOf(f, a, b), n) == n
  {
    hide Tidy, ChangedOf, Both, New, PutOver, Last;
    var ps := ChangedOf(f, a, b);
    PutOverIs(ps, n);
    NewFacts(a, b, n);
    if exists p :: p in ps && p.after == PutOver(ps, n) {
      var p :| p in ps && p.after == PutOver(ps, n);
      ChangedFacts(f, a, b, p);
      PairFacts(a, b, p);
      SameName(b, n, p.after);
    }
  }

  // An old entry that is updated becomes the new entry of its name.
  lemma PutBecomes<T>(f: Pair<T> -> bool, a: seq<Named<T>>, b: seq<Named<T>>, e: Named<T>, p: Pair<T>)
    requires Tidy(b) && p in ChangedOf(f, a, b) && p.after.name == e.name
    ensures PutOver(ChangedOf(f, a, b), e) == p.after
  {
    hide Tidy, ChangedOf, Both, PutOver, Last;
    var ps := ChangedOf(f, a, b);
    PutOverIs(ps, e);
    var q :| q in ps && q.after == PutOver(ps, e);
    ChangedFacts(f, a, b, p);
    ChangedFacts(f, a, b, q);
    PairFacts(a, b, p);
    PairFacts(a, b, q);
    SameName(b, p.after, q.after);
  }

  // Under the condition, what is in the result is as it should be ...
  lemma LevelRight<T(!new)>(f: Pair<T> -> bool, a: seq<Named<T>>, b: seq<Named<T>>, z: Named<T>)
    requires Tidy(a) && Tidy(b) && UncodedApart(a, ChangedOf(f, a, b)) && forall x :: !f(Pair(x, x))
    requires OldNames(ChangedOf(f, a, b)) <= NewNames(ChangedOf(f, a, b))
    requires z in LevelAfter(a, b, ChangedOf(f, a, b)) && z.code != ""
    ensures Last(b, z.code).Some? && !f(Pair(z, Last(b, z.code).value))
  {
    hide Tidy, ChangedOf, Both, New, PutOver, Last, LevelAfter;
    var ps := ChangedOf(f, a, b);
    ChangedNamed(f, a, b);
    var e := LevelOrigin(a, b, ps, z);
    if e in New(a, b) {
      NewIsNotPut(f, a, b, e);
      NewFacts(a, b, e);
    } else if e.code == "" {
      PutOverIs(ps, e);
    } else {
      EntryCases(a, b, e);
      var q := Pair(e, Last(b, e.code).value);
      ChangedFacts(f, a, b, q);
      PutOverIs(ps, e);
      if q in ps {
        assert e.name in OldNames(ps);
        var p :| p in ps && p.after.name == e.name;
        PutBecomes(f, a, b, e, p);
      }
      if exists p :: p in ps && p.after == z {
        var p :| p in ps && p.after == z;
        ChangedFacts(f, a, b, p);
        PairFacts(a, b, p);
      }
    }
  }

  // ... and everything that should be there is.
  lemma LevelReaches<T(!new)>(f: Pair<T> -> bool, a: seq<Named<T>>, b: seq<Named<T>>, y: Named<T>)
    requires Tidy(a) && Tidy(b) && NoNameClash(a, b)
    requires NewNames(ChangedOf(f, a, b)) <= OldNames(ChangedOf(f, a, b))
    requires y in b && y.code != ""
    ensures Last(LevelAfter(a, b, ChangedOf(f, a, b)), y.code).Some?
  {
    hide Tidy, ChangedOf, Both, New, PutOver, Last, LevelAfter;
    var ps := ChangedOf(f, a, b);
    ChangedNamed(f, a, b);
    OwnLast(b, y);
    if Last(a, y.code).None? {
      NewMembers(a, b, y);
      NewIsNotPut(f, a, b, y);
      LevelKeeps(a, b, ps, y);
      HasLast(LevelAfter(a, b, ps), y);
    } else {
      var q := Pair(Last(a, y.code).value, y);
      BothMembers(a, b, q);
      ChangedFacts(f, a, b, q);
      if q in ps {
        assert y.name in NewNames(ps);
        var p :| p in ps && p.before.name == y.name;
        PutBecomes(f, a, b, p.before, q);
        StayingIsKept(f, a, b, p);
        HasLast(LevelAfter(a, b, ps), y);
      } else {
        UnchangedIsNotPut(f, a, b, q);
        StaysNamed(a, b, q);
        LevelKeeps(a, b, ps, q.before);
        HasLast(LevelAfter(a, b, ps), q.before);
      }
    }
  }

  lemma StaysNamed<T>(a: seq<Named<T>>, b: seq<Named<T>>, p: Pair<T>)
    requires Tidy(a) && p in Both(a, b)
    ensures p.before in a && forall g :: g in New(b, a) ==> p.before.name != g.name
  {
    hide Tidy, Both, New;
    PairFacts(a, b, p);
    forall g | g in New(b, a)
      ensures p.before.name != g.name
    {
      GoneIsElsewhere(a, b, g, p);
    }
  }

  lemma StayingIsKept<T>(f: Pair<T> -> bool, a: seq<Named<T>>, b: seq<Named<T>>, p: Pair<T>)
    requires Tidy(a) && Tidy(b) && p in ChangedOf(f, a, b)
    ensures PutOver(ChangedOf(f, a, b), p.before) in LevelAfter(a, b, ChangedOf(f, a, b))
  {
    hide Tidy, ChangedOf, Both, New, PutOver, LevelAfter;
    ChangedNamed(f, a, b);
    ChangedFacts(f, a, b, p);
    StaysNamed(a, b, p);
    LevelKeeps(a, b, ChangedOf(f, a, b), p.before);
  }

  lemma UnchangedIsNotPut<T>(f: Pair<T> -> bool, a: seq<Named<T>>, b: seq<Named<T>>, q: Pair<T>)
    requires Tidy(a) && q in Both(a, b) && !f(q)
    requires NewNames(ChangedOf(f, a, b)) <= OldNames(ChangedOf(f, a, b))
    ensures PutOver(ChangedOf(f, a, b), q.before) == q.before
  {
    hide Tidy, ChangedOf, Both, PutOver, Last;
    var ps := ChangedOf(f, a, b);
    PutOverIs(ps, q.before);
    PairFacts(a, b, q);
    if exists p :: p in ps && p.after == PutOver(ps, q.before) {
      var p :| p in ps && p.after == PutOver(ps, q.before);
      assert p.after.name in NewNames(ps);
      var o :| o in ps && o.before.name == q.before.name;
      ChangedFacts(f, a, b, o);
      PairFacts(a, b, o);
      SameName(a, o.before, q.before);
      OnePair(a, b, o, q);
    }
  }

  // The converse. The new entry of a changed pair can only be in the result in
  // the place of the old entry that had its name.
  lemma ChangedTakesPlace<T(!new)>(f: Pair<T> -> bool, a: seq<Named<T>>, b: seq<Named<T>>, p: Pair<T>) returns (e: Named<T>)
    requires Tidy(a) && Tidy(b) && (forall x :: !f(Pair(x, x)))
    requires p in ChangedOf(f, a, b) && EachMeets(f, LevelAfter(a, b, ChangedOf(f, a, b)), b)
    ensures e in a && e.name == p.after.name && PutOver(ChangedOf(f, a, b), e) == p.after
    ensures forall g :: g in New(b, a) ==> e.name != g.name
  {
    hide Tidy, ChangedOf, Both, New, PutOver, Last, LevelAfter;
    var ps := ChangedOf(f, a, b);
    var r := LevelAfter(a, b, ps);
    ChangedFacts(f, a, b, p);
    PairFacts(a, b, p);
    ChangedNamed(f, a, b);
    var z := Last(r, p.after.code).value;
    e := LevelOrigin(a, b, ps, z);
    PutOverIs(ps, e);
    if e in New(a, b) {
      NewIsNotPut(f, a, b, e);
      NewFacts(a, b, e);
      assert false;
    }
    if PutOver(ps, e) == e && !exists q :: q in ps && q.after == e {
      OwnLast(a, e);
      assert false;
    }
    var q :| q in ps && q.after == z;
    ChangedFacts(f, a, b, q);
    PairFacts(a, b, q);
    OnePair(a, b, p, q);
  }

  // That old entry is itself changed: otherwise its own code would be lost.
  lemma PlaceIsChanged<T(!new)>(f: Pair<T> -> bool, a: seq<Named<T>>, b: seq<Named<T>>, p: Pair<T>)
    requires Tidy(a) && Tidy(b) && UncodedApart(a, ChangedOf(f, a, b)) && (forall x :: !f(Pair(x, x)))
    requires p in ChangedOf(f, a, b) && EachMeets(f, LevelAfter(a, b, ChangedOf(f, a, b)), b)
    ensures p.after.name in OldNames(ChangedOf(f, a, b))
  {
    hide Tidy, ChangedOf, Both, New, PutOver, Last, LevelAfter, EachMeets;
    var ps := ChangedOf(f, a, b);
    var e := ChangedTakesPlace(f, a, b, p);
    EntryCases(a, b, e);
    var q := Pair(e, Last(b, e.code).value);
    ChangedFacts(f, a, b, q);
    if q !in ps {
      UnchangedKeepsPlace(f, a, b, q);
      ChangedFacts(f, a, b, p);
      PairFacts(a, b, p);
      PairFacts(a, b, q);
      OnePair(a, b, p, q);
      assert false;
    }
  }

  lemma UnchangedKeepsPlace<T(!new)>(f: Pair<T> -> bool, a: seq<Named<T>>, b: seq<Named<T>>, q: Pair<T>)
    requires Tidy(a) && Tidy(b) && q in Both(a, b) && !f(q)
    requires EachMeets(f, LevelAfter(a, b, ChangedOf(f, a, b)), b)
    ensures PutOver(ChangedOf(f, a, b), q.before) == q.before
  {
    hide Tidy, ChangedOf, Both, New, PutOver, Last, LevelAfter;
    var ps := ChangedOf(f, a, b);
    var r := LevelAfter(a, b, ps);
    PairFacts(a, b, q);
    ChangedNamed(f, a, b);
    var z := Last(r, q.after.code).value;
    var e := LevelOrigin(a, b, ps, z);
    PutOverIs(ps, e);
    if exists p :: p in ps && p.after == z {
      var p :| p in ps && p.after == z;
      ChangedFacts(f, a, b, p);
      PairFacts(a, b, p);
      OnePair(a, b, p, q);
    } else if e in New(a, b) {
      NewFacts(a, b, e);
    } else {
      OwnLast(a, e);
    }
  }

  lemma NoClashNeeded<T(!new)>(f: Pair<T> -> bool, a: seq<Named<T>>, b: seq<Named<T>>)
    requires Tidy(a) && Tidy(b) && EachMeets(f, LevelAfter(a, b, ChangedOf(f, a, b)), b)
    ensures NoNameClash(a, b)
  {
    hide Tidy, ChangedOf, Both, New, PutOver, Last, LevelAfter;
    var ps := ChangedOf(f, a, b);
    var r := LevelAfter(a, b, ps);
    ChangedNamed(f, a, b);
    forall g, n | g in New(b, a) && n in New(a, b)
      ensures g.name != n.name
    {
      NewFacts(a, b, n);
      var z := Last(r, n.code).value;
      var e := LevelOrigin(a, b, ps, z);
      PutOverIs(ps, e);
      if exists p :: p in ps && p.after == z {
        var p :| p in ps && p.after == z;
        ChangedFacts(f, a, b, p);
        PairFacts(a, b, p);
      } else if e in New(a, b) {
        NewFacts(a, b, e);
      } else {
        HasLast(a, e);
      }
    }
  }

  // ----- counting names -----

  ghost predicate NamesApart<T>(ps: seq<Pair<T>>) {
    && (forall i, j :: 0 <= i < j < |ps| ==> ps[i].before.name != ps[j].before.name)
    && forall i, j :: 0 <= i < j < |ps| ==> ps[i].after.name != ps[j].after.name
  }

  lemma {:induction false} NamesCount<T>(ps: seq<Pair<T>>)
    requires NamesApart(ps)
    ensures |OldNames(ps)| == |ps| == |NewNames(ps)|
    decreases |ps|
  {
    if ps != [] {
      var n := |ps| - 1;
      NamesCount(ps[..n]);
      LastNames(ps, n);
      hide OldNames, NewNames;
    }
  }

  lemma LastNames<T>(ps: seq<Pair<T>>, n: nat)
    requires |ps| == n + 1 && NamesApart(ps)
    ensures OldNames(ps) == OldNames(ps[..n]) + {ps[n].before.name} && ps[n].before.name !in OldNames(ps[..n])
    ensures NewNames(ps) == NewNames(ps[..n]) + {ps[n].after.name} && ps[n].after.name !in NewNames(ps[..n])
  {
    assert ps == ps[..n] + [ps[n]];
    forall p | p in ps[..n]
      ensures p.before.name != ps[n].before.name && p.after.name != ps[n].after.name
    {
      var i :| 0 <= i < n && ps[..n][i] == p;
      assert ps[i] == p;
    }
  }

  lemma FullSubset<T>(s: set<T>, t: set<T>)
    requires s <= t && |s| == |t|
    ensures s == t
  {
    var rest := t - s;
    assert t == s + rest;
    assert |rest| == 0;
  }

  lemma ChangedApart<T>(f: Pair<T> -> bool, a: seq<Named<T>>, b: seq<Named<T>>)
    requires Tidy(a) && Tidy(b)
    ensures NamesApart(ChangedOf(f, a, b)) && DistinctCodes(ChangedOf(f, a, b))
  {
    hide Tidy, ChangedOf, Both, Last;
    var ps := ChangedOf(f, a, b);
    BothDistinct(a, b);
    assert ps == Filter(f, Both(a, b)) by { FilterOfBoth(f, a, b); }
    FilterDistinct(f, Both(a, b));
    forall i, j | 0 <= i < j < |ps|
      ensures ps[i].before.name != ps[j].before.name && ps[i].after.name != ps[j].after.name
    {
      ChangedFacts(f, a, b, ps[i]);
      ChangedFacts(f, a, b, ps[j]);
      PairFacts(a, b, ps[i]);
      PairFacts(a, b, ps[j]);
      if ps[i].before.name == ps[j].before.name {
        SameName(a, ps[i].before, ps[j].before);
      }
      if ps[i].after.name == ps[j].after.name {
        SameName(b, ps[i].after, ps[j].after);
      }
    }
  }

  lemma FilterOfBoth<T>(f: Pair<T> -> bool, a: seq<Named<T>>, b: seq<Named<T>>)
    ensures ChangedOf(f, a, b) == Filter(f, Both(a, b))
  {
  }

  lemma {:induction false} FilterDistinct<T>(f: Pair<T> -> bool, ps: seq<Pair<T>>)
    requires DistinctCodes(ps)
    ensures DistinctCodes(Filter(f, ps))
    decreases |ps|
  {
    if ps != [] {
      var n := |ps| - 1;
      FilterDistinct(f, ps[..n]);
      var front := Filter(f, ps[..n]);
      forall i | 0 <= i < |front|
        ensures front[i].after.code != ps[n].after.code
      {
        FilterMembers(f, ps[..n], front[i]);
        var j :| 0 <= j < n && ps[..n][j] == front[i];
      }
    }
  }

  // A level whose updates aim at the new names, as for dictionaries: patching
  // the old entries meets the new ones exactly when no entry that goes out has
  // the name of one that comes in, and the changed entries have, all together,
  // the same names before and after. Mostly each keeps its own; they may also
  // exchange names among themselves.
  lemma LevelConvergesExactly<T(!new)>(f: Pair<T> -> bool, a: seq<Named<T>>, b: seq<Named<T>>)
    requires Tidy(a) && Tidy(b) && UncodedApart(a, ChangedOf(f, a, b)) && forall x :: !f(Pair(x, x))
    ensures Meets(f, LevelAfter(a, b, ChangedOf(f, a, b)), b)
            <==> NoNameClash(a, b) && OldNames(ChangedOf(f, a, b)) == NewNames(ChangedOf(f, a, b))
  {
    hide Tidy, ChangedOf, Both, New, Last, LevelAfter, Meets, NoNameClash, OldNames, NewNames, UncodedApart;
    var ps := ChangedOf(f, a, b);
    var r := LevelAfter(a, b, ps);
    MeetsIsEach(f, r, b);
    if NoNameClash(a, b) && OldNames(ps) == NewNames(ps) {
      forall c | c != ""
        ensures Last(r, c).Some? <==> Last(b, c).Some?
        ensures Last(r, c).Some? && Last(b, c).Some? ==> !f(Pair(Last(r, c).value, Last(b, c).value))
      {
        if Last(b, c).Some? {
          LevelReaches(f, a, b, Last(b, c).value);
        }
        if Last(r, c).Some? {
          LevelRight(f, a, b, Last(r, c).value);
        }
      }
    }
    if EachMeets(f, r, b) {
      NoClashNeeded(f, a, b);
      assert NewNames(ps) <= OldNames(ps) by {
        NewAreOld(f, a, b);
      }
      ChangedApart(f, a, b);
      NamesCount(ps);
      FullSubset(NewNames(ps), OldNames(ps));
    }
  }

  lemma NewAreOld<T(!new)>(f: Pair<T> -> bool, a: seq<Named<T>>, b: seq<Named<T>>)
    requires Tidy(a) && Tidy(b) && UncodedApart(a, ChangedOf(f, a, b)) && (forall x :: !f(Pair(x, x)))
    requires EachMeets(f, LevelAfter(a, b, ChangedOf(f, a, b)), b)
    ensures NewNames(ChangedOf(f, a, b)) <= OldNames(ChangedOf(f, a, b))
  {
    hide Tidy, ChangedOf, LevelAfter, EachMeets, UncodedApart, OldNames;
    forall p | p in ChangedOf(f, a, b)
      ensures p.after.name in OldNames(ChangedOf(f, a, b))
    {
      PlaceIsChanged(f, a, b, p);
    }
  }

  // ----- updates that aim at the old names: fields -----

  // What the updates, one after the other, make of an entry.
  function Aimed<T>(ps: seq<Pair<T>>, e: Named<T>): Named<T> {
    if ps == [] then e
    else
      var t := Aimed(ps[..|ps| - 1], e);
      if t.name == ps[|ps| - 1].before.name then ps[|ps| - 1].after else t
  }

  // No update from the k-th on aims at the name.
  ghost predicate NotAimedFrom<T>(ps: seq<Pair<T>>, k: nat, name: Option<string>) {
    forall l :: k <= l < |ps| ==> ps[l].before.name != name
  }

  // An entry no update aims at stays; another one ends as some new entry that
  // no later update aims at.
  lemma {:induction false} AimedIs<T>(ps: seq<Pair<T>>, e: Named<T>)
    ensures (NotAimedFrom(ps, 0, e.name) && Aimed(ps, e) == e)
            || (!NotAimedFrom(ps, 0, e.name)
                && exists k :: 0 <= k < |ps| && Aimed(ps, e) == ps[k].after && NotAimedFrom(ps, k + 1, ps[k].after.name))
    decreases |ps|
  {
    if ps != [] {
      var n := |ps| - 1;
      AimedIs(ps[..n], e);
      var t := Aimed(ps[..n], e);
      if t.name == ps[n].before.name {
        assert NotAimedFrom(ps, n + 1, ps[n].after.name);
        if NotAimedFrom(ps[..n], 0, e.name) {
          assert ps[n].before.name == e.name;
        } else {
          var l :| 0 <= l < n && ps[..n][l].before.name == e.name;
          assert ps[l].before.name == e.name;
        }
      } else if !NotAimedFrom(ps[..n], 0, e.name) {
        var k :| 0 <= k < n && t == ps[..n][k].after && NotAimedFrom(ps[..n], k + 1, ps[..n][k].after.name);
        KeptUnaimed(ps, n, k + 1, ps[k].after.name);
        var l :| 0 <= l < n && ps[..n][l].before.name == e.name;
        assert ps[l].before.name == e.name;
      } else {
        KeptUnaimed(ps, n, 0, e.name);
      }
    }
  }

  lemma KeptUnaimed<T>(ps: seq<Pair<T>>, n: nat, k: nat, name: Option<string>)
    requires |ps| == n + 1 && NotAimedFrom(ps[..n], k, name) && ps[n].before.name != name
    ensures NotAimedFrom(ps, k, name)
  {
    forall l | k <= l < |ps|
      ensures ps[l].before.name != name
    {
      assert l < n ==> ps[..n][l] == ps[l];
    }
  }

  lemma {:induction false} RunPutsAimed<T>(s: seq<Named<T>>, ps: seq<Pair<T>>)
    requires forall p :: p in ps ==> p.before.name.Some?
    ensures |RunAll(s, Puts(ps))| == |s|
    ensures forall i :: 0 <= i < |s| ==> RunAll(s, Puts(ps))[i] == Aimed(ps, s[i])
    decreases |ps|
  {
    if ps != [] {
      hide Replace;
      var n := |ps| - 1;
      RunPutsAimed(s, ps[..n]);
      assert ps[n] in ps;
      assert Puts(ps)[..n] == Puts(ps[..n]);
      ReplaceAt(RunAll(s, Puts(ps[..n])), ps[n].before.NameOrEmpty(), ps[n].after);
    }
  }

  ghost function AimedAfter<T>(a: seq<Named<T>>, b: seq<Named<T>>, ps: seq<Pair<T>>): seq<Named<T>> {
    RunAll(a, Adds(New(a, b)) + Puts(ps) + RemoveOps(NamesOf(New(b, a))))
  }

  lemma AimedOrigin<T>(a: seq<Named<T>>, b: seq<Named<T>>, ps: seq<Pair<T>>, z: Named<T>) returns (e: Named<T>)
    requires Tidy(a) && (forall p :: p in ps ==> p.before.name.Some?) && z in AimedAfter(a, b, ps)
    ensures (e in a || e in New(a, b)) && z == Aimed(ps, e)
    ensures forall g :: g in New(b, a) ==> z.name != g.name
  {
    hide RunAll, Puts, New, RemoveOps, NamesOf, Aimed, CodesOnce;
    LevelSteps(a, b, Puts(ps));
    var s := a + New(a, b);
    RunPutsAimed(s, ps);
    GoneNamed(a, b);
    AfterRemovals(RunAll(s, Puts(ps)), New(b, a), z);
    var i :| 0 <= i < |s| && RunAll(s, Puts(ps))[i] == z;
    e := s[i];
  }

  lemma AimedKeeps<T>(a: seq<Named<T>>, b: seq<Named<T>>, ps: seq<Pair<T>>, e: Named<T>)
    requires Tidy(a) && (forall p :: p in ps ==> p.before.name.Some?) && (e in a || e in New(a, b))
    requires forall g :: g in New(b, a) ==> Aimed(ps, e).name != g.name
    ensures Aimed(ps, e) in AimedAfter(a, b, ps)
  {
    hide RunAll, Puts, New, RemoveOps, NamesOf, Aimed, CodesOnce;
    LevelSteps(a, b, Puts(ps));
    var s := a + New(a, b);
    RunPutsAimed(s, ps);
    GoneNamed(a, b);
    AfterRemovals(RunAll(s, Puts(ps)), New(b, a), Aimed(ps, e));
    assert e in s;
    var i :| 0 <= i < |s| && s[i] == e;
    assert RunAll(s, Puts(ps))[i] == Aimed(ps, e);
  }

  lemma ChangedOldNamed<T>(f: Pair<T> -> bool, a: seq<Named<T>>, b: seq<Named<T>>)
    requires Tidy(a)
    ensures forall p :: p in ChangedOf(f, a, b) ==> p.before.name.Some?
  {
    hide ChangedOf, CodesOnce, Both;
    forall p | p in ChangedOf(f, a, b)
      ensures p.before.name.Some?
    {
      ChangedFacts(f, a, b, p);
      PairFacts(a, b, p);
    }
  }

  // No entry that goes out has the new name of a changed one, no entry that
  // comes in has the old name of a changed one, and no changed entry takes a
  // name that a later update aims at.
  ghost predicate UpdatesApart<T(!new)>(a: seq<Named<T>>, b: seq<Named<T>>, ps: seq<Pair<T>>) {
    && (forall g, p :: g in New(b, a) && p in ps ==> g.name != p.after.name)
    && (forall n, p :: n in New(a, b) && p in ps ==> n.name != p.before.name)
    && forall k :: 0 <= k < |ps| ==> NotAimedFrom(ps, k + 1, ps[k].after.name)
  }

  lemma AimedAtChanged<T(!new)>(f: Pair<T> -> bool, a: seq<Named<T>>, b: seq<Named<T>>, k: nat)
    requires Tidy(a) && Tidy(b) && k < |ChangedOf(f, a, b)| && UpdatesApart(a, b, ChangedOf(f, a, b))
    ensures Aimed(ChangedOf(f, a, b), ChangedOf(f, a, b)[k].before) == ChangedOf(f, a, b)[k].after
  {
    hide Tidy, ChangedOf, Both, New, NamesApart;
    ChangedApart(f, a, b);
    AimedStep(ChangedOf(f, a, b), k, |ChangedOf(f, a, b)|);
    assert ChangedOf(f, a, b)[..|ChangedOf(f, a, b)|] == ChangedOf(f, a, b);
  }

  lemma {:induction false} AimedStep<T>(ps: seq<Pair<T>>, k: nat, n: nat)
    requires NamesApart(ps) && k < |ps| && n <= |ps| && NotAimedFrom(ps, k + 1, ps[k].after.name)
    ensures Aimed(ps[..n], ps[k].before) == if n <= k then ps[k].before else ps[k].after
    decreases n
  {
    if n > 0 {
      AimedStep(ps, k, n - 1);
      assert ps[..n][..n - 1] == ps[..n - 1];
    }
  }

  lemma UnaimedOld<T>(f: Pair<T> -> bool, a: seq<Named<T>>, b: seq<Named<T>>, e: Named<T>)
    requires Tidy(a) && e in a && forall p :: p in ChangedOf(f, a, b) ==> p.before != e
    ensures Aimed(ChangedOf(f, a, b), e) == e && NotAimedFrom(ChangedOf(f, a, b), 0, e.name)
  {
    hide Tidy, ChangedOf, Both, Aimed;
    var ps := ChangedOf(f, a, b);
    forall l | 0 <= l < |ps|
      ensures ps[l].before.name != e.name
    {
      ChangedFacts(f, a, b, ps[l]);
      PairFacts(a, b, ps[l]);
      if ps[l].before.name == e.name {
        SameName(a, ps[l].before, e);
      }
    }
    AimedIs(ps, e);
  }

  lemma UnaimedNew<T(!new)>(f: Pair<T> -> bool, a: seq<Named<T>>, b: seq<Named<T>>, n: Named<T>)
    requires UpdatesApart(a, b, ChangedOf(f, a, b)) && n in New(a, b)
    ensures Aimed(ChangedOf(f, a, b), n) == n
  {
    hide ChangedOf, Aimed, New;
    var ps := ChangedOf(f, a, b);
    forall l | 0 <= l < |ps|
      ensures ps[l].before.name != n.name
    {
      assert ps[l] in ps;
    }
    AimedIs(ps, n);
  }

  lemma AimedRight<T(!new)>(f: Pair<T> -> bool, a: seq<Named<T>>, b: seq<Named<T>>, z: Named<T>)
    requires Tidy(a) && Tidy(b) && forall x :: !f(Pair(x, x))
    requires UpdatesApart(a, b, ChangedOf(f, a, b))
    requires z in AimedAfter(a, b, ChangedOf(f, a, b)) && z.code != ""
    ensures Last(b, z.code).Some? && !f(Pair(z, Last(b, z.code).value))
  {
    hide Tidy, ChangedOf, Both, New, Aimed, Last, AimedAfter, UpdatesApart;
    var ps := ChangedOf(f, a, b);
    ChangedOldNamed(f, a, b);
    var e := AimedOrigin(a, b, ps, z);
    if e in New(a, b) {
      UnaimedNew(f, a, b, e);
      NewFacts(a, b, e);
    } else if exists p :: p in ps && p.before == e {
      var p :| p in ps && p.before == e;
      var k :| 0 <= k < |ps| && ps[k] == p;
      AimedAtChanged(f, a, b, k);
      ChangedFacts(f, a, b, p);
      PairFacts(a, b, p);
    } else {
      UnaimedOld(f, a, b, e);
      EntryCases(a, b, e);
      var q := Pair(e, if Last(b, e.code).Some? then Last(b, e.code).value else e);
      ChangedFacts(f, a, b, q);
    }
  }

  lemma AimedReaches<T(!new)>(f: Pair<T> -> bool, a: seq<Named<T>>, b: seq<Named<T>>, y: Named<T>)
    requires Tidy(a) && Tidy(b) && NoNameClash(a, b) && UpdatesApart(a, b, ChangedOf(f, a, b))
    requires y in b && y.code != ""
    ensures Last(AimedAfter(a, b, ChangedOf(f, a, b)), y.code).Some?
  {
    hide Tidy, ChangedOf, Both, New, Aimed, Last, AimedAfter, NotAimedFrom;
    var ps := ChangedOf(f, a, b);
    ChangedOldNamed(f, a, b);
    OwnLast(b, y);
    if Last(a, y.code).None? {
      NewMembers(a, b, y);
      UnaimedNew(f, a, b, y);
      AimedKeeps(a, b, ps, y);
      HasLast(AimedAfter(a, b, ps), y);
    } else {
      var q := Pair(Last(a, y.code).value, y);
      BothMembers(a, b, q);
      ChangedFacts(f, a, b, q);
      PairFacts(a, b, q);
      if q in ps {
        var k :| 0 <= k < |ps| && ps[k] == q;
        AimedAtChanged(f, a, b, k);
        AimedKeeps(a, b, ps, q.before);
        HasLast(AimedAfter(a, b, ps), y);
      } else {
        forall p | p in ps
          ensures p.before != q.before
        {
          ChangedFacts(f, a, b, p);
          PairFacts(a, b, p);
          if p.before == q.before {
            OnePair(a, b, p, q);
          }
        }
        UnaimedOld(f, a, b, q.before);
        StaysNamed(a, b, q);
        AimedKeeps(a, b, ps, q.before);
        HasLast(AimedAfter(a, b, ps), q.before);
      }
    }
  }

  // The converse, entry by entry: the new entry of a changed pair is in the
  // result, and so is an entry that comes in.
  lemma ChangedIsThere<T(!new)>(f: Pair<T> -> bool, a: seq<Named<T>>, b: seq<Named<T>>, p: Pair<T>) returns (e: Named<T>)
    requires Tidy(a) && Tidy(b) && (forall x :: !f(Pair(x, x)))
    requires p in ChangedOf(f, a, b) && EachMeets(f, AimedAfter(a, b, ChangedOf(f, a, b)), b)
    ensures Aimed(ChangedOf(f, a, b), e) == p.after && !NotAimedFrom(ChangedOf(f, a, b), 0, e.name)
    ensures forall g :: g in New(b, a) ==> p.after.name != g.name
  {
    hide Tidy, ChangedOf, Both, New, Aimed, Last, AimedAfter, NotAimedFrom;
    var ps := ChangedOf(f, a, b);
    ChangedFacts(f, a, b, p);
    PairFacts(a, b, p);
    ChangedOldNamed(f, a, b);
    var z := Last(AimedAfter(a, b, ps), p.after.code).value;
    e := AimedOrigin(a, b, ps, z);
    AimedIs(ps, e);
    if NotAimedFrom(ps, 0, e.name) {
      if e in New(a, b) {
        NewFacts(a, b, e);
      } else {
        OwnLast(a, e);
      }
      assert false;
    }
    var k :| 0 <= k < |ps| && z == ps[k].after;
    ChangedFacts(f, a, b, ps[k]);
    PairFacts(a, b, ps[k]);
    OnePair(a, b, p, ps[k]);
  }

  lemma NewIsThere<T(!new)>(f: Pair<T> -> bool, a: seq<Named<T>>, b: seq<Named<T>>, n: Named<T>)
    requires Tidy(a) && Tidy(b) && n in New(a, b) && EachMeets(f, AimedAfter(a, b, ChangedOf(f, a, b)), b)
    ensures NotAimedFrom(ChangedOf(f, a, b), 0, n.name)
    ensures forall g :: g in New(b, a) ==> n.name != g.name
  {
    hide Tidy, ChangedOf, Both, New, Aimed, Last, AimedAfter, NotAimedFrom;
    var ps := ChangedOf(f, a, b);
    NewFacts(a, b, n);
    ChangedOldNamed(f, a, b);
    var z := Last(AimedAfter(a, b, ps), n.code).value;
    var e := AimedOrigin(a, b, ps, z);
    AimedIs(ps, e);
    if !NotAimedFrom(ps, 0, e.name) {
      var k :| 0 <= k < |ps| && z == ps[k].after;
      ChangedFacts(f, a, b, ps[k]);
      PairFacts(a, b, ps[k]);
      assert false;
    }
    if e in New(a, b) {
      NewFacts(a, b, e);
    } else {
      HasLast(a, e);
      assert false;
    }
  }

  lemma SameIndex<T>(ps: seq<Pair<T>>, j: nat, k: nat)
    requires DistinctCodes(ps) && j < |ps| && k < |ps| && ps[j].after == ps[k].after
    ensures j == k
  {
  }

  lemma UpdatesApartNeeded<T(!new)>(f: Pair<T> -> bool, a: seq<Named<T>>, b: seq<Named<T>>)
    requires Tidy(a) && Tidy(b) && (forall x :: !f(Pair(x, x)))
    requires EachMeets(f, AimedAfter(a, b, ChangedOf(f, a, b)), b)
    ensures NoNameClash(a, b) && UpdatesApart(a, b, ChangedOf(f, a, b))
  {
    hide Tidy, ChangedOf, Both, New, Aimed, Last, AimedAfter, EachMeets;
    var ps := ChangedOf(f, a, b);
    forall n | n in New(a, b)
      ensures forall g :: g in New(b, a) ==> n.name != g.name
      ensures forall p :: p in ps ==> n.name != p.before.name
    {
      NewIsThere(f, a, b, n);
      forall p | p in ps
        ensures n.name != p.before.name
      {
        var k :| 0 <= k < |ps| && ps[k] == p;
      }
    }
    forall p | p in ps
      ensures forall g :: g in New(b, a) ==> g.name != p.after.name
    {
      var e := ChangedIsThere(f, a, b, p);
    }
    forall k | 0 <= k < |ps|
      ensures NotAimedFrom(ps, k + 1, ps[k].after.name)
    {
      assert ps[k] in ps;
      var e := ChangedIsThere(f, a, b, ps[k]);
      AimedIs(ps, e);
      var j :| 0 <= j < |ps| && ps[j].after == ps[k].after && NotAimedFrom(ps, j + 1, ps[j].after.name);
      ChangedApart(f, a, b);
      SameIndex(ps, j, k);
    }
  }

  // A level whose updates aim at the old names: patching the old entries meets
  // the new ones exactly when no name of an entry that goes out comes in or is
  // taken by a changed entry, no entry that comes in has a name that an update
  // aims at, and no changed entry takes a name that a later update aims at.
  lemma AimedConvergesExactly<T(!new)>(f: Pair<T> -> bool, a: seq<Named<T>>, b: seq<Named<T>>)
    requires Tidy(a) && Tidy(b) && forall x :: !f(Pair(x, x))
    ensures Meets(f, AimedAfter(a, b, ChangedOf(f, a, b)), b) <==> NoNameClash(a, b) && UpdatesApart(a, b, ChangedOf(f, a, b))
  {
    hide Tidy, ChangedOf, Both, New, Last, AimedAfter, Meets, NoNameClash, UpdatesApart;
    var ps := ChangedOf(f, a, b);
    var r := AimedAfter(a, b, ps);
    MeetsIsEach(f, r, b);
    if NoNameClash(a, b) && UpdatesApart(a, b, ps) {
      forall c | c != ""
        ensures Last(r, c).Some? <==> Last(b, c).Some?
        ensures Last(r, c).Some? && Last(b, c).Some? ==> !f(Pair(Last(r, c).value, Last(b, c).value))
      {
        if Last(b, c).Some? {
          AimedReaches(f, a, b, Last(b, c).value);
        }
        if Last(r, c).Some? {
          AimedRight(f, a, b, Last(r, c).value);
        }
      }
    }
    if EachMeets(f, r, b) {
      UpdatesApartNeeded(f, a, b);
    }
  }

  // The fields of one model.
  lemma FieldsConvergeExactly(a: seq<Field>, b: seq<Field>)
    requires Tidy(a) && Tidy(b)
    ensures DiffFields(RunAll(a, FieldOps(DiffFields(a, b))), b) == NO_FIELD_CHANGES
            <==> NoNameClash(a, b) && UpdatesApart(a, b, ChangedOf(FieldsDiffer, a, b))
  {
    hide Tidy, RunAll, NoNameClash, UpdatesApart, New, Both, Filter, Adds, Puts;
    var r := AimedAfter(a, b, ChangedOf(FieldsDiffer, a, b));
    RemovalNames(New(b, a));
    assert r == RunAll(a, FieldOps(DiffFields(a, b)));
    AimedConvergesExactly(FieldsDiffer, a, b);
  }

  // ----- models: field updates that aim at the new model name -----

  ghost predicate AfterNamesApart<T>(ps: seq<Pair<T>>) {
    && (forall p :: p in ps ==> p.after.name.Some?)
    && forall i, j :: 0 <= i < j < |ps| ==> ps[i].after.name != ps[j].after.name
  }

  function Patched(m: Model, p: Pair<ModelBody>): Model {
    m.(body := m.body.(fields := RunAll(m.body.fields, FieldOps(DiffFields(p.before.body.fields, p.after.body.fields)))))
  }

  // A model gets the field updates of the pair whose new name it has.
  lemma {:induction false} EditedByCarrier(m: Model, ps: seq<Pair<ModelBody>>)
    requires AfterNamesApart(ps)
    ensures var r := EditedByAll(m, ModelItems(ps));
            && (forall p :: p in ps && p.after.name == m.name ==> r == Patched(m, p))
            && ((forall p :: p in ps ==> p.after.name != m.name) ==> r == m)
    decreases |ps|
  {
    hide DiffFields, FieldOps, RunAll, EditedByAll, ModelItems;
    ModelItemsSnoc(ps);
    if ps == [] {
      EditedByNothing(m);
    } else {
      var n := |ps| - 1;
      var p := ps[n];
      assert ps == ps[..n] + [p];
      assert p in ps;
      EditedByCarrier(m, ps[..n]);
      var items := ModelItems(ps[..n]);
      EditedKeepsTag(m, items);
      EditedBySnoc(m, items, ModelItem(p.after.NameOrEmpty(), p.after.code, DiffFields(p.before.body.fields, p.after.body.fields)));
      NoFieldOps(m.body.fields);
      if p.after.name == m.name {
        forall q | q in ps[..n]
          ensures q.after.name != m.name
        {
          var i :| 0 <= i < n && ps[..n][i] == q;
          assert ps[i].after.name != ps[n].after.name;
        }
      }
    }
  }

  lemma BothApart<T>(a: seq<Named<T>>, b: seq<Named<T>>)
    requires Tidy(b)
    ensures AfterNamesApart(Both(a, b))
  {
    hide Tidy, Both, Last;
    var ps := Both(a, b);
    BothDistinct(a, b);
    forall p | p in ps
      ensures p.after.name.Some?
    {
      PairFacts(a, b, p);
      TidyNamed(b, p.after);
    }
    forall i, j | 0 <= i < j < |ps|
      ensures ps[i].after.name != ps[j].after.name
    {
      PairFacts(a, b, ps[i]);
      PairFacts(a, b, ps[j]);
      if ps[i].after.name == ps[j].after.name {
        SameName(b, ps[i].after, ps[j].after);
      }
    }
  }

  lemma TidyNamed<T>(s: seq<Named<T>>, x: Named<T>)
    requires Tidy(s) && x in s
    ensures x.name.Some?
  {
  }

  // What the patch makes of a common model compares as unchanged. Which field
  // updates it gets depends on whose new name it has.
  ghost predicate ModelMeets(a: seq<Model>, b: seq<Model>, p: Pair<ModelBody>) {
    && (forall q :: q in Both(a, b) && q.after.name == p.before.name ==>
          DiffFields(Patched(p.before, q).body.fields, p.after.body.fields) == NO_FIELD_CHANGES)
    && ((forall q :: q in Both(a, b) ==> q.after.name != p.before.name) ==>
          DiffFields(p.before.body.fields, p.after.body.fields) == NO_FIELD_CHANGES)
  }

  // The model that stands for a code in the result.
  lemma ModelsOrigin(a: seq<Model>, b: seq<Model>, z: Model) returns (e: Model)
    requires Tidy(a) && z in ModelsAfter(a, b)
    ensures (e in a || e in New(a, b)) && z == EditedByAll(e, ModelItems(Both(a, b)))
    ensures z.name == e.name && z.code == e.code
    ensures forall g :: g in New(b, a) ==> e.name != g.name
  {
    hide RunAll, Both, New, RemoveOps, NamesOf, EditedByAll, ModelItems, CodesOnce;
    var s := a + New(a, b);
    var items := ModelItems(Both(a, b));
    GoneNamed(a, b);
    AfterRemovals(Edited(s, items), New(b, a), z);
    var i :| 0 <= i < |s| && Edited(s, items)[i] == z;
    e := s[i];
    EditedKeepsTag(e, items);
  }

  lemma ModelsKeep(a: seq<Model>, b: seq<Model>, e: Model)
    requires Tidy(a) && (e in a || e in New(a, b))
    requires forall g :: g in New(b, a) ==> e.name != g.name
    ensures EditedByAll(e, ModelItems(Both(a, b))) in ModelsAfter(a, b)
  {
    hide RunAll, Both, New, RemoveOps, NamesOf, EditedByAll, ModelItems, CodesOnce;
    var s := a + New(a, b);
    var items := ModelItems(Both(a, b));
    GoneNamed(a, b);
    EditedKeepsTag(e, items);
    AfterRemovals(Edited(s, items), New(b, a), EditedByAll(e, items));
    assert e in s;
    var i :| 0 <= i < |s| && s[i] == e;
    assert Edited(s, items)[i] == EditedByAll(e, items);
  }

  // A model that comes in carries no update.
  lemma NewIsNotEdited(a: seq<Model>, b: seq<Model>, n: Model)
    requires Tidy(b) && n in New(a, b)
    ensures EditedByAll(n, ModelItems(Both(a, b))) == n
  {
    hide Tidy, Both, New, Last, EditedByAll, ModelItems;
    BothApart(a, b);
    EditedByCarrier(n, Both(a, b));
    NewFacts(a, b, n);
    forall p | p in Both(a, b)
      ensures p.after.name != n.name
    {
      PairFacts(a, b, p);
      if p.after.name == n.name {
        SameName(b, p.after, n);
      }
    }
  }

  // The result has at most one model of each code.
  lemma ModelOfCode(a: seq<Model>, b: seq<Model>, p: Pair<ModelBody>)
    requires Tidy(a) && Tidy(b) && p in Both(a, b)
    ensures Last(ModelsAfter(a, b), p.after.code) == Some(EditedByAll(p.before, ModelItems(Both(a, b))))
  {
    hide Tidy, Both, New, Last, EditedByAll, ModelItems, ModelsAfter;
    var items := ModelItems(Both(a, b));
    PairFacts(a, b, p);
    StaysNamed(a, b, p);
    ModelsKeep(a, b, p.before);
    EditedKeepsTag(p.before, items);
    HasLast(ModelsAfter(a, b), EditedByAll(p.before, items));
    var z := Last(ModelsAfter(a, b), p.after.code).value;
    var e := ModelsOrigin(a, b, z);
    if e in New(a, b) {
      NewFacts(a, b, e);
    } else {
      OwnLast(a, e);
    }
  }

  lemma ModelMeetsIs(a: seq<Model>, b: seq<Model>, p: Pair<ModelBody>)
    requires Tidy(a) && Tidy(b) && p in Both(a, b)
    ensures ModelMeets(a, b, p) <==>
            DiffFields(EditedByAll(p.before, ModelItems(Both(a, b))).body.fields, p.after.body.fields) == NO_FIELD_CHANGES
  {
    hide Tidy, Both, EditedByAll, ModelItems, DiffFields, Patched;
    BothApart(a, b);
    EditedByCarrier(p.before, Both(a, b));
  }

  lemma {:induction false} ModelItemsNone(ps: seq<Pair<ModelBody>>)
    ensures ModelItems(ps) == []
            <==> forall p :: p in ps ==> DiffFields(p.before.body.fields, p.after.body.fields) == NO_FIELD_CHANGES
    decreases |ps|
  {
    hide DiffFields, ModelItems;
    ModelItemsSnoc(ps);
    if ps != [] {
      ModelItemsNone(ps[..|ps| - 1]);
      assert ps == ps[..|ps| - 1] + [ps[|ps| - 1]];
      assert ps[|ps| - 1] in ps;
    }
  }

  ghost predicate ModelsMeet(r: seq<Model>, b: seq<Model>) {
    New(r, b) == [] && New(b, r) == [] && ModelItems(Both(r, b)) == []
  }

  predicate FieldsChanged(p: Pair<ModelBody>) {
    DiffFields(p.before.body.fields, p.after.body.fields) != NO_FIELD_CHANGES
  }

  lemma ModelsMeetIs(r: seq<Model>, b: seq<Model>)
    ensures ModelsMeet(r, b) <==> EachMeets(FieldsChanged, r, b)
  {
    hide New, Both, ModelItems, EachMeets, DiffFields, Filter;
    ModelItemsNone(Both(r, b));
    MeetsIsEach(FieldsChanged, r, b);
    forall q | q in Both(r, b)
      ensures q in Filter(FieldsChanged, Both(r, b)) <==> FieldsChanged(q)
    {
      FilterMembers(FieldsChanged, Both(r, b), q);
    }
    if forall q :: q in Both(r, b) ==> !FieldsChanged(q) {
      NothingLeft(FieldsChanged, Both(r, b));
    }
  }

  // The models of a patched configuration meet the new ones exactly when no
  // model that goes out has the name of one that comes in, and every common
  // model meets its new form under the field updates that reach it.
  lemma ModelsConvergeExactly(a: seq<Model>, b: seq<Model>)
    requires Tidy(a) && Tidy(b)
    ensures ModelsMeet(ModelsAfter(a, b), b)
            <==> NoNameClash(a, b) && forall p :: p in Both(a, b) ==> ModelMeets(a, b, p)
  {
    hide Tidy, Both, New, Last, EditedByAll, ModelItems, ModelsAfter, ModelsMeet, ModelMeets, EachMeets, FieldsChanged, NoNameClash;
    ModelsMeetIs(ModelsAfter(a, b), b);
    if NoNameClash(a, b) && forall p :: p in Both(a, b) ==> ModelMeets(a, b, p) {
      ModelsIf(a, b);
    }
    if EachMeets(FieldsChanged, ModelsAfter(a, b), b) {
      ModelsOnlyIf(a, b);
    }
  }

  lemma ModelsIf(a: seq<Model>, b: seq<Model>)
    requires Tidy(a) && Tidy(b) && NoNameClash(a, b) && forall p :: p in Both(a, b) ==> ModelMeets(a, b, p)
    ensures EachMeets(FieldsChanged, ModelsAfter(a, b), b)
  {
    hide Tidy, Both, New, Last, EditedByAll, ModelItems, ModelsAfter, ModelMeets, DiffFields;
    var r := ModelsAfter(a, b);
    forall c | c != ""
      ensures Last(r, c).Some? <==> Last(b, c).Some?
      ensures Last(r, c).Some? && Last(b, c).Some? ==> !FieldsChanged(Pair(Last(r, c).value, Last(b, c).value))
    {
      if Last(b, c).Some? {
        ModelReached(a, b, Last(b, c).value);
      }
      if Last(r, c).Some? && Last(b, c).None? {
        var e := ModelsOrigin(a, b, Last(r, c).value);
        if e in New(a, b) {
          NewFacts(a, b, e);
        } else {
          EntryCases(a, b, e);
        }
        assert false;
      }
    }
  }

  lemma ModelReached(a: seq<Model>, b: seq<Model>, y: Model)
    requires Tidy(a) && Tidy(b) && NoNameClash(a, b) && (forall p :: p in Both(a, b) ==> ModelMeets(a, b, p))
    requires y.code != "" && Last(b, y.code) == Some(y)
    ensures var r := Last(ModelsAfter(a, b), y.code); r.Some? && !FieldsChanged(Pair(r.value, y))
  {
    hide Tidy, Both, New, Last, EditedByAll, ModelItems, ModelsAfter, ModelMeets, DiffFields;
    var r := ModelsAfter(a, b);
    if Last(a, y.code).None? {
      NewMembers(a, b, y);
      NewIsNotEdited(a, b, y);
      ModelsKeep(a, b, y);
      HasLast(r, y);
      var z := Last(r, y.code).value;
      var e := ModelsOrigin(a, b, z);
      if e in New(a, b) {
        NewFacts(a, b, e);
        NewIsNotEdited(a, b, e);
      } else {
        HasLast(a, e);
      }
      FieldsSame(y.body.fields);
    } else {
      var p := Pair(Last(a, y.code).value, y);
      BothMembers(a, b, p);
      ModelOfCode(a, b, p);
      ModelMeetsIs(a, b, p);
    }
  }

  lemma ModelsOnlyIf(a: seq<Model>, b: seq<Model>)
    requires Tidy(a) && Tidy(b) && EachMeets(FieldsChanged, ModelsAfter(a, b), b)
    ensures NoNameClash(a, b) && forall p :: p in Both(a, b) ==> ModelMeets(a, b, p)
  {
    hide Tidy, Both, New, Last, EditedByAll, ModelItems, ModelsAfter, ModelMeets, DiffFields;
    var r := ModelsAfter(a, b);
    forall g, n | g in New(b, a) && n in New(a, b)
      ensures g.name != n.name
    {
      NewFacts(a, b, n);
      var e := ModelsOrigin(a, b, Last(r, n.code).value);
      if e in New(a, b) {
        NewFacts(a, b, e);
      } else {
        HasLast(a, e);
      }
    }
    forall p | p in Both(a, b)
      ensures ModelMeets(a, b, p)
    {
      PairFacts(a, b, p);
      ModelOfCode(a, b, p);
      ModelMeetsIs(a, b, p);
      assert !FieldsChanged(Pair(Last(r, p.after.code).value, p.after));
    }
  }

  // No old model has the new name of another common model.
  ghost predicate NamesStay(a: seq<Model>, b: seq<Model>) {
    forall p, q :: p in Both(a, b) && q in Both(a, b) && p.before.name == q.after.name ==> p == q
  }

  // Where names do not move between models, this says: every model whose
  // fields change keeps its name, and its fields meet the condition for fields.
  lemma ModelsKeepTheirNames(a: seq<Model>, b: seq<Model>)
    requires Tidy(a) && Tidy(b) && NamesStay(a, b)
    requires forall p :: p in Both(a, b) ==> Tidy(p.before.body.fields) && Tidy(p.after.body.fields)
    ensures ModelsMeet(ModelsAfter(a, b), b)
            <==> NoNameClash(a, b)
                 && forall p :: p in Both(a, b) && FieldsChanged(p) ==> p.before.name == p.after.name && FieldsApart(p)
  {
    hide Tidy, Both, New, ModelsAfter, ModelsMeet, ModelMeets, FieldsChanged, NoNameClash, FieldsApart, NamesStay;
    ModelsConvergeExactly(a, b);
    forall p | p in Both(a, b)
      ensures ModelMeets(a, b, p) <==> (FieldsChanged(p) ==> p.before.name == p.after.name && FieldsApart(p))
    {
      ModelMeetsSimply(a, b, p);
    }
  }

  ghost predicate FieldsApart(p: Pair<ModelBody>) {
    var s, t := p.before.body.fields, p.after.body.fields;
    NoNameClash(s, t) && UpdatesApart(s, t, ChangedOf(FieldsDiffer, s, t))
  }

  lemma ModelMeetsSimply(a: seq<Model>, b: seq<Model>, p: Pair<ModelBody>)
    requires p in Both(a, b) && NamesStay(a, b) && Tidy(p.before.body.fields) && Tidy(p.after.body.fields)
    ensures ModelMeets(a, b, p) <==> (FieldsChanged(p) ==> p.before.name == p.after.name && FieldsApart(p))
  {
    hide Tidy, Both, DiffFields, FieldOps, RunAll, UpdatesApart, NoNameClash;
    FieldsConvergeExactly(p.before.body.fields, p.after.body.fields);
    NoFieldOps(p.before.body.fields);
    if p.before.name == p.after.name {
      assert forall q :: q in Both(a, b) && q.after.name == p.before.name ==> q == p;
    } else {
      assert forall q :: q in Both(a, b) ==> q.after.name != p.before.name;
    }
  }

  // ----- models that take over each other's names -----

  // The entries of `s` under the operations of another level, from `u` to `v`.
  // The names of coded entries agree with their codes, and no entry of `s`
  // without a code has a name of `v`.
  ghost predicate TagsFit<T>(s: seq<Named<T>>, u: seq<Named<T>>, v: seq<Named<T>>) {
    && Agree(Tags(s) + Tags(u) + Tags(v))
    && forall x, y :: x in s && x.code == "" && y in v ==> x.name != y.name
  }

  // What then stands for a code: a new entry is added, a lost one removed, a
  // changed one overwritten where there is one, and another one is left alone.
  ghost function StandsFor<T>(f: Pair<T> -> bool, s: seq<Named<T>>, u: seq<Named<T>>, v: seq<Named<T>>, c: string): Option<Named<T>> {
    match (Last(u, c), Last(v, c))
    case (None, Some(n)) => Some(n)
    case (Some(o), None) => None
    case (Some(o), Some(n)) => if f(Pair(o, n)) && Last(s, c).Some? then Some(n) else Last(s, c)
    case (None, None) => Last(s, c)
  }

  // Code by code, that is what there is to be.
  ghost predicate Fits<T(!new)>(f: Pair<T> -> bool, s: seq<Named<T>>, u: seq<Named<T>>, v: seq<Named<T>>, t: seq<Named<T>>) {
    forall c :: c != "" ==>
      match (StandsFor(f, s, u, v, c), Last(t, c))
      case (None, None) => true
      case (Some(x), Some(y)) => !f(Pair(x, y))
      case _ => false
  }

  // An update of a code that no entry has changes nothing.
  lemma {:induction false} PutAbsent<T>(w: set<Tag>, s: seq<Named<T>>, e: Named<T>)
    requires Agree(w) && Tags(s) <= w && e.code != "" && Tag(e.name, e.code) in w
    requires Last(s, e.code).None? && forall x :: x in s && x.code == "" ==> x.name != e.name
    ensures Replace(s, e.NameOrEmpty(), e) == s
  {
    hide Agree, Last, Replace;
    SameNameSameCode(w, Tag(e.name, e.code), Tag(e.name, e.code));
    LastNone(s, e.code);
    ReplaceAt(s, e.NameOrEmpty(), e);
    forall i | 0 <= i < |s|
      ensures Replace(s, e.NameOrEmpty(), e)[i] == s[i]
    {
      assert s[i] in s;
      if s[i].code != "" {
        SameNameSameCode(w, Tag(s[i].name, s[i].code), Tag(e.name, e.code));
      }
    }
  }

  lemma {:induction false} PutsElsewhere<T>(w: set<Tag>, s: seq<Named<T>>, ps: seq<Pair<T>>, v: seq<Named<T>>, c: string)
    requires Agree(w) && Tags(s) <= w && c != ""
    requires forall p :: p in ps ==> p.after.code != "" && Tag(p.after.name, p.after.code) in w
                                     && Last(v, p.after.code) == Some(p.after)
    requires forall x, p :: x in s && x.code == "" && p in ps ==> x.name != p.after.name
    ensures var r := RunAll(s, PutsAfter(ps));
            && Last(r, c) == (if HasCode(ps, c) && Last(s, c).Some? then Last(v, c) else Last(s, c))
            && Tags(r) <= w && forall x :: x in r && x.code == "" ==> x in s
    decreases |ps|
  {
    hide Last, Tags, Agree, Replace;
    if ps != [] {
      var n := |ps| - 1;
      var p := ps[n];
      assert ps == ps[..n] + [p];
      PutsElsewhere(w, s, ps[..n], v, c);
      PutsElsewhere(w, s, ps[..n], v, p.after.code);
      var r := RunAll(s, PutsAfter(ps[..n]));
      PutEffect(w, r, p.after, c);
      ReplaceAt(r, p.after.NameOrEmpty(), p.after);
      if Last(r, p.after.code).None? {
        PutAbsent(w, r, p.after);
      }
      assert PutsAfter(ps)[..n] == PutsAfter(ps[..n]);
      assert RunAll(s, PutsAfter(ps)) == Replace(r, p.after.NameOrEmpty(), p.after);
    }
  }

  lemma ElsewhereEffect<T>(f: Pair<T> -> bool, s: seq<Named<T>>, u: seq<Named<T>>, v: seq<Named<T>>, c: string)
    requires TagsFit(s, u, v) && c != ""
    ensures var r := RunAll(s, Adds(New(u, v)) + PutsAfter(ChangedOf(f, u, v)) + RemoveOps(NamesOf(New(v, u))));
            Last(r, c) == StandsFor(f, s, u, v, c)
  {
    hide Last, Tags, Agree, New, Both, RunAll, Adds, PutsAfter, RemoveOps, NamesOf, ChangedOf;
    var w := Tags(s) + Tags(u) + Tags(v);
    var ps, gone := ChangedOf(f, u, v), New(v, u);
    var s1 := s + New(u, v);
    RunAdds(s, New(u, v));
    forall x | x in New(u, v)
      ensures x in v && x.code != ""
    {
      NewMembers(u, v, x);
    }
    TagsAppend(s, New(u, v), v);
    forall k
      ensures Last(s1, k) == if k != "" && Last(u, k).None? && Last(v, k).Some? then Last(v, k) else Last(s, k)
    {
      LastAppend(s, New(u, v), k);
      LastOfNew(u, v, k);
    }
    forall p | p in ps
      ensures p.after.code != "" && Tag(p.after.name, p.after.code) in w && p.after in v && Last(v, p.after.code) == Some(p.after)
      ensures Last(u, p.after.code) == Some(p.before) && f(p)
    {
      ChangedFacts(f, u, v, p);
      PairFacts(u, v, p);
      TagOf(v, p.after);
    }
    PutsElsewhere(w, s1, ps, v, c);
    forall g | g in gone
      ensures g.code != "" && Tag(g.name, g.code) in w
    {
      NewMembers(v, u, g);
      TagOf(u, g);
    }
    RunRemoves(w, RunAll(s1, PutsAfter(ps)), gone, c);
    RunAllAppend(s, Adds(New(u, v)), PutsAfter(ps));
    RunAllAppend(s, Adds(New(u, v)) + PutsAfter(ps), RemoveOps(NamesOf(gone)));
    GoneCodes(u, v, c);
    ChangedCode(f, u, v, c);
  }

  lemma ChangedCode<T>(f: Pair<T> -> bool, u: seq<Named<T>>, v: seq<Named<T>>, c: string)
    requires c != ""
    ensures HasCode(ChangedOf(f, u, v), c) <==>
            Last(u, c).Some? && Last(v, c).Some? && f(Pair(Last(u, c).value, Last(v, c).value))
  {
    hide Last, Both, ChangedOf;
    var ps := ChangedOf(f, u, v);
    forall p | p in ps && p.after.code == c
      ensures Last(u, c) == Some(p.before) && Last(v, c) == Some(p.after) && f(p)
    {
      ChangedFacts(f, u, v, p);
      PairFacts(u, v, p);
    }
    if Last(u, c).Some? && Last(v, c).Some? {
      var p := Pair(Last(u, c).value, Last(v, c).value);
      BothMembers(u, v, p);
      ChangedFacts(f, u, v, p);
    }
  }

  // The fields `s` of a model under the updates of another one, from `u` to
  // `v`, meet the fields `t` exactly when they fit code by code.
  lemma TakenOverExactly(s: seq<Field>, u: seq<Field>, v: seq<Field>, t: seq<Field>)
    requires TagsFit(s, u, v)
    ensures DiffFields(RunAll(s, FieldOps(DiffFields(u, v))), t) == NO_FIELD_CHANGES <==> Fits(FieldsDiffer, s, u, v, t)
  {
    hide Last, New, Both, RunAll, Filter, Adds, PutsAfter, RemoveOps, NamesOf, Tags, StandsFor, TagsFit, Agree;
    var r := RunAll(s, FieldOps(DiffFields(u, v)));
    TagsOfTwo(s, u, v);
    FieldOpsAreLevelOps(u, v);
    MeetsIsEach(FieldsDiffer, r, t);
    forall c | c != ""
      ensures Last(r, c) == StandsFor(FieldsDiffer, s, u, v, c)
    {
      ElsewhereEffect(FieldsDiffer, s, u, v, c);
    }
    MeetsFits(s, u, v, t, r);
  }

  lemma TagsOfTwo<T>(s: seq<Named<T>>, u: seq<Named<T>>, v: seq<Named<T>>)
    requires TagsFit(s, u, v)
    ensures Agree(Tags(u) + Tags(v))
  {
    hide Tags;
  }

  lemma MeetsFits(s: seq<Field>, u: seq<Field>, v: seq<Field>, t: seq<Field>, r: seq<Field>)
    requires forall c :: c != "" ==> Last(r, c) == StandsFor(FieldsDiffer, s, u, v, c)
    ensures EachMeets(FieldsDiffer, r, t) <==> Fits(FieldsDiffer, s, u, v, t)
  {
    hide Last, StandsFor, FieldsDiffer;
  }

  // The updates that reach a common model are those of the pair whose new name
  // it has; its own fields agree in names and codes with the fields of both.
  ghost predicate FieldTagsFit(a: seq<Model>, b: seq<Model>) {
    forall p, q :: p in Both(a, b) && q in Both(a, b) && q.after.name == p.before.name ==>
      TagsFit(p.before.body.fields, q.before.body.fields, q.after.body.fields)
  }

  // What reaches a common model fits, code by code.
  ghost predicate ModelFits(a: seq<Model>, b: seq<Model>, p: Pair<ModelBody>) {
    && (forall q :: q in Both(a, b) && q.after.name == p.before.name ==>
          Fits(FieldsDiffer, p.before.body.fields, q.before.body.fields, q.after.body.fields, p.after.body.fields))
    && ((forall q :: q in Both(a, b) ==> q.after.name != p.before.name) ==> !FieldsChanged(p))
  }

  lemma ModelMeetsByCodes(a: seq<Model>, b: seq<Model>, p: Pair<ModelBody>)
    requires p in Both(a, b) && FieldTagsFit(a, b)
    ensures ModelMeets(a, b, p) <==> ModelFits(a, b, p)
  {
    hide Both, DiffFields, FieldOps, RunAll, TagsFit, Fits;
    forall q | q in Both(a, b) && q.after.name == p.before.name
      ensures DiffFields(Patched(p.before, q).body.fields, p.after.body.fields) == NO_FIELD_CHANGES <==>
              Fits(FieldsDiffer, p.before.body.fields, q.before.body.fields, q.after.body.fields, p.after.body.fields)
    {
      TakenOverExactly(p.before.body.fields, q.before.body.fields, q.after.body.fields, p.after.body.fields);
    }
  }

  // Models that may take over each other's names: the patch converges exactly
  // when no name goes out and comes in, and the updates that reach each common
  // model fit, code by code, its own old and new fields.
  lemma ModelsConvergeByCodes(a: seq<Model>, b: seq<Model>)
    requires Tidy(a) && Tidy(b) && FieldTagsFit(a, b)
    ensures ModelsMeet(ModelsAfter(a, b), b)
            <==> NoNameClash(a, b) && forall p :: p in Both(a, b) ==> ModelFits(a, b, p)
  {
    hide Tidy, Both, New, ModelsAfter, ModelsMeet, ModelMeets, ModelFits, NoNameClash, FieldTagsFit;
    ModelsConvergeExactly(a, b);
    forall p | p in Both(a, b)
      ensures ModelMeets(a, b, p) <==> ModelFits(a, b, p)
    {
      ModelMeetsByCodes(a, b, p);
    }
  }

  // So a field that one model gains goes to the model whose old name it takes,
  // and the patch fails when that one is not to have it.
  lemma GainGoesToTheNamesake(a: seq<Model>, b: seq<Model>, p: Pair<ModelBody>, q: Pair<ModelBody>, c: string)
    requires Tidy(a) && Tidy(b) && FieldTagsFit(a, b)
    requires p in Both(a, b) && q in Both(a, b) && q.after.name == p.before.name
    requires c != "" && Last(q.before.body.fields, c).None? && Last(q.after.body.fields, c).Some?
    requires Last(p.after.body.fields, c).None?
    ensures !ModelsMeet(ModelsAfter(a, b), b)
  {
    hide Tidy, Both, ModelsAfter, ModelsMeet, FieldTagsFit, NoNameClash, Last;
    ModelsConvergeByCodes(a, b);
    assert StandsFor(FieldsDiffer, p.before.body.fields, q.before.body.fields, q.after.body.fields, c).Some?;
    assert !ModelFits(a, b, p);
  }

  // ----- the whole patch -----

  lemma RolesConvergeExactly<T(!new)>(a: seq<Named<T>>, b: seq<Named<T>>)
    requires Tidy(a) && Tidy(b)
    ensures var r := RunAll(a, Adds(New(a, b)) + RemoveOps(NamesOf(New(b, a))));
            New(r, b) == [] && New(b, r) == [] <==> NoNameClash(a, b)
  {
    hide New, RunAll, Last, RemoveOps, NamesOf, CodesOnce;
    AddRemoveConvergesExactly(a, b);
    forall g, x | g in New(b, a) && x in a && x.code != "" && Last(b, x.code).Some?
      ensures x.name != g.name
    {
      NewFacts(b, a, g);
      if x.name == g.name {
        SameName(a, x, g);
      }
    }
    forall n | n in New(a, b)
      ensures n.code != "" && Last(b, n.code).Some?
    {
      NewFacts(a, b, n);
    }
  }

  ghost predicate TidyConfig(c: Config) {
    Tidy(c.models) && Tidy(c.dicts) && Tidy(c.roles)
  }

  lemma EmptyDiffIs(r: Config, v2: Config)
    ensures SemanticDiff(r, v2) == EMPTY_DIFF
            <==> ModelsMeet(r.models, v2.models) && Meets(OptionsDiffer, r.dicts, v2.dicts)
                 && New(r.roles, v2.roles) == [] && New(v2.roles, r.roles) == []
  {
    hide New, Both, Filter, ModelItems;
  }

  // With names and codes distinct on each side, applying all the actions leaves
  // nothing to change exactly when, level by level, no entry that goes out has
  // the name of one that comes in, the dictionaries whose options change have
  // all together the same names before and after, and every common model meets
  // its new form under the field updates that reach it.
  lemma PatchConvergesExactly(v1: Config, v2: Config)
    requires TidyConfig(v1) && TidyConfig(v2)
    requires UncodedApart(v1.dicts, ChangedOf(OptionsDiffer, v1.dicts, v2.dicts))
    ensures var actions := AllSelected(OpsOf(SemanticDiff(v1, v2), v2));
            var changed := ChangedOf(OptionsDiffer, v1.dicts, v2.dicts);
            SemanticDiff(ApplyOps(v1, SelectedOps(actions)), v2) == EMPTY_DIFF
            <==> && NoNameClash(v1.models, v2.models) && NoNameClash(v1.dicts, v2.dicts) && NoNameClash(v1.roles, v2.roles)
                 && (forall p :: p in Both(v1.models, v2.models) ==> ModelMeets(v1.models, v2.models, p))
                 && OldNames(changed) == NewNames(changed)
  {
    hide New, Both, RunAll, Filter, ModelItems, ApplyOps, OpsOf, Tidy, ModelsAfter, Adds, RemoveOps, NamesOf, OptionsDiffer,
         SemanticDiff, ModelsMeet, Meets, NoNameClash, ModelMeets, OldNames, NewNames, UncodedApart;
    SelectedAll(OpsOf(SemanticDiff(v1, v2), v2));
    PatchEffect(v1, v2);
    var r := ApplyOps(v1, OpsOf(SemanticDiff(v1, v2), v2));
    EmptyDiffIs(r, v2);
    ModelsConvergeExactly(v1.models, v2.models);
    OptionsSame();
    LevelConvergesExactly(OptionsDiffer, v1.dicts, v2.dicts);
    RolesConvergeExactly(v1.roles, v2.roles);
  }

  // The same in terms of names alone, where no old model has the new name of
  // another one and names and codes of fields are distinct as well.
  lemma PatchConvergesByNames(v1: Config, v2: Config)
    requires TidyConfig(v1) && TidyConfig(v2) && NamesStay(v1.models, v2.models)
    requires UncodedApart(v1.dicts, ChangedOf(OptionsDiffer, v1.dicts, v2.dicts))
    requires forall p :: p in Both(v1.models, v2.models) ==> Tidy(p.before.body.fields) && Tidy(p.after.body.fields)
    ensures var actions := AllSelected(OpsOf(SemanticDiff(v1, v2), v2));
            var changed := ChangedOf(OptionsDiffer, v1.dicts, v2.dicts);
            SemanticDiff(ApplyOps(v1, SelectedOps(actions)), v2) == EMPTY_DIFF
            <==> && NoNameClash(v1.models, v2.models) && NoNameClash(v1.dicts, v2.dicts) && NoNameClash(v1.roles, v2.roles)
                 && (forall p :: p in Both(v1.models, v2.models) && FieldsChanged(p) ==>
                       p.before.name == p.after.name && FieldsApart(p))
                 && OldNames(changed) == NewNames(changed)
  {
    hide New, Both, ApplyOps, OpsOf, Tidy, SemanticDiff, ModelsAfter, ModelsMeet, ModelMeets, NoNameClash, NamesStay,
         FieldsChanged, FieldsApart, OldNames, NewNames, UncodedApart, ChangedOf;
    PatchConvergesExactly(v1, v2);
    ModelsConvergeExactly(v1.models, v2.models);
    ModelsKeepTheirNames(v1.models, v2.models);
  }

  // The same code by code, where models may take over each other's names.
  lemma PatchConvergesByCodes(v1: Config, v2: Config)
    requires TidyConfig(v1) && TidyConfig(v2) && FieldTagsFit(v1.models, v2.models)
    requires UncodedApart(v1.dicts, ChangedOf(OptionsDiffer, v1.dicts, v2.dicts))
    ensures var actions := AllSelected(OpsOf(SemanticDiff(v1, v2), v2));
            var changed := ChangedOf(OptionsDiffer, v1.dicts, v2.dicts);
            SemanticDiff(ApplyOps(v1, SelectedOps(actions)), v2) == EMPTY_DIFF
            <==> && NoNameClash(v1.models, v2.models) && NoNameClash(v1.dicts, v2.dicts) && NoNameClash(v1.roles, v2.roles)
                 && (forall p :: p in Both(v1.models, v2.models) ==> ModelFits(v1.models, v2.models, p))
                 && OldNames(changed) == NewNames(changed)
  {
    hide New, Both, ApplyOps, OpsOf, Tidy, SemanticDiff, ModelsAfter, ModelsMeet, ModelMeets, NoNameClash, FieldTagsFit,
         ModelFits, OldNames, NewNames, UncodedApart, ChangedOf;
    PatchConvergesExactly(v1, v2);
    ModelsConvergeExactly(v1.models, v2.models);
    ModelsConvergeByCodes(v1.models, v2.models);
  }

  // ----- inputs on which the patch fails -----

  lemma OneByOne<T>(x: Named<T>, y: Named<T>)
    requires x.name.Some? && x.name == y.name && x.code != y.code && x.code != "" && y.code != ""
    ensures Tidy([x]) && Tidy([y])
    ensures x in New([y], [x]) && y in New([x], [y])
    ensures forall e :: e in New([x], [y]) ==> e == y
  {
    hide New;
    OnlyLast(x, y.code);
    OnlyLast(y, x.code);
    NewMembers([y], [x], x);
    NewMembers([x], [y], y);
    forall e | e in New([x], [y])
      ensures e == y
    {
      NewFacts([x], [y], e);
    }
  }

  // A model that keeps its name and changes its code disappears: it is added
  // under the new code and then removed by name.
  lemma RecodedModelIsLost(x: Model, y: Model)
    requires x.name.Some? && x.name == y.name && x.code != y.code && x.code != "" && y.code != ""
    ensures ModelsAfter([x], [y]) == []
  {
    hide New, ModelsAfter, Tidy, EditedByAll;
    OneByOne(x, y);
    var r := ModelsAfter([x], [y]);
    if r != [] {
      var e := ModelsOrigin([x], [y], r[0]);
      assert false;
    }
  }

  // So does a dictionary, ...
  lemma RecodedDictIsLost(x: DictDef, y: DictDef)
    requires x.name.Some? && x.name == y.name && x.code != y.code && x.code != "" && y.code != ""
    ensures LevelAfter([x], [y], ChangedOf(OptionsDiffer, [x], [y])) == []
  {
    hide New, LevelAfter, Tidy, ChangedOf;
    OneByOne(x, y);
    var r := LevelAfter([x], [y], ChangedOf(OptionsDiffer, [x], [y]));
    ChangedNamed(OptionsDiffer, [x], [y]);
    if r != [] {
      var e := LevelOrigin([x], [y], ChangedOf(OptionsDiffer, [x], [y]), r[0]);
      assert false;
    }
  }

  // ... a field ...
  lemma RecodedFieldIsLost(x: Field, y: Field)
    requires x.name.Some? && x.name == y.name && x.code != y.code && x.code != "" && y.code != ""
    ensures RunAll([x], FieldOps(DiffFields([x], [y]))) == []
  {
    hide New, AimedAfter, Tidy, RunAll, Adds, Puts, Both, Last;
    OneByOne(x, y);
    var ps := ChangedOf(FieldsDiffer, [x], [y]);
    RemovalNames(New([y], [x]));
    var r := RunAll([x], FieldOps(DiffFields([x], [y])));
    assert r == AimedAfter([x], [y], ps) by { AimedAfterIs([x], [y]); }
    NoCommonEntry(x, y);
    ChangedOldNamed(FieldsDiffer, [x], [y]);
    if r != [] {
      var e := AimedOrigin([x], [y], ps, r[0]);
      AimedIs(ps, e);
      assert false;
    }
  }

  lemma AimedAfterIs(a: seq<Field>, b: seq<Field>)
    ensures RunAll(a, FieldOps(DiffFields(a, b))) == AimedAfter(a, b, ChangedOf(FieldsDiffer, a, b))
  {
    hide RunAll, New, Both, Filter, Adds, Puts;
    RemovalNames(New(b, a));
  }

  lemma NoCommonEntry(x: Field, y: Field)
    requires x.code != y.code
    ensures ChangedOf(FieldsDiffer, [x], [y]) == []
  {
    hide ChangedOf, Both;
    var ps := ChangedOf(FieldsDiffer, [x], [y]);
    if ps != [] {
      ChangedFacts(FieldsDiffer, [x], [y], ps[0]);
      PairFacts([x], [y], ps[0]);
    }
  }

  // ... and a role.
  lemma RecodedRoleIsLost(x: Role, y: Role)
    requires x.name.Some? && x.name == y.name && x.code != y.code && x.code != "" && y.code != ""
    ensures RunAll([x], Adds(New([x], [y])) + RemoveOps(NamesOf(New([y], [x])))) == []
  {
    hide New, RunAll, RemoveOps, NamesOf, Tidy;
    OneByOne(x, y);
    var r := RunAll([x], Adds(New([x], [y])) + RemoveOps(NamesOf(New([y], [x]))));
    AddRemovePatched([x], [y], r);
    SomeEntry(r);
    if r != [] {
      assert false;
    }
  }

  lemma SomeEntry<T>(s: seq<Named<T>>)
    ensures s == [] || s[0] in s
  {
  }

  // A dictionary that changes its name together with its options keeps its old
  // options: the update aims at the new name.
  lemma RenamedDictIsNotPatched(x: DictDef, y: DictDef)
    requires x.name.Some? && y.name.Some? && x.name != y.name && x.code == y.code != ""
    requires OptionsDiffer(Pair(x, y))
    ensures !Meets(OptionsDiffer, LevelAfter([x], [y], ChangedOf(OptionsDiffer, [x], [y])), [y])
  {
    hide Meets, LevelAfter, ChangedOf, Both, OptionsDiffer, Last;
    var p := Pair(x, y);
    OnlyLast(x, y.code);
    OnlyLast(y, y.code);
    BothMembers([x], [y], p);
    ChangedFacts(OptionsDiffer, [x], [y], p);
    OptionsSame();
    LevelConvergesExactly(OptionsDiffer, [x], [y]);
    var ps := ChangedOf(OptionsDiffer, [x], [y]);
    assert y.name in NewNames(ps);
    if y.name in OldNames(ps) {
      var q :| q in ps && q.before.name == y.name;
      ChangedFacts(OptionsDiffer, [x], [y], q);
      PairFacts([x], [y], q);
    }
  }

  // Two dictionaries that exchange their names, both with changed options, are
  // patched: each is overwritten with what the other one had to become.
  lemma ExchangedNamesAreFine(x1: DictDef, x2: DictDef, y1: DictDef, y2: DictDef)
    requires x1.name.Some? && x2.name.Some? && x1.name != x2.name && y1.name == x2.name && y2.name == x1.name
    requires x1.code == y1.code != "" && x2.code == y2.code != "" && x1.code != x2.code
    requires OptionsDiffer(Pair(x1, y1)) && OptionsDiffer(Pair(x2, y2))
    ensures Meets(OptionsDiffer, LevelAfter([x1, x2], [y1, y2], ChangedOf(OptionsDiffer, [x1, x2], [y1, y2])), [y1, y2])
  {
    hide Meets, LevelAfter, ChangedOf, Both, OptionsDiffer, Last, New;
    var a, b := [x1, x2], [y1, y2];
    OptionsSame();
    LevelConvergesExactly(OptionsDiffer, a, b);
    OwnLast(a, x1);
    OwnLast(a, x2);
    OwnLast(b, y1);
    OwnLast(b, y2);
    var p1, p2 := Pair(x1, y1), Pair(x2, y2);
    BothMembers(a, b, p1);
    BothMembers(a, b, p2);
    ChangedFacts(OptionsDiffer, a, b, p1);
    ChangedFacts(OptionsDiffer, a, b, p2);
    var ps := ChangedOf(OptionsDiffer, a, b);
    forall p | p in ps
      ensures p == p1 || p == p2
    {
      ChangedFacts(OptionsDiffer, a, b, p);
      PairFacts(a, b, p);
    }
    forall n | n in New(a, b)
      ensures false
    {
      NewFacts(a, b, n);
    }
    assert OldNames(ps) == {x1.name, x2.name} by {
      assert x1.name in OldNames(ps) && x2.name in OldNames(ps);
    }
    assert NewNames(ps) == {y1.name, y2.name} by {
      assert y1.name in NewNames(ps) && y2.name in NewNames(ps);
    }
  }

  lemma OnlyLast<T>(x: Named<T>, c: string)
    ensures Last([x], c) == if x.code == c then Some(x) else None
  {
    assert [x][..0] == [];
  }

  // A model whose name changes under the same code keeps its old fields: the
  // field actions aim at the new name, which no model has.
  lemma RenamedModelIsNotPatched(code: string, oldName: string, newName: string, f: Field)
    requires code != "" && oldName != newName && f.code != ""
    ensures var v1 := Config([Named(Some(oldName), code, ModelBody([], ""))], [], []);
            var v2 := Config([Named(Some(newName), code, ModelBody([f], ""))], [], []);
            var r := ApplyOps(v1, OpsOf(SemanticDiff(v1, v2), v2));
            r == v1 && SemanticDiff(r, v2) != EMPTY_DIFF
  {
    hide New, Both, ApplyOps, FieldOps, Last, Picked, PickedPuts, Filter, DiffFields;
    var m, t := Named(Some(oldName), code, ModelBody([], "")), Named(Some(newName), code, ModelBody([f], ""));
    var v1, v2 := Config([m], [], []), Config([t], [], []);
    OneModelEach(m, t, f);
    EmptyLevel<seq<Choice>>();
    EmptyLevel<string>();
    var d := DiffFields([], [f]);
    var item := ModelItem(newName, code, d);
    assert [Pair(m, t)][..0] == [] && [item][..0] == [];
    assert ModelItems([Pair(m, t)]) == [item];
    NothingPicked(v2);
    OnlyEdits(d, item, v1, v2);
    ForFieldsEffect(v1, newName, FieldOps(d));
    assert EditedList([m], newName, FieldOps(d)) == [m];
  }

  lemma OnlyEdits(d: FieldDiff, item: ModelItem, v1: Config, v2: Config)
    requires SemanticDiff(v1, v2) == EMPTY_DIFF.(modifiedModels := [item])
    requires item.changes == d
    ensures OpsOf(SemanticDiff(v1, v2), v2) == ForFields(item.name, FieldOps(d))
  {
    hide FieldOps, SemanticDiff;
    assert [item][..0] == [];
    assert EditOps([item]) == EditOps([]) + ForFields(item.name, FieldOps(d));
    NothingPicked(v2);
  }

  lemma NothingPicked(v2: Config)
    ensures Picked([], v2.models) == [] && Picked([], v2.dicts) == [] && Picked([], v2.roles) == []
    ensures PickedPuts([], v2.dicts) == []
  {
  }

  lemma EmptyLevel<T>()
    ensures New<T>([], []) == [] && Both<T>([], []) == []
    ensures forall f: Pair<T> -> bool :: Filter(f, []) == []
  {
  }

  lemma OneModelEach(m: Model, t: Model, f: Field)
    requires m.code == t.code != "" && m.body.fields == [] && t.body.fields == [f] && f.code != ""
    ensures New([m], [t]) == [] && New([t], [m]) == [] && Both([m], [t]) == [Pair(m, t)]
    ensures DiffFields([], [f]) != NO_FIELD_CHANGES
  {
    hide New, Last;
    OnlyLast(m, m.code);
    OnlyLast(t, m.code);
    OnlyLast(f, f.code);
    NewMembers([], [f], f);
    forall c
      ensures Last([m], c).Some? <==> c == m.code
      ensures Last([t], c).Some? <==> c == m.code
    {
      OnlyLast(m, c);
      OnlyLast(t, c);
    }
    NothingNew([m], [t]);
    NothingNew([t], [m]);
    assert [t][..0] == [] && [m.code][..0] == [];
    assert Codes([t]) == [m.code];
    assert BothOf([m.code], [m], [t]) == BothOf([], [m], [t]) + [Pair(m, t)];
  }
}
