// What the two-level configuration difference says, entry by entry
// (backend/app/config_diff.py:223-883, 1351-1420).
//
// Nothing here is said through the code-keyed dictionaries: an entry stands for
// a code, or a name, when it is the last one that has it.
module ConfigDiffMeaning {
  import opened Basics
  import opened ConfigDiff

  // The first of the two entries that is there, "" when neither is.
  ghost predicate Reads(k: Key, v: string) {
    match (k.primary, k.fallback)
    case (Some(p), _) => v == p
    case (None, Some(f)) => v == f
    case (None, None) => v == ""
  }

  lemma GetReads(k: Key, v: string)
    ensures Reads(k, v) <==> k.Get() == v
  {
  }

  ghost predicate HasCode<T>(e: Entity<T>, c: string) {
    Reads(e.code, c)
  }

  ghost predicate Lists<T>(s: seq<Entity<T>>, c: string) {
    exists i :: 0 <= i < |s| && HasCode(s[i], c)
  }

  ghost predicate Stands<T>(s: seq<Entity<T>>, c: string, e: Entity<T>) {
    exists i :: 0 <= i < |s| && s[i] == e && HasCode(e, c) && forall j :: i < j < |s| ==> !HasCode(s[j], c)
  }

  lemma {:induction false} LastIs<T>(s: seq<Entity<T>>, c: string)
    ensures Last(s, c).Some? <==> Lists(s, c)
    ensures Last(s, c).Some? ==> Stands(s, c, Last(s, c).value)
    decreases |s|
  {
    if s != [] {
      var n := |s| - 1;
      LastIs(s[..n], c);
      GetReads(s[n].code, c);
      if HasCode(s[n], c) {
        assert Stands(s, c, s[n]);
      } else {
        LonelyTail(s, n, c);
      }
    }
  }

  lemma LonelyTail<T>(s: seq<Entity<T>>, n: nat, c: string)
    requires |s| == n + 1 && !HasCode(s[n], c)
    ensures Lists(s, c) <==> Lists(s[..n], c)
    ensures forall e :: Stands(s[..n], c, e) ==> Stands(s, c, e)
  {
    hide HasCode;
    if Lists(s, c) {
      var i :| 0 <= i < |s| && HasCode(s[i], c);
      assert s[..n][i] == s[i];
    }
    forall e | Stands(s[..n], c, e)
      ensures Stands(s, c, e)
    {
      var i :| 0 <= i < n && s[..n][i] == e && HasCode(e, c) && forall j :: i < j < n ==> !HasCode(s[..n][j], c);
      assert s[i] == e;
      assert forall j :: i < j < n ==> s[..n][j] == s[j];
    }
  }

  lemma OneStands<T>(s: seq<Entity<T>>, c: string, a: Entity<T>, b: Entity<T>)
    requires Stands(s, c, a) && Stands(s, c, b)
    ensures a == b && Lists(s, c)
  {
    hide HasCode;
  }

  lemma StandsIsLast<T>(s: seq<Entity<T>>, c: string, e: Entity<T>)
    ensures Stands(s, c, e) <==> Last(s, c) == Some(e)
  {
    hide Last, Stands, Lists;
    LastIs(s, c);
    if Stands(s, c, e) {
      OneStands(s, c, e, e);
      OneStands(s, c, e, Last(s, c).value);
    }
  }

  ghost predicate HasName<T>(e: Entity<T>, n: string) {
    Reads(e.name, n)
  }

  ghost predicate IsNamesake<T>(s: seq<Entity<T>>, n: string, e: Entity<T>) {
    exists i :: 0 <= i < |s| && s[i] == e && HasName(e, n) && forall j :: i < j < |s| ==> !HasName(s[j], n)
  }

  ghost predicate ListsName<T>(s: seq<Entity<T>>, n: string) {
    exists i :: 0 <= i < |s| && HasName(s[i], n)
  }

  lemma {:induction false} NamedIs<T>(s: seq<Entity<T>>, n: string)
    ensures Named(s, n).Some? <==> ListsName(s, n)
    ensures forall e :: IsNamesake(s, n, e) <==> Named(s, n) == Some(e)
    decreases |s|
  {
    hide Named, IsNamesake, ListsName, HasName;
    NamedIsNamesake(s, n);
    forall e
      ensures IsNamesake(s, n, e) <==> Named(s, n) == Some(e)
    {
      if IsNamesake(s, n, e) {
        OneNamesake(s, n, e, e);
        OneNamesake(s, n, e, Named(s, n).value);
      }
    }
  }

  lemma {:induction false} NamedIsNamesake<T>(s: seq<Entity<T>>, n: string)
    ensures Named(s, n).Some? <==> ListsName(s, n)
    ensures Named(s, n).Some? ==> IsNamesake(s, n, Named(s, n).value)
    decreases |s|
  {
    if s != [] {
      var k := |s| - 1;
      NamedIsNamesake(s[..k], n);
      GetReads(s[k].name, n);
      if HasName(s[k], n) {
        assert IsNamesake(s, n, s[k]);
      } else {
        OtherTail(s, k, n);
      }
    }
  }

  lemma OtherTail<T>(s: seq<Entity<T>>, k: nat, n: string)
    requires |s| == k + 1 && !HasName(s[k], n)
    ensures ListsName(s, n) <==> ListsName(s[..k], n)
    ensures forall e :: IsNamesake(s[..k], n, e) ==> IsNamesake(s, n, e)
  {
    hide HasName;
    if ListsName(s, n) {
      var i :| 0 <= i < |s| && HasName(s[i], n);
      assert s[..k][i] == s[i];
    }
    forall e | IsNamesake(s[..k], n, e)
      ensures IsNamesake(s, n, e)
    {
      var i :| 0 <= i < k && s[..k][i] == e && HasName(e, n) && forall j :: i < j < k ==> !HasName(s[..k][j], n);
      assert s[i] == e;
      assert forall j :: i < j < k ==> s[..k][j] == s[j];
    }
  }

  lemma OneNamesake<T>(s: seq<Entity<T>>, n: string, a: Entity<T>, b: Entity<T>)
    requires IsNamesake(s, n, a) && IsNamesake(s, n, b)
    ensures a == b && ListsName(s, n)
  {
    hide HasName;
  }

  // ----- what is compared -----

  ghost predicate SameName<T>(x: Entity<T>, y: Entity<T>) {
    exists n :: HasName(x, n) && HasName(y, n)
  }

  // The model a field refers to: its own entry first, then the `ref` entry.
  ghost predicate RefersTo(f: FieldBody, v: string) {
    if f.refModelCode != "" then v == f.refModelCode
    else match f.ref case NoRef => v == "" case RefModel(m) => v == m case RefText(t) => v == t
  }

  ghost predicate FieldsSay(x: Field, y: Field) {
    || (exists s, t :: Reads(x.body.fieldType, s) && Reads(y.body.fieldType, t) && s != "" && t != "" && s != t)
    || (exists s, t :: Reads(x.body.dict, s) && Reads(y.body.dict, t) && s != t)
    || (exists s, t :: RefersTo(x.body, s) && RefersTo(y.body, t) && s != t)
  }

  lemma ReadsOne(k: Key)
    ensures Reads(k, k.Get()) && forall v :: Reads(k, v) ==> v == k.Get()
  {
  }

  lemma RefersToOne(f: FieldBody)
    ensures RefersTo(f, RefOf(f)) && forall v :: RefersTo(f, v) ==> v == RefOf(f)
  {
  }

  lemma NamesSay<T>(x: Entity<T>, y: Entity<T>)
    ensures SameName(x, y) <==> x.name.Get() == y.name.Get()
  {
    hide Reads;
    ReadsOne(x.name);
    ReadsOne(y.name);
    assert HasName(x, x.name.Get()) && HasName(y, y.name.Get());
  }

  lemma ComparisonSays()
    ensures forall x, y :: ChoicesDiffer(x, y) <==> !SameName(x, y)
    ensures forall x, y :: FieldsDiffer(x, y) <==> FieldsSay(x, y)
  {
    hide Reads, RefersTo, RefOf, SameName;
    forall x: Choice, y: Choice
      ensures ChoicesDiffer(x, y) <==> !SameName(x, y)
    {
      NamesSay(x, y);
    }
    forall x: Field, y: Field
      ensures FieldsDiffer(x, y) <==> FieldsSay(x, y)
    {
      ReadsOne(x.body.fieldType);
      ReadsOne(y.body.fieldType);
      ReadsOne(x.body.dict);
      ReadsOne(y.body.dict);
      RefersToOne(x.body);
      RefersToOne(y.body);
    }
  }

  // ----- one level -----

  // Added are the entries whose code only the new list has, deleted those whose
  // code only the old one has, modified the pairs that differ; each code once.
  ghost predicate LeafSays<T(!new)>(differs: Differs<T>, a: seq<Entity<T>>, b: seq<Entity<T>>, changes: seq<Change<T>>) {
    && (forall c, y :: Added(c, y) in changes <==> c != "" && !Lists(a, c) && Stands(b, c, y))
    && (forall c, x :: Deleted(c, x) in changes <==> c != "" && Stands(a, c, x) && !Lists(b, c))
    && (forall c, x, y :: Modified(c, x, y) in changes <==> c != "" && Stands(a, c, x) && Stands(b, c, y) && differs(x, y))
    && forall i, j :: 0 <= i < j < |changes| ==> changes[i].code != changes[j].code
  }

  lemma ChangeIs<T(!new)>(differs: Differs<T>, a: seq<Entity<T>>, b: seq<Entity<T>>, c: string)
    ensures forall y :: ChangeOf(differs, a, b, c) == Some(Added(c, y)) <==> !Lists(a, c) && Stands(b, c, y)
    ensures forall x :: ChangeOf(differs, a, b, c) == Some(Deleted(c, x)) <==> Stands(a, c, x) && !Lists(b, c)
    ensures forall x, y :: ChangeOf(differs, a, b, c) == Some(Modified(c, x, y)) <==> Stands(a, c, x) && Stands(b, c, y) && differs(x, y)
    ensures ChangeOf(differs, a, b, c).Some? ==> ChangeOf(differs, a, b, c).value.code == c
  {
    hide Last, Stands, Lists;
    LastIs(a, c);
    LastIs(b, c);
    forall e
      ensures Stands(a, c, e) <==> Last(a, c) == Some(e)
      ensures Stands(b, c, e) <==> Last(b, c) == Some(e)
    {
      StandsIsLast(a, c, e);
      StandsIsLast(b, c, e);
    }
  }

  lemma LeafDifferenceSays<T(!new)>(differs: Differs<T>, a: seq<Entity<T>>, b: seq<Entity<T>>, changes: seq<Change<T>>)
    requires IsLeafDiff(differs, a, b, changes)
    ensures LeafSays(differs, a, b, changes)
  {
    hide ChangeOf, Stands, Lists;
    forall ch: Change<T>
      ensures ch in changes <==> ch.code != "" && ChangeOf(differs, a, b, ch.code) == Some(ch)
    {
    }
    forall c, y
      ensures Added(c, y) in changes <==> c != "" && !Lists(a, c) && Stands(b, c, y)
    {
      ChangeIs(differs, a, b, c);
    }
    forall c, x
      ensures Deleted(c, x) in changes <==> c != "" && Stands(a, c, x) && !Lists(b, c)
    {
      ChangeIs(differs, a, b, c);
    }
    forall c, x, y
      ensures Modified(c, x, y) in changes <==> c != "" && Stands(a, c, x) && Stands(b, c, y) && differs(x, y)
    {
      ChangeIs(differs, a, b, c);
    }
  }

  // Some code is on one side only, or its entries differ.
  ghost predicate LeavesSay<T(!new)>(differs: Differs<T>, a: seq<Entity<T>>, b: seq<Entity<T>>) {
    exists c :: c != "" && DiffersAt(differs, a, b, c)
  }

  ghost predicate DiffersAt<T(!new)>(differs: Differs<T>, a: seq<Entity<T>>, b: seq<Entity<T>>, c: string) {
    Lists(a, c) != Lists(b, c) || exists x, y :: Stands(a, c, x) && Stands(b, c, y) && differs(x, y)
  }

  lemma DiffersAtIs<T(!new)>(differs: Differs<T>, a: seq<Entity<T>>, b: seq<Entity<T>>, c: string)
    ensures DiffersAt(differs, a, b, c) <==> ChangeOf(differs, a, b, c).Some?
  {
    hide Last, Stands, Lists;
    LastIs(a, c);
    LastIs(b, c);
    forall e
      ensures Stands(a, c, e) <==> Last(a, c) == Some(e)
      ensures Stands(b, c, e) <==> Last(b, c) == Some(e)
    {
      StandsIsLast(a, c, e);
      StandsIsLast(b, c, e);
    }
  }

  lemma LeavesSayIs<T(!new)>(differs: Differs<T>, a: seq<Entity<T>>, b: seq<Entity<T>>)
    ensures LeavesDiffer(differs, a, b) <==> LeavesSay(differs, a, b)
  {
    hide DiffersAt, ChangeOf;
    forall c
      ensures DiffersAt(differs, a, b, c) <==> ChangeOf(differs, a, b, c).Some?
    {
      DiffersAtIs(differs, a, b, c);
    }
  }

  // ----- two levels -----

  ghost predicate ParentsSay<T(!new)>(differs: Differs<T>, x: Deep<T>, y: Deep<T>) {
    !SameName(x, y) || LeavesSay(differs, x.body, y.body)
  }

  ghost predicate Tells<T(!new)>(changes: seq<DeepChange<T>>, ch: Change<seq<Entity<T>>>) {
    exists subs :: DeepChange(ch, subs) in changes
  }

  // As for one level; a parent is modified when its name or some child differs,
  // and every change carries the changes of the children, all of them when the
  // parent is new or gone.
  ghost predicate DeepSays<T(!new)>(differs: Differs<T>, a: seq<Deep<T>>, b: seq<Deep<T>>, changes: seq<DeepChange<T>>) {
    && (forall c, y :: Tells(changes, Added(c, y)) <==> c != "" && !Lists(a, c) && Stands(b, c, y))
    && (forall c, x :: Tells(changes, Deleted(c, x)) <==> c != "" && Stands(a, c, x) && !Lists(b, c))
    && (forall c, x, y :: Tells(changes, Modified(c, x, y)) <==>
          c != "" && Stands(a, c, x) && Stands(b, c, y) && ParentsSay(differs, x, y))
    && (forall d :: d in changes ==> match d.change
          case Added(_, y) => LeafSays(differs, [], y.body, d.children)
          case Deleted(_, x) => LeafSays(differs, x.body, [], d.children)
          case Modified(_, x, y) => LeafSays(differs, x.body, y.body, d.children))
    && forall i, j :: 0 <= i < j < |changes| ==> changes[i].change.code != changes[j].change.code
  }

  lemma DeepChangeIs<T(!new)>(differs: Differs<T>, a: seq<Deep<T>>, b: seq<Deep<T>>, c: string)
    ensures forall y :: DeepChangeOf(differs, a, b, c) == Some(Added(c, y)) <==> !Lists(a, c) && Stands(b, c, y)
    ensures forall x :: DeepChangeOf(differs, a, b, c) == Some(Deleted(c, x)) <==> Stands(a, c, x) && !Lists(b, c)
    ensures forall x, y :: DeepChangeOf(differs, a, b, c) == Some(Modified(c, x, y)) <==>
              Stands(a, c, x) && Stands(b, c, y) && ParentsSay(differs, x, y)
    ensures DeepChangeOf(differs, a, b, c).Some? ==> DeepChangeOf(differs, a, b, c).value.code == c
  {
    hide Last, Stands, Lists, LeavesDiffer, LeavesSay, SameName;
    LastIs(a, c);
    LastIs(b, c);
    forall e
      ensures Stands(a, c, e) <==> Last(a, c) == Some(e)
      ensures Stands(b, c, e) <==> Last(b, c) == Some(e)
    {
      StandsIsLast(a, c, e);
      StandsIsLast(b, c, e);
    }
    forall x: Deep<T>, y: Deep<T>
      ensures ParentsDiffer(differs, x, y) <==> ParentsSay(differs, x, y)
    {
      NamesSay(x, y);
      LeavesSayIs(differs, x.body, y.body);
    }
  }

  lemma ToldIs<T(!new)>(differs: Differs<T>, a: seq<Deep<T>>, b: seq<Deep<T>>, changes: seq<DeepChange<T>>, ch: Change<seq<Entity<T>>>)
    requires IsDeepDiff(differs, a, b, changes)
    ensures Tells(changes, ch) <==> ch.code != "" && DeepChangeOf(differs, a, b, ch.code) == Some(ch)
  {
    hide DeepChangeOf, AreChildChanges;
    if ch.code != "" && DeepChangeOf(differs, a, b, ch.code) == Some(ch) {
      var d :| d in changes && d.change.code == ch.code;
      assert d == DeepChange(ch, d.children);
    }
  }

  lemma DeepDifferenceSays<T(!new)>(differs: Differs<T>, a: seq<Deep<T>>, b: seq<Deep<T>>, changes: seq<DeepChange<T>>)
    requires IsDeepDiff(differs, a, b, changes)
    ensures DeepSays(differs, a, b, changes)
  {
    hide DeepChangeOf, Stands, Lists, Tells, ParentsSay, LeafSays, IsDeepDiff;
    forall c, y
      ensures Tells(changes, Added(c, y)) <==> c != "" && !Lists(a, c) && Stands(b, c, y)
    {
      ToldIs(differs, a, b, changes, Added(c, y));
      DeepChangeIs(differs, a, b, c);
    }
    forall c, x
      ensures Tells(changes, Deleted(c, x)) <==> c != "" && Stands(a, c, x) && !Lists(b, c)
    {
      ToldIs(differs, a, b, changes, Deleted(c, x));
      DeepChangeIs(differs, a, b, c);
    }
    forall c, x, y
      ensures Tells(changes, Modified(c, x, y)) <==> c != "" && Stands(a, c, x) && Stands(b, c, y) && ParentsSay(differs, x, y)
    {
      ToldIs(differs, a, b, changes, Modified(c, x, y));
      DeepChangeIs(differs, a, b, c);
    }
    forall d | d in changes
      ensures match d.change
              case Added(_, y) => LeafSays(differs, [], y.body, d.children)
              case Deleted(_, x) => LeafSays(differs, x.body, [], d.children)
              case Modified(_, x, y) => LeafSays(differs, x.body, y.body, d.children)
    {
      ChildrenSay(differs, a, b, changes, d);
    }
    EachCodeOnce(differs, a, b, changes);
  }

  lemma EachCodeOnce<T(!new)>(differs: Differs<T>, a: seq<Deep<T>>, b: seq<Deep<T>>, changes: seq<DeepChange<T>>)
    requires IsDeepDiff(differs, a, b, changes)
    ensures forall i, j :: 0 <= i < j < |changes| ==> changes[i].change.code != changes[j].change.code
  {
  }

  lemma ChildrenSay<T(!new)>(differs: Differs<T>, a: seq<Deep<T>>, b: seq<Deep<T>>, changes: seq<DeepChange<T>>, d: DeepChange<T>)
    requires IsDeepDiff(differs, a, b, changes) && d in changes
    ensures match d.change
            case Added(_, y) => LeafSays(differs, [], y.body, d.children)
            case Deleted(_, x) => LeafSays(differs, x.body, [], d.children)
            case Modified(_, x, y) => LeafSays(differs, x.body, y.body, d.children)
  {
    hide Last, IsLeafDiff, LeafSays, ParentsDiffer;
    var c := d.change.code;
    LeafDifferenceSays(differs, Children(Last(a, c)), Children(Last(b, c)), d.children);
  }

  // ----- roles -----

  // Added are the names that only the new list has, with the code of the last
  // entry of the name, deleted those that only the old one has.
  ghost predicate RolesSay(a: seq<Entity<string>>, b: seq<Entity<string>>, changes: seq<RoleChange>) {
    && (forall n, k :: RoleAdded(n, k) in changes <==>
          n != "" && !ListsName(a, n) && exists y :: IsNamesake(b, n, y) && Reads(y.code, k))
    && (forall n, k :: RoleDeleted(n, k) in changes <==>
          n != "" && !ListsName(b, n) && exists x :: IsNamesake(a, n, x) && Reads(x.code, k))
    && forall i, j :: 0 <= i < j < |changes| ==> changes[i].name != changes[j].name
  }

  lemma RoleDifferenceSays(a: seq<Entity<string>>, b: seq<Entity<string>>, changes: seq<RoleChange>)
    requires IsRoleDiff(a, b, changes)
    ensures RolesSay(a, b, changes)
  {
    hide Named, IsNamesake, ListsName, Reads;
    forall ch: RoleChange
      ensures ch in changes <==> ch.name != "" && RoleChangeOf(a, b, ch.name) == Some(ch)
    {
    }
    forall n, k
      ensures RoleAdded(n, k) in changes <==>
              n != "" && !ListsName(a, n) && exists y :: IsNamesake(b, n, y) && Reads(y.code, k)
      ensures RoleDeleted(n, k) in changes <==>
              n != "" && !ListsName(b, n) && exists x :: IsNamesake(a, n, x) && Reads(x.code, k)
    {
      NamedIs(a, n);
      NamedIs(b, n);
      forall e: Entity<string>
        ensures Reads(e.code, k) <==> e.code.Get() == k
      {
        GetReads(e.code, k);
      }
    }
  }

  // ----- the whole difference -----

  // Everything the computed difference reports, and nothing else.
  lemma ConfigDifferenceSays(a: Config, b: Config, d: ConfigChanges)
    requires IsConfigDiff(a, b, d)
    ensures RolesSay(a.roles, b.roles, d.roles)
    ensures DeepSays(ChoicesDiffer, a.dicts, b.dicts, d.dicts)
    ensures DeepSays(FieldsDiffer, a.models, b.models, d.models)
    ensures d.hasChanges <==> d.roles != [] || d.dicts != [] || d.models != []
  {
    hide IsRoleDiff, IsDeepDiff, RolesSay, DeepSays;
    RoleDifferenceSays(a.roles, b.roles, d.roles);
    DeepDifferenceSays(ChoicesDiffer, a.dicts, b.dicts, d.dicts);
    DeepDifferenceSays(FieldsDiffer, a.models, b.models, d.models);
  }

  // ----- what a replay reaches -----

  // The code is on both sides or on neither, with the same name and no
  // difference below.
  ghost predicate AgreesAt<T(!new)>(differs: Differs<T>, a: seq<Deep<T>>, b: seq<Deep<T>>, c: string) {
    && (Lists(a, c) <==> Lists(b, c))
    && forall x, y :: Stands(a, c, x) && Stands(b, c, y) ==> SameName(x, y) && !LeavesSay(differs, x.body, y.body)
  }

  ghost predicate SayTheSame<T(!new)>(differs: Differs<T>, a: seq<Deep<T>>, b: seq<Deep<T>>) {
    forall c :: c != "" ==> AgreesAt(differs, a, b, c)
  }

  lemma NothingToReportSays<T(!new)>(differs: Differs<T>, a: seq<Deep<T>>, b: seq<Deep<T>>)
    ensures !DeepDiffers(differs, a, b) <==> SayTheSame(differs, a, b)
  {
    hide AgreesAt, DeepChangeOf;
    forall c
      ensures DeepChangeOf(differs, a, b, c).None? <==> AgreesAt(differs, a, b, c)
    {
      NoChangeIs(differs, a, b, c);
    }
  }

  lemma NoChangeIs<T(!new)>(differs: Differs<T>, a: seq<Deep<T>>, b: seq<Deep<T>>, c: string)
    ensures DeepChangeOf(differs, a, b, c).None? <==> AgreesAt(differs, a, b, c)
  {
    hide Last, Stands, Lists, LeavesDiffer, LeavesSay, SameName;
    LastIs(a, c);
    LastIs(b, c);
    forall e
      ensures Stands(a, c, e) <==> Last(a, c) == Some(e)
      ensures Stands(b, c, e) <==> Last(b, c) == Some(e)
    {
      StandsIsLast(a, c, e);
      StandsIsLast(b, c, e);
    }
    if Last(a, c).Some? && Last(b, c).Some? {
      NamesSay(Last(a, c).value, Last(b, c).value);
      LeavesSayIs(differs, Last(a, c).value.body, Last(b, c).value.body);
    }
  }

  // The computed difference, replayed on the old configuration, gives the codes,
  // names and children of the new one.
  lemma ReplayReachesTarget(was: Config, cur: Config, d: ConfigChanges)
    requires IsConfigDiff(was, cur, d)
    ensures SayTheSame(ChoicesDiffer, ReplayDeep(was.dicts, d.dicts), cur.dicts)
    ensures SayTheSame(FieldsDiffer, ReplayDeep(was.models, d.models), cur.models)
  {
    hide IsConfigDiff, SayTheSame, DeepDiffers, ReplayDeep;
    ConfigReplayConverges(was, cur, d);
    NothingToReportSays(ChoicesDiffer, ReplayDeep(was.dicts, d.dicts), cur.dicts);
    NothingToReportSays(FieldsDiffer, ReplayDeep(was.models, d.models), cur.models);
  }

  // ----- what is inherited -----

  // The code that the last old entry of the name has to give.
  ghost predicate Gives<T(!new)>(was: seq<Entity<T>>, n: string, k: string) {
    n != "" && k != "" && exists o :: IsNamesake(was, n, o) && Reads(o.code, k)
  }

  // The entry `r` is `e` with the code overwritten, where it has one.
  ghost predicate Overwrites<T>(e: Entity<T>, r: Entity<T>, k: string) {
    && r.name == e.name && r.body == e.body
    && match (e.code.primary, e.code.fallback)
       case (Some(_), f) => r.code == Key(Some(k), f)
       case (None, Some(_)) => r.code == Key(None, Some(k))
       case (None, None) => r.code == e.code
  }

  lemma InheritsSays<T(!new)>(was: seq<Entity<T>>, e: Entity<T>, n: string)
    requires HasName(e, n)
    ensures forall k :: Gives(was, n, k) ==> Overwrites(e, InheritOne(was, e), k)
    ensures (forall k :: !Gives(was, n, k)) ==> InheritOne(was, e) == e
  {
    hide Named, IsNamesake, ListsName;
    NamedIs(was, n);
    GetReads(e.name, n);
    var o := Named(was, n);
    if o.Some? {
      ReadsOne(o.value.code);
      assert n != "" && o.value.code.Get() != "" ==> Gives(was, n, o.value.code.Get());
    }
  }

  // Entry by entry: what takes a code, and that the rest stays.
  lemma InheritanceSays<T(!new)>(was: seq<Entity<T>>, cur: seq<Entity<T>>)
    ensures var r := Inherit(was, cur);
            && |r| == |cur|
            && forall i, n, k :: 0 <= i < |cur| && HasName(cur[i], n) && Gives(was, n, k) ==> Overwrites(cur[i], r[i], k)
    ensures var r := Inherit(was, cur);
            forall i, n :: 0 <= i < |cur| && HasName(cur[i], n) && (forall k :: !Gives(was, n, k)) ==> r[i] == cur[i]
  {
    hide InheritOne, Gives, Overwrites, HasName;
    forall i, n | 0 <= i < |cur| && HasName(cur[i], n)
      ensures forall k :: Gives(was, n, k) ==> Overwrites(cur[i], InheritOne(was, cur[i]), k)
      ensures (forall k :: !Gives(was, n, k)) ==> InheritOne(was, cur[i]) == cur[i]
    {
      InheritsSays(was, cur[i], n);
    }
  }

  // Parents inherit alike, and below a parent with an old namesake its children
  // inherit from the children of that one.
  lemma DeepInheritanceSays<T>(was: seq<Deep<T>>, cur: seq<Deep<T>>, i: nat, n: string)
    requires i < |cur| && HasName(cur[i], n)
    ensures |InheritDeep(was, cur)| == |cur|
    ensures var r, parent := InheritDeep(was, cur)[i], InheritOne(was, cur[i]);
            && r.name == cur[i].name && r.code == parent.code
            && (forall o :: n != "" && IsNamesake(was, n, o) ==> r.body == Inherit(o.body, cur[i].body))
            && (n == "" || !ListsName(was, n) ==> r.body == cur[i].body)
  {
    hide Named, IsNamesake, ListsName, Inherit, InheritOne;
    InheritOneTwice(was, cur[i]);
    NamedIs(was, n);
    GetReads(cur[i].name, n);
  }
}
