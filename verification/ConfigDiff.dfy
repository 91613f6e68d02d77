// The two-level configuration difference with code inheritance
// (backend/app/config_diff.py:223-883, 1351-1420): dictionaries with their
// options, models with their fields, and roles.
module ConfigDiff {
  import opened Basics

  // An entry looked up under a key and, when that is missing, under another:
  // `item.get(key, item.get(fallback, ""))`.
  datatype Key = Key(primary: Option<string>, fallback: Option<string>) {
    function Get(): string {
      if primary.Some? then primary.value else if fallback.Some? then fallback.value else ""
    }

    predicate Present() {
      primary.Some? || fallback.Some?
    }

    // Overwrites the entry that is there; an absent one is not created.
    function Set(v: string): Key {
      if primary.Some? then Key(Some(v), fallback)
      else if fallback.Some? then Key(None, Some(v))
      else this
    }
  }

  datatype Entity<T> = Entity(name: Key, code: Key, body: T)

  datatype Ref = NoRef | RefModel(model: string) | RefText(text: string)
  datatype FieldBody = FieldBody(fieldType: Key, dict: Key, refModelCode: string, ref: Ref)

  type Choice = Entity<string>
  type Field = Entity<FieldBody>
  type Deep<T> = Entity<seq<Entity<T>>>

  datatype Config = Config(roles: seq<Entity<string>>, dicts: seq<Deep<string>>, models: seq<Deep<FieldBody>>)

  // ----- dictionaries by code and by name: the last entry wins -----

  function Last<T>(s: seq<Entity<T>>, c: string): (r: Option<Entity<T>>)
    ensures r.Some? ==> r.value in s && r.value.code.Get() == c
  {
    if s == [] then None
    else if s[|s| - 1].code.Get() == c then Some(s[|s| - 1])
    else Last(s[..|s| - 1], c)
  }

  function Named<T>(s: seq<Entity<T>>, n: string): (r: Option<Entity<T>>)
    ensures r.Some? ==> r.value in s && r.value.name.Get() == n
  {
    if s == [] then None
    else if s[|s| - 1].name.Get() == n then Some(s[|s| - 1])
    else Named(s[..|s| - 1], n)
  }

  method MapByCode<T>(s: seq<Entity<T>>) returns (m: map<string, Entity<T>>)
    ensures forall c :: c in m <==> Last(s, c).Some?
    ensures forall c :: c in m ==> Last(s, c) == Some(m[c])
  {
    m := map[];
    for i := 0 to |s|
      invariant forall c :: c in m <==> Last(s[..i], c).Some?
      invariant forall c :: c in m ==> Last(s[..i], c) == Some(m[c])
    {
      assert s[..i + 1][..i] == s[..i];
      m := m[s[i].code.Get() := s[i]];
    }
    assert s[..|s|] == s;
  }

  method MapByName<T>(s: seq<Entity<T>>) returns (m: map<string, Entity<T>>)
    ensures forall n :: n in m <==> n != "" && Named(s, n).Some?
    ensures forall n :: n in m ==> Named(s, n) == Some(m[n])
  {
    m := map[];
    for i := 0 to |s|
      invariant forall n :: n in m <==> n != "" && Named(s[..i], n).Some?
      invariant forall n :: n in m ==> Named(s[..i], n) == Some(m[n])
    {
      assert s[..i + 1][..i] == s[..i];
      if s[i].name.Get() != "" {
        m := m[s[i].name.Get() := s[i]];
      }
    }
    assert s[..|s|] == s;
  }

  // ----- inheriting codes by name -----

  // A named entry takes over the code of the old entry of the same name,
  // unless that code is empty.
  function InheritOne<T>(was: seq<Entity<T>>, e: Entity<T>): Entity<T> {
    var n := e.name.Get();
    if n == "" then e
    else
      var o := Named(was, n);
      if o.None? || o.value.code.Get() == "" then e
      else e.(code := e.code.Set(o.value.code.Get()))
  }

  function Inherit<T>(was: seq<Entity<T>>, cur: seq<Entity<T>>): seq<Entity<T>> {
    seq(|cur|, i requires 0 <= i < |cur| => InheritOne(was, cur[i]))
  }

  // The entries of a same-named old parent pass their codes on as well.
  function InheritChildren<T>(was: seq<Deep<T>>, e: Deep<T>): Deep<T> {
    var n := e.name.Get();
    if n == "" || Named(was, n).None? then e
    else e.(body := Inherit(Named(was, n).value.body, e.body))
  }

  function InheritDeep<T>(was: seq<Deep<T>>, cur: seq<Deep<T>>): seq<Deep<T>> {
    seq(|cur|, i requires 0 <= i < |cur| => InheritChildren(was, InheritOne(was, cur[i])))
  }

  function InheritCodes(was: Config, cur: Config): Config {
    Config(Inherit(was.roles, cur.roles), InheritDeep(was.dicts, cur.dicts), InheritDeep(was.models, cur.models))
  }

  class EntityList<T> {
    var items: seq<Entity<T>>

    constructor (items: seq<Entity<T>>)
      ensures this.items == items
    {
      this.items := items;
    }

    // Overwrites codes in place and returns the old entries by name.
    method InheritListCodes(oldList: seq<Entity<T>>) returns (oldByName: map<string, Entity<T>>)
      modifies this
      ensures items == Inherit(oldList, old(items))
      ensures forall n :: n in oldByName <==> n != "" && Named(oldList, n).Some?
      ensures forall n :: n in oldByName ==> Named(oldList, n) == Some(oldByName[n])
    {
      hide Named;
      oldByName := MapByName(oldList);
      for i := 0 to |items|
        invariant |items| == |old(items)|
        invariant forall k :: 0 <= k < |items| ==>
                    items[k] == if k < i then InheritOne(oldList, old(items)[k]) else old(items)[k]
      {
        var n := items[i].name.Get();
        if n == "" || n !in oldByName {
          continue;
        }
        var oldCode := oldByName[n].code.Get();
        if oldCode == "" {
          continue;
        }
        if items[i].code.primary.Some? {
          items := items[i := items[i].(code := Key(Some(oldCode), items[i].code.fallback))];
        } else if items[i].code.fallback.Some? {
          items := items[i := items[i].(code := Key(None, Some(oldCode)))];
        }
      }
    }
  }

  method InheritDeepCodes<T>(was: seq<Deep<T>>, cur: seq<Deep<T>>) returns (r: seq<Deep<T>>)
    ensures r == InheritDeep(was, cur)
  {
    var list := new EntityList(cur);
    var oldByName := list.InheritListCodes(was);
    r := list.items;
    for i := 0 to |r|
      invariant |r| == |cur|
      invariant forall k :: 0 <= k < |r| ==>
                  r[k] == if k < i then InheritChildren(was, InheritOne(was, cur[k])) else InheritOne(was, cur[k])
    {
      var n := r[i].name.Get();
      if n in oldByName {
        var children := new EntityList(r[i].body);
        var ignored := children.InheritListCodes(oldByName[n].body);
        r := r[i := r[i].(body := children.items)];
      }
    }
  }

  method InheritCodesFromOld(was: Config, cur: Config) returns (r: Config)
    ensures r == InheritCodes(was, cur)
  {
    var roles := new EntityList(cur.roles);
    var ignored := roles.InheritListCodes(was.roles);
    var dicts := InheritDeepCodes(was.dicts, cur.dicts);
    var models := InheritDeepCodes(was.models, cur.models);
    r := Config(roles.items, dicts, models);
  }

  // ----- differences of one level -----

  datatype Change<T> =
    | Added(code: string, now: Entity<T>)
    | Deleted(code: string, before: Entity<T>)
    | Modified(code: string, before: Entity<T>, now: Entity<T>)

  // Options differ by name; fields by type (when both have one), dictionary
  // or referenced model.
  predicate ChoicesDiffer(a: Choice, b: Choice) {
    a.name.Get() != b.name.Get()
  }

  function RefOf(f: FieldBody): string {
    if f.refModelCode != "" then f.refModelCode
    else match f.ref
         case NoRef => ""
         case RefModel(m) => m
         case RefText(t) => t
  }

  predicate FieldsDiffer(a: Field, b: Field) {
    var s, t := a.body.fieldType.Get(), b.body.fieldType.Get();
    || (s != "" && t != "" && s != t)
    || a.body.dict.Get() != b.body.dict.Get()
    || RefOf(a.body) != RefOf(b.body)
  }

  type Differs<!T> = (Entity<T>, Entity<T>) -> bool

  // What happened to code `c`, if anything.
  function ChangeOf<T>(differs: Differs<T>, a: seq<Entity<T>>, b: seq<Entity<T>>, c: string): Option<Change<T>> {
    var before, now := Last(a, c), Last(b, c);
    if before.None? && now.None? then None
    else if before.None? then Some(Added(c, now.value))
    else if now.None? then Some(Deleted(c, before.value))
    else if differs(before.value, now.value) then Some(Modified(c, before.value, now.value))
    else None
  }

  // The list holds, in some order, exactly the change of every non-empty code.
  ghost predicate IsLeafDiff<T>(differs: Differs<T>, a: seq<Entity<T>>, b: seq<Entity<T>>, changes: seq<Change<T>>) {
    && (forall ch :: ch in changes ==> ch.code != "" && ChangeOf(differs, a, b, ch.code) == Some(ch))
    && (forall c :: c != "" && ChangeOf(differs, a, b, c).Some? ==> ChangeOf(differs, a, b, c).value in changes)
    && forall i, j :: 0 <= i < j < |changes| ==> changes[i].code != changes[j].code
  }

  // The codes are visited in any order.
  method CompareLeaves<T>(differs: Differs<T>, a: seq<Entity<T>>, b: seq<Entity<T>>) returns (changes: seq<Change<T>>)
    ensures IsLeafDiff(differs, a, b, changes)
  {
    hide Last, ChangeOf, IsPartialLeafDiff;
    var oldMap := MapByCode(a);
    var newMap := MapByCode(b);
    var rest := oldMap.Keys + newMap.Keys;
    changes := [];
    LeafStart(differs, a, b, rest);
    while rest != {}
      invariant forall c :: c in rest ==> c in oldMap || c in newMap
      invariant IsPartialLeafDiff(differs, a, b, rest, changes)
    {
      ghost var some := SomeElement(rest);
      var code :| code in rest;
      LeafStep(differs, a, b, rest, changes, code);
      rest := rest - {code};
      if code == "" {
        continue;
      }
      ChangeCases(differs, a, b, code);
      if code !in oldMap && code in newMap {
        changes := changes + [Added(code, newMap[code])];
      } else if code in oldMap && code !in newMap {
        changes := changes + [Deleted(code, oldMap[code])];
      } else if code in oldMap && code in newMap && differs(oldMap[code], newMap[code]) {
        changes := changes + [Modified(code, oldMap[code], newMap[code])];
      }
    }
    LeafEnd(differs, a, b, changes);
  }

  // The list holds exactly the changes of the codes outside `rest`.
  ghost predicate IsPartialLeafDiff<T>(differs: Differs<T>, a: seq<Entity<T>>, b: seq<Entity<T>>, rest: set<string>, changes: seq<Change<T>>) {
    && (forall ch :: ch in changes ==> ch.code != "" && ch.code !in rest && ChangeOf(differs, a, b, ch.code) == Some(ch))
    && (forall c :: c != "" && c !in rest && ChangeOf(differs, a, b, c).Some? ==> ChangeOf(differs, a, b, c).value in changes)
    && forall i, j :: 0 <= i < j < |changes| ==> changes[i].code != changes[j].code
  }

  lemma LeafStart<T>(differs: Differs<T>, a: seq<Entity<T>>, b: seq<Entity<T>>, rest: set<string>)
    requires forall c :: Last(a, c).Some? || Last(b, c).Some? ==> c in rest
    ensures IsPartialLeafDiff(differs, a, b, rest, [])
  {
  }

  lemma LeafEnd<T>(differs: Differs<T>, a: seq<Entity<T>>, b: seq<Entity<T>>, changes: seq<Change<T>>)
    requires IsPartialLeafDiff(differs, a, b, {}, changes)
    ensures IsLeafDiff(differs, a, b, changes)
  {
    hide ChangeOf;
  }

  lemma LeafStep<T>(differs: Differs<T>, a: seq<Entity<T>>, b: seq<Entity<T>>, rest: set<string>, changes: seq<Change<T>>, c: string)
    requires IsPartialLeafDiff(differs, a, b, rest, changes) && c in rest
    ensures var ch := ChangeOf(differs, a, b, c);
            IsPartialLeafDiff(differs, a, b, rest - {c}, if c != "" && ch.Some? then changes + [ch.value] else changes)
  {
    ChangeCases(differs, a, b, c);
    hide ChangeOf;
  }

  lemma ChangeCases<T>(differs: Differs<T>, a: seq<Entity<T>>, b: seq<Entity<T>>, c: string)
    ensures var ch := ChangeOf(differs, a, b, c);
            && (ch.Some? ==> ch.value.code == c)
            && ch == match (Last(a, c), Last(b, c))
                     case (None, None) => None
                     case (None, Some(y)) => Some(Added(c, y))
                     case (Some(x), None) => Some(Deleted(c, x))
                     case (Some(x), Some(y)) => if differs(x, y) then Some(Modified(c, x, y)) else None
  {
  }

  // ----- differences of two levels -----

  datatype DeepChange<T> = DeepChange(change: Change<seq<Entity<T>>>, children: seq<Change<T>>)

  function Children<T>(e: Option<Deep<T>>): seq<Entity<T>> {
    if e.Some? then e.value.body else []
  }

  // The children's differences under code `c`; a missing parent has none.
  ghost predicate AreChildChanges<T>(differs: Differs<T>, a: seq<Deep<T>>, b: seq<Deep<T>>, c: string, subs: seq<Change<T>>) {
    IsLeafDiff(differs, Children(Last(a, c)), Children(Last(b, c)), subs)
  }

  ghost predicate LeavesDiffer<T(!new)>(differs: Differs<T>, a: seq<Entity<T>>, b: seq<Entity<T>>) {
    exists c :: c != "" && ChangeOf(differs, a, b, c).Some?
  }

  // A parent on both sides is modified when its name or a child differs.
  ghost predicate ParentsDiffer<T(!new)>(differs: Differs<T>, x: Deep<T>, y: Deep<T>) {
    x.name.Get() != y.name.Get() || LeavesDiffer(differs, x.body, y.body)
  }

  ghost function DeepChangeOf<T(!new)>(differs: Differs<T>, a: seq<Deep<T>>, b: seq<Deep<T>>, c: string): Option<Change<seq<Entity<T>>>> {
    var before, now := Last(a, c), Last(b, c);
    if before.None? && now.None? then None
    else if before.None? then Some(Added(c, now.value))
    else if now.None? then Some(Deleted(c, before.value))
    else if ParentsDiffer(differs, before.value, now.value) then Some(Modified(c, before.value, now.value))
    else None
  }

  ghost predicate IsDeepDiff<T(!new)>(differs: Differs<T>, a: seq<Deep<T>>, b: seq<Deep<T>>, changes: seq<DeepChange<T>>) {
    && (forall d :: d in changes ==>
          && d.change.code != ""
          && DeepChangeOf(differs, a, b, d.change.code) == Some(d.change)
          && AreChildChanges(differs, a, b, d.change.code, d.children))
    && (forall c :: c != "" && DeepChangeOf(differs, a, b, c).Some? ==> exists d :: d in changes && d.change.code == c)
    && forall i, j :: 0 <= i < j < |changes| ==> changes[i].change.code != changes[j].change.code
  }

  lemma NoChildChanges<T(!new)>(differs: Differs<T>, a: seq<Entity<T>>, b: seq<Entity<T>>, subs: seq<Change<T>>)
    requires IsLeafDiff(differs, a, b, subs)
    ensures subs == [] <==> !LeavesDiffer(differs, a, b)
  {
    hide ChangeOf;
    if subs != [] {
      assert subs[0] in subs;
    }
  }

  method CompareParents<T(!new)>(differs: Differs<T>, a: seq<Deep<T>>, b: seq<Deep<T>>) returns (changes: seq<DeepChange<T>>)
    ensures IsDeepDiff(differs, a, b, changes)
  {
    hide Last, DeepChangeOf, AreChildChanges, IsPartialDeepDiff;
    var oldMap := MapByCode(a);
    var newMap := MapByCode(b);
    var rest := oldMap.Keys + newMap.Keys;
    changes := [];
    DeepStart(differs, a, b, rest);
    while rest != {}
      invariant forall c :: c in rest ==> c in oldMap || c in newMap
      invariant IsPartialDeepDiff(differs, a, b, rest, changes)
    {
      ghost var some := SomeElement(rest);
      var code :| code in rest;
      ghost var before := rest;
      rest := rest - {code};
      if code == "" {
        DeepSkip(differs, a, b, before, changes, code);
        continue;
      }
      var d := CompareParentsAt(differs, a, b, oldMap, newMap, code);
      if d.Some? {
        DeepStep(differs, a, b, before, changes, d.value);
        changes := changes + [d.value];
      } else {
        DeepSkip(differs, a, b, before, changes, code);
      }
    }
    DeepEnd(differs, a, b, changes);
  }

  ghost predicate IsPartialDeepDiff<T(!new)>(differs: Differs<T>, a: seq<Deep<T>>, b: seq<Deep<T>>, rest: set<string>, changes: seq<DeepChange<T>>) {
    && (forall d :: d in changes ==>
          && d.change.code != "" && d.change.code !in rest
          && DeepChangeOf(differs, a, b, d.change.code) == Some(d.change)
          && AreChildChanges(differs, a, b, d.change.code, d.children))
    && (forall c :: c != "" && c !in rest && DeepChangeOf(differs, a, b, c).Some? ==> exists d :: d in changes && d.change.code == c)
    && forall i, j :: 0 <= i < j < |changes| ==> changes[i].change.code != changes[j].change.code
  }

  lemma DeepStart<T(!new)>(differs: Differs<T>, a: seq<Deep<T>>, b: seq<Deep<T>>, rest: set<string>)
    requires forall c :: Last(a, c).Some? || Last(b, c).Some? ==> c in rest
    ensures IsPartialDeepDiff(differs, a, b, rest, [])
  {
    forall c
      ensures DeepChangeOf(differs, a, b, c).Some? ==> c in rest
    {
      ChangeHasEntry(differs, a, b, c);
    }
    hide DeepChangeOf;
  }

  lemma DeepEnd<T(!new)>(differs: Differs<T>, a: seq<Deep<T>>, b: seq<Deep<T>>, changes: seq<DeepChange<T>>)
    requires IsPartialDeepDiff(differs, a, b, {}, changes)
    ensures IsDeepDiff(differs, a, b, changes)
  {
    hide DeepChangeOf, AreChildChanges;
  }

  lemma DeepSkip<T(!new)>(differs: Differs<T>, a: seq<Deep<T>>, b: seq<Deep<T>>, rest: set<string>, changes: seq<DeepChange<T>>, c: string)
    requires IsPartialDeepDiff(differs, a, b, rest, changes)
    requires c == "" || DeepChangeOf(differs, a, b, c).None?
    ensures IsPartialDeepDiff(differs, a, b, rest - {c}, changes)
  {
    hide DeepChangeOf, AreChildChanges;
  }

  lemma DeepStep<T(!new)>(differs: Differs<T>, a: seq<Deep<T>>, b: seq<Deep<T>>, rest: set<string>, changes: seq<DeepChange<T>>, d: DeepChange<T>)
    requires IsPartialDeepDiff(differs, a, b, rest, changes)
    requires d.change.code != "" && d.change.code in rest
    requires DeepChangeOf(differs, a, b, d.change.code) == Some(d.change)
    requires AreChildChanges(differs, a, b, d.change.code, d.children)
    ensures IsPartialDeepDiff(differs, a, b, rest - {d.change.code}, changes + [d])
  {
    hide DeepChangeOf, AreChildChanges;
    var longer := changes + [d];
    assert d in longer;
    forall e | e in changes
      ensures e in longer
    {
    }
  }

  lemma ChangeHasEntry<T(!new)>(differs: Differs<T>, a: seq<Deep<T>>, b: seq<Deep<T>>, c: string)
    ensures DeepChangeOf(differs, a, b, c).Some? ==> Last(a, c).Some? || Last(b, c).Some?
  {
  }

  method CompareParentsAt<T(!new)>(differs: Differs<T>, a: seq<Deep<T>>, b: seq<Deep<T>>,
                                   oldMap: map<string, Deep<T>>, newMap: map<string, Deep<T>>, code: string)
    returns (d: Option<DeepChange<T>>)
    requires forall c :: (c in oldMap <==> Last(a, c).Some?) && (c in newMap <==> Last(b, c).Some?)
    requires forall c :: c in oldMap ==> Last(a, c) == Some(oldMap[c])
    requires forall c :: c in newMap ==> Last(b, c) == Some(newMap[c])
    requires code in oldMap || code in newMap
    ensures DeepChangeOf(differs, a, b, code) == if d.Some? then Some(d.value.change) else None
    ensures d.Some? ==> d.value.change.code == code && AreChildChanges(differs, a, b, code, d.value.children)
  {
    hide Last, IsLeafDiff, LeavesDiffer;
    var oldOptions: seq<Entity<T>> := [];
    var newOptions: seq<Entity<T>> := [];
    if code in oldMap {
      oldOptions := oldMap[code].body;
    }
    if code in newMap {
      newOptions := newMap[code].body;
    }
    var subs := CompareLeaves(differs, oldOptions, newOptions);
    NoChildChanges(differs, oldOptions, newOptions, subs);
    if code !in oldMap && code in newMap {
      return Some(DeepChange(Added(code, newMap[code]), subs));
    } else if code in oldMap && code !in newMap {
      return Some(DeepChange(Deleted(code, oldMap[code]), subs));
    }
    if oldMap[code].name.Get() != newMap[code].name.Get() || subs != [] {
      return Some(DeepChange(Modified(code, oldMap[code], newMap[code]), subs));
    }
    return None;
  }

  // ----- roles: compared by name, present or not -----

  datatype RoleChange = RoleAdded(name: string, code: string) | RoleDeleted(name: string, code: string)

  function RoleChangeOf(a: seq<Entity<string>>, b: seq<Entity<string>>, n: string): Option<RoleChange> {
    var before, now := Named(a, n), Named(b, n);
    if before.None? && now.Some? then Some(RoleAdded(n, now.value.code.Get()))
    else if before.Some? && now.None? then Some(RoleDeleted(n, before.value.code.Get()))
    else None
  }

  ghost predicate IsRoleDiff(a: seq<Entity<string>>, b: seq<Entity<string>>, changes: seq<RoleChange>) {
    && (forall ch :: ch in changes ==> ch.name != "" && RoleChangeOf(a, b, ch.name) == Some(ch))
    && (forall n :: n != "" && RoleChangeOf(a, b, n).Some? ==> RoleChangeOf(a, b, n).value in changes)
    && forall i, j :: 0 <= i < j < |changes| ==> changes[i].name != changes[j].name
  }

  method CompareRoles(a: seq<Entity<string>>, b: seq<Entity<string>>) returns (changes: seq<RoleChange>)
    ensures IsRoleDiff(a, b, changes)
  {
    hide Named;
    var oldMap := MapByName(a);
    var newMap := MapByName(b);
    var rest := oldMap.Keys + newMap.Keys;
    changes := [];
    while rest != {}
      invariant forall n :: n in rest ==> n in oldMap || n in newMap
      invariant IsPartialRoleDiff(a, b, rest, changes)
    {
      ghost var some := SomeElement(rest);
      var n :| n in rest;
      RoleStep(a, b, rest, changes, n);
      rest := rest - {n};
      hide IsPartialRoleDiff;
      var code := if n in oldMap then oldMap[n].code.Get() else newMap[n].code.Get();
      if n !in oldMap && n in newMap {
        changes := changes + [RoleAdded(n, code)];
      } else if n in oldMap && n !in newMap {
        changes := changes + [RoleDeleted(n, code)];
      }
    }
  }

  ghost predicate IsPartialRoleDiff(a: seq<Entity<string>>, b: seq<Entity<string>>, rest: set<string>, changes: seq<RoleChange>) {
    && (forall ch :: ch in changes ==> ch.name != "" && ch.name !in rest && RoleChangeOf(a, b, ch.name) == Some(ch))
    && (forall n :: n != "" && n !in rest && RoleChangeOf(a, b, n).Some? ==> RoleChangeOf(a, b, n).value in changes)
    && forall i, j :: 0 <= i < j < |changes| ==> changes[i].name != changes[j].name
  }

  lemma RoleStep(a: seq<Entity<string>>, b: seq<Entity<string>>, rest: set<string>, changes: seq<RoleChange>, n: string)
    requires IsPartialRoleDiff(a, b, rest, changes) && n in rest && n != ""
    ensures var ch := RoleChangeOf(a, b, n);
            IsPartialRoleDiff(a, b, rest - {n}, if ch.Some? then changes + [ch.value] else changes)
  {
    hide Named;
  }

  // ----- the whole difference -----

  datatype ConfigChanges = ConfigChanges(
    hasChanges: bool, roles: seq<RoleChange>, dicts: seq<DeepChange<string>>, models: seq<DeepChange<FieldBody>>)

  ghost predicate IsConfigDiff(a: Config, b: Config, d: ConfigChanges) {
    && IsRoleDiff(a.roles, b.roles, d.roles)
    && IsDeepDiff(ChoicesDiffer, a.dicts, b.dicts, d.dicts)
    && IsDeepDiff(FieldsDiffer, a.models, b.models, d.models)
    && (d.hasChanges <==> d.roles != [] || d.dicts != [] || d.models != [])
  }

  method ComputeConfigDiff(was: Config, cur: Config) returns (d: ConfigChanges, normalized: Config)
    ensures normalized == InheritCodes(was, cur)
    ensures IsConfigDiff(was, normalized, d)
  {
    hide InheritCodes, IsRoleDiff, IsDeepDiff;
    normalized := InheritCodesFromOld(was, cur);
    var roles := CompareRoles(was.roles, normalized.roles);
    var dicts := CompareParents(ChoicesDiffer, was.dicts, normalized.dicts);
    var models := CompareParents(FieldsDiffer, was.models, normalized.models);
    d := ConfigChanges(roles != [] || dicts != [] || models != [], roles, dicts, models);
  }

  // ----- replaying a difference -----

  function Without<T>(s: seq<Entity<T>>, c: string): seq<Entity<T>> {
    if s == [] then []
    else Without(s[..|s| - 1], c) + (if s[|s| - 1].code.Get() == c then [] else [s[|s| - 1]])
  }

  function Replaced<T>(s: seq<Entity<T>>, c: string, e: Entity<T>): seq<Entity<T>> {
    if s == [] then []
    else Replaced(s[..|s| - 1], c, e) + [if s[|s| - 1].code.Get() == c then e else s[|s| - 1]]
  }

  function ReplayOne<T>(s: seq<Entity<T>>, ch: Change<T>): seq<Entity<T>> {
    match ch
    case Added(_, now) => s + [now]
    case Deleted(c, _) => Without(s, c)
    case Modified(c, _, now) => Replaced(s, c, now)
  }

  function Replay<T>(s: seq<Entity<T>>, changes: seq<Change<T>>): seq<Entity<T>> {
    if changes == [] then s else ReplayOne(Replay(s, changes[..|changes| - 1]), changes[|changes| - 1])
  }

  // A modified parent is the old one under its new name, with the children's
  // changes replayed on the old children.
  function Patched<T>(d: DeepChange<T>): Change<seq<Entity<T>>> {
    match d.change
    case Modified(c, before, now) => Modified(c, before, Entity(now.name, now.code, Replay(before.body, d.children)))
    case other => other
  }

  function PatchedAll<T>(changes: seq<DeepChange<T>>): seq<Change<seq<Entity<T>>>> {
    seq(|changes|, i requires 0 <= i < |changes| => Patched(changes[i]))
  }

  function ReplayDeep<T>(s: seq<Deep<T>>, changes: seq<DeepChange<T>>): seq<Deep<T>> {
    Replay(s, PatchedAll(changes))
  }

  // What the entry with the change's code is afterwards.
  function Result<T>(ch: Change<T>): Option<Entity<T>> {
    match ch
    case Added(_, now) => Some(now)
    case Deleted(_, _) => None
    case Modified(_, _, now) => Some(now)
  }

  ghost predicate FitsCode<T>(ch: Change<T>) {
    Result(ch).Some? ==> Result(ch).value.code.Get() == ch.code
  }

  lemma LastSnoc<T>(s: seq<Entity<T>>, x: Entity<T>, c: string)
    ensures Last(s + [x], c) == if x.code.Get() == c then Some(x) else Last(s, c)
  {
    assert (s + [x])[..|s|] == s;
  }

  lemma {:induction false} WithoutEffect<T>(s: seq<Entity<T>>, c: string, k: string)
    ensures Last(Without(s, c), k) == if k == c then None else Last(s, k)
    decreases |s|
  {
    if s != [] {
      var n := |s| - 1;
      var r := Without(s[..n], c);
      WithoutEffect(s[..n], c, k);
      LastSnoc(r, s[n], k);
      assert r + [] == r;
    }
  }

  lemma {:induction false} ReplacedEffect<T>(s: seq<Entity<T>>, c: string, e: Entity<T>, k: string)
    requires e.code.Get() == c && Last(s, c).Some?
    ensures Last(Replaced(s, c, e), k) == if k == c then Some(e) else Last(s, k)
    decreases |s|
  {
    var n := |s| - 1;
    var r := Replaced(s[..n], c, e);
    if Last(s[..n], c).Some? {
      ReplacedEffect(s[..n], c, e, k);
    } else {
      ReplacedNothing(s[..n], c, e);
    }
    LastSnoc(r, if s[n].code.Get() == c then e else s[n], k);
  }

  lemma {:induction false} ReplacedNothing<T>(s: seq<Entity<T>>, c: string, e: Entity<T>)
    requires Last(s, c).None?
    ensures Replaced(s, c, e) == s
    decreases |s|
  {
    if s != [] {
      ReplacedNothing(s[..|s| - 1], c, e);
    }
  }

  ghost predicate Touches<T>(changes: seq<Change<T>>, c: string) {
    exists ch :: ch in changes && ch.code == c
  }

  // After a replay, an entry is the result of its own change, if it has one,
  // and otherwise what it was.
  lemma {:induction false} ReplayEffect<T>(s: seq<Entity<T>>, changes: seq<Change<T>>, c: string)
    requires forall ch :: ch in changes ==> FitsCode(ch) && (ch.Modified? ==> Last(s, ch.code).Some?)
    requires forall i, j :: 0 <= i < j < |changes| ==> changes[i].code != changes[j].code
    ensures !Touches(changes, c) ==> Last(Replay(s, changes), c) == Last(s, c)
    ensures forall ch :: ch in changes && ch.code == c ==> Last(Replay(s, changes), c) == Result(ch)
    decreases |changes|
  {
    hide Last, Replaced, Without;
    if changes != [] {
      var n := |changes| - 1;
      var ch := changes[n];
      assert changes == changes[..n] + [ch];
      ReplayEffect(s, changes[..n], c);
      ReplayEffect(s, changes[..n], ch.code);
      var r := Replay(s, changes[..n]);
      assert !Touches(changes[..n], ch.code);
      match ch {
        case Added(_, now) => LastSnoc(r, now, c);
        case Deleted(k, _) => WithoutEffect(r, k, c);
        case Modified(k, _, now) => ReplacedEffect(r, k, now, c);
      }
    }
  }

  // Replaying a one-level difference on the old entries leaves no difference
  // from the new ones.
  lemma LeafReplayConverges<T(!new)>(differs: Differs<T>, a: seq<Entity<T>>, b: seq<Entity<T>>, changes: seq<Change<T>>)
    requires IsLeafDiff(differs, a, b, changes) && forall e :: !differs(e, e)
    ensures !LeavesDiffer(differs, Replay(a, changes), b)
  {
    hide Last, Replay;
    var r := Replay(a, changes);
    forall c | c != ""
      ensures ChangeOf(differs, r, b, c).None?
    {
      ReplayEffect(a, changes, c);
      if ChangeOf(differs, a, b, c).Some? {
        assert ChangeOf(differs, a, b, c).value in changes;
      } else {
        assert !Touches(changes, c);
      }
    }
  }

  ghost predicate DeepDiffers<T(!new)>(differs: Differs<T>, a: seq<Deep<T>>, b: seq<Deep<T>>) {
    exists c :: c != "" && DeepChangeOf(differs, a, b, c).Some?
  }

  lemma SameLeaves<T(!new)>(differs: Differs<T>, a: seq<Entity<T>>)
    requires forall e :: !differs(e, e)
    ensures !LeavesDiffer(differs, a, a)
  {
  }

  // The same for two levels, with the children's changes replayed inside each
  // modified parent.
  lemma DeepReplayConverges<T(!new)>(differs: Differs<T>, a: seq<Deep<T>>, b: seq<Deep<T>>, changes: seq<DeepChange<T>>)
    requires IsDeepDiff(differs, a, b, changes) && forall e :: !differs(e, e)
    ensures !DeepDiffers(differs, ReplayDeep(a, changes), b)
  {
    hide DeepChangeOf, IsDeepDiff;
    var r := ReplayDeep(a, changes);
    forall c | c != ""
      ensures DeepChangeOf(differs, r, b, c).None?
    {
      if DeepChangeOf(differs, a, b, c).Some? {
        ChangedReplayed(differs, a, b, changes, c);
      } else {
        UnchangedReplayed(differs, a, b, changes, c);
      }
    }
  }

  lemma ChangesFit<T(!new)>(differs: Differs<T>, a: seq<Deep<T>>, b: seq<Deep<T>>, changes: seq<DeepChange<T>>)
    requires IsDeepDiff(differs, a, b, changes)
    ensures forall ch :: ch in PatchedAll(changes) ==> FitsCode(ch) && (ch.Modified? ==> Last(a, ch.code).Some?)
    ensures forall i, j :: 0 <= i < j < |PatchedAll(changes)| ==> PatchedAll(changes)[i].code != PatchedAll(changes)[j].code
  {
    hide Last, Replay, LeavesDiffer, IsLeafDiff;
    var flat := PatchedAll(changes);
    forall ch | ch in flat
      ensures FitsCode(ch) && (ch.Modified? ==> Last(a, ch.code).Some?)
    {
      var i :| 0 <= i < |flat| && flat[i] == ch;
      assert changes[i] in changes;
    }
    forall i, j | 0 <= i < j < |flat|
      ensures flat[i].code != flat[j].code
    {
      assert changes[i] in changes && changes[j] in changes;
    }
  }

  lemma ChangedReplayed<T(!new)>(differs: Differs<T>, a: seq<Deep<T>>, b: seq<Deep<T>>, changes: seq<DeepChange<T>>, c: string)
    requires IsDeepDiff(differs, a, b, changes) && forall e :: !differs(e, e)
    requires c != "" && DeepChangeOf(differs, a, b, c).Some?
    ensures DeepChangeOf(differs, ReplayDeep(a, changes), b, c).None?
  {
    hide Last, Replay, LeavesDiffer, IsLeafDiff;
    var flat := PatchedAll(changes);
    ChangesFit(differs, a, b, changes);
    ReplayEffect(a, flat, c);
    var d :| d in changes && d.change.code == c;
    var i :| 0 <= i < |changes| && changes[i] == d;
    assert flat[i] == Patched(d) && flat[i] in flat;
    ParentReplayed(differs, a, b, d);
  }

  lemma UnchangedReplayed<T(!new)>(differs: Differs<T>, a: seq<Deep<T>>, b: seq<Deep<T>>, changes: seq<DeepChange<T>>, c: string)
    requires IsDeepDiff(differs, a, b, changes)
    requires c != "" && DeepChangeOf(differs, a, b, c).None?
    ensures DeepChangeOf(differs, ReplayDeep(a, changes), b, c).None?
  {
    hide Last, Replay, LeavesDiffer, IsLeafDiff;
    var flat := PatchedAll(changes);
    ChangesFit(differs, a, b, changes);
    ReplayEffect(a, flat, c);
    forall ch | ch in flat
      ensures ch.code != c
    {
      var i :| 0 <= i < |flat| && flat[i] == ch;
      assert changes[i] in changes;
    }
    assert !Touches(flat, c);
  }

  lemma ParentReplayed<T(!new)>(differs: Differs<T>, a: seq<Deep<T>>, b: seq<Deep<T>>, d: DeepChange<T>)
    requires forall e :: !differs(e, e)
    requires d.change.code != "" && DeepChangeOf(differs, a, b, d.change.code) == Some(d.change)
    requires AreChildChanges(differs, a, b, d.change.code, d.children)
    ensures Patched(d).code == d.change.code
    ensures match Last(b, d.change.code)
            case None => Result(Patched(d)).None?
            case Some(y) => Result(Patched(d)).Some? && !ParentsDiffer(differs, Result(Patched(d)).value, y)
  {
    hide Last, Replay, LeavesDiffer, IsLeafDiff;
    match d.change {
      case Added(_, now) => SameLeaves(differs, now.body);
      case Deleted(_, _) =>
      case Modified(_, before, now) => LeafReplayConverges(differs, before.body, now.body, d.children);
    }
  }

  // The computed difference, replayed on the old configuration, leaves nothing
  // to report against the new one.
  lemma ConfigReplayConverges(was: Config, cur: Config, d: ConfigChanges)
    requires IsConfigDiff(was, cur, d)
    ensures !DeepDiffers(ChoicesDiffer, ReplayDeep(was.dicts, d.dicts), cur.dicts)
    ensures !DeepDiffers(FieldsDiffer, ReplayDeep(was.models, d.models), cur.models)
  {
    hide DeepDiffers, IsDeepDiff, ReplayDeep;
    ComparersIgnoreCode();
    DeepReplayConverges(ChoicesDiffer, was.dicts, cur.dicts, d.dicts);
    DeepReplayConverges(FieldsDiffer, was.models, cur.models, d.models);
  }

  // ----- what inheritance does to codes -----

  lemma SetGet(k: Key, v: string)
    ensures k.Present() ==> k.Set(v).Get() == v
    ensures !k.Present() ==> k.Set(v) == k
    ensures k.Set(v).Set(v) == k.Set(v)
  {
  }

  lemma InheritOneTwice<T>(was: seq<Entity<T>>, e: Entity<T>)
    ensures InheritOne(was, InheritOne(was, e)) == InheritOne(was, e)
    ensures InheritOne(was, e).name == e.name && InheritOne(was, e).body == e.body
  {
  }

  lemma InheritTwice<T>(was: seq<Entity<T>>, cur: seq<Entity<T>>)
    ensures Inherit(was, Inherit(was, cur)) == Inherit(was, cur)
  {
    hide InheritOne;
    forall i | 0 <= i < |cur| {
      InheritOneTwice(was, cur[i]);
    }
  }

  lemma InheritDeepTwice<T>(was: seq<Deep<T>>, cur: seq<Deep<T>>)
    ensures InheritDeep(was, InheritDeep(was, cur)) == InheritDeep(was, cur)
  {
    hide InheritOne, Named, Inherit;
    forall i | 0 <= i < |cur|
      ensures InheritChildren(was, InheritOne(was, InheritChildren(was, InheritOne(was, cur[i])))) ==
              InheritChildren(was, InheritOne(was, cur[i]))
    {
      var once := InheritOne(was, cur[i]);
      InheritOneTwice(was, cur[i]);
      InheritOneIgnoresBody(was, once, InheritChildren(was, once).body);
      var n := once.name.Get();
      if Named(was, n).Some? {
        InheritTwice(Named(was, n).value.body, once.body);
      }
    }
  }

  lemma InheritOneIgnoresBody<T>(was: seq<Entity<T>>, e: Entity<T>, body: T)
    ensures InheritOne(was, e.(body := body)) == InheritOne(was, e).(body := body)
  {
  }

  // Inheriting a second time changes nothing.
  lemma InheritanceIsIdempotent(was: Config, cur: Config)
    ensures InheritCodes(was, InheritCodes(was, cur)) == InheritCodes(was, cur)
  {
    hide Inherit, InheritDeep;
    InheritTwice(was.roles, cur.roles);
    InheritDeepTwice(was.dicts, cur.dicts);
    InheritDeepTwice(was.models, cur.models);
  }

  // ----- changes of codes alone are hidden -----

  ghost predicate UniqueNames<T>(s: seq<Entity<T>>) {
    forall i, j :: 0 <= i < j < |s| ==> s[i].name.Get() != s[j].name.Get()
  }

  // Position by position the names are the same, the old code is there to be
  // inherited and the new entry has a code to overwrite.
  ghost predicate SameNames<T>(a: seq<Entity<T>>, b: seq<Entity<T>>) {
    && |a| == |b|
    && UniqueNames(a)
    && forall i :: 0 <= i < |a| ==>
         a[i].name.Get() == b[i].name.Get() != "" && a[i].code.Get() != "" && b[i].code.Present()
  }

  ghost predicate IgnoresCode<T(!new)>(differs: Differs<T>) {
    forall x: Entity<T>, y: Entity<T>, k: Key :: differs(x, Entity(y.name, k, y.body)) == differs(x, y)
  }

  ghost predicate CodeOnly<T>(differs: Differs<T>, a: seq<Entity<T>>, b: seq<Entity<T>>) {
    SameNames(a, b) && forall i :: 0 <= i < |a| ==> !differs(a[i], b[i])
  }

  ghost predicate CodeOnlyDeep<T>(differs: Differs<T>, a: seq<Deep<T>>, b: seq<Deep<T>>) {
    SameNames(a, b) && forall i :: 0 <= i < |a| ==> CodeOnly(differs, a[i].body, b[i].body)
  }

  lemma {:induction false} NamedUnique<T>(s: seq<Entity<T>>, i: nat)
    requires UniqueNames(s) && i < |s|
    ensures Named(s, s[i].name.Get()) == Some(s[i])
    decreases |s|
  {
    if i < |s| - 1 {
      NamedUnique(s[..|s| - 1], i);
    }
  }

  lemma InheritsAll<T>(a: seq<Entity<T>>, b: seq<Entity<T>>, i: nat)
    requires SameNames(a, b) && i < |a|
    ensures InheritOne(a, b[i]) == b[i].(code := b[i].code.Set(a[i].code.Get()))
    ensures InheritOne(a, b[i]).code.Get() == a[i].code.Get()
  {
    NamedUnique(a, i);
    SetGet(b[i].code, a[i].code.Get());
  }

  // Lists with the same codes position by position look codes up alike.
  lemma {:induction false} LastParallel<T>(a: seq<Entity<T>>, b: seq<Entity<T>>, c: string)
    requires |a| == |b| && forall i :: 0 <= i < |a| ==> a[i].code.Get() == b[i].code.Get()
    ensures Last(a, c).None? ==> Last(b, c).None?
    ensures Last(a, c).Some? ==> exists i :: 0 <= i < |a| && Last(a, c) == Some(a[i]) && Last(b, c) == Some(b[i])
    decreases |a|
  {
    if a != [] {
      var n := |a| - 1;
      LastParallel(a[..n], b[..n], c);
      if a[n].code.Get() == c {
        assert Last(a, c) == Some(a[n]) && Last(b, c) == Some(b[n]);
      } else if Last(a[..n], c).Some? {
        var i :| 0 <= i < n && Last(a[..n], c) == Some(a[..n][i]) && Last(b[..n], c) == Some(b[..n][i]);
        assert Last(a, c) == Some(a[i]) && Last(b, c) == Some(b[i]);
      }
    }
  }

  lemma CodeOnlyIsHidden<T(!new)>(differs: Differs<T>, a: seq<Entity<T>>, b: seq<Entity<T>>)
    requires CodeOnly(differs, a, b) && IgnoresCode(differs)
    ensures !LeavesDiffer(differs, a, Inherit(a, b))
  {
    hide Last, InheritOne;
    var r := Inherit(a, b);
    forall i | 0 <= i < |a|
      ensures a[i].code.Get() == r[i].code.Get() && !differs(a[i], r[i])
    {
      InheritsAll(a, b, i);
    }
    forall c | c != ""
      ensures ChangeOf(differs, a, r, c).None?
    {
      LastParallel(a, r, c);
    }
  }

  lemma CodeOnlyDeepIsHidden<T(!new)>(differs: Differs<T>, a: seq<Deep<T>>, b: seq<Deep<T>>)
    requires CodeOnlyDeep(differs, a, b) && IgnoresCode(differs)
    ensures !DeepDiffers(differs, a, InheritDeep(a, b))
  {
    hide Last, InheritOne, LeavesDiffer, Inherit, IgnoresCode;
    var r := InheritDeep(a, b);
    forall i | 0 <= i < |a|
      ensures a[i].code.Get() == r[i].code.Get() && !ParentsDiffer(differs, a[i], r[i])
    {
      InheritsAll(a, b, i);
      NamedUnique(a, i);
      CodeOnlyIsHidden(differs, a[i].body, b[i].body);
    }
    forall c | c != ""
      ensures DeepChangeOf(differs, a, r, c).None?
    {
      LastParallel(a, r, c);
    }
  }

  lemma {:induction false} NamedParallel<T>(a: seq<Entity<T>>, b: seq<Entity<T>>, n: string)
    requires |a| == |b| && forall i :: 0 <= i < |a| ==> a[i].name.Get() == b[i].name.Get()
    ensures Named(a, n).Some? <==> Named(b, n).Some?
    decreases |a|
  {
    if a != [] {
      NamedParallel(a[..|a| - 1], b[..|b| - 1], n);
    }
  }

  lemma ComparersIgnoreCode()
    ensures IgnoresCode(ChoicesDiffer) && IgnoresCode(FieldsDiffer)
    ensures forall e :: !ChoicesDiffer(e, e)
    ensures forall e :: !FieldsDiffer(e, e)
  {
  }

  // When only codes changed, on any level, the computed difference is empty.
  lemma CodeChangesAreHidden(was: Config, cur: Config, d: ConfigChanges)
    requires SameNames(was.roles, cur.roles)
    requires CodeOnlyDeep(ChoicesDiffer, was.dicts, cur.dicts) && CodeOnlyDeep(FieldsDiffer, was.models, cur.models)
    requires IsConfigDiff(was, InheritCodes(was, cur), d)
    ensures !d.hasChanges && d.roles == [] && d.dicts == [] && d.models == []
  {
    hide DeepDiffers, ChoicesDiffer, FieldsDiffer, IgnoresCode, InheritDeep, CodeOnlyDeep;
    var r := InheritCodes(was, cur);
    ComparersIgnoreCode();
    CodeOnlyDeepIsHidden(ChoicesDiffer, was.dicts, cur.dicts);
    CodeOnlyDeepIsHidden(FieldsDiffer, was.models, cur.models);
    NoDeepChanges(ChoicesDiffer, was.dicts, r.dicts, d.dicts);
    NoDeepChanges(FieldsDiffer, was.models, r.models, d.models);
    RoleNamesKept(was.roles, cur.roles);
    forall n
      ensures Named(was.roles, n).Some? <==> Named(r.roles, n).Some?
    {
      NamedParallel(was.roles, r.roles, n);
    }
    NoRoleChanges(was.roles, r.roles, d.roles);
  }

  lemma NoRoleChanges(a: seq<Entity<string>>, b: seq<Entity<string>>, changes: seq<RoleChange>)
    requires IsRoleDiff(a, b, changes)
    requires forall n :: Named(a, n).Some? <==> Named(b, n).Some?
    ensures changes == []
  {
    hide Named;
    if changes != [] {
      var n := changes[0].name;
      assert false;
    }
  }

  lemma RoleNamesKept<T>(was: seq<Entity<T>>, cur: seq<Entity<T>>)
    ensures forall i :: 0 <= i < |cur| ==> Inherit(was, cur)[i].name == cur[i].name
  {
  }

  lemma NoDeepChanges<T(!new)>(differs: Differs<T>, a: seq<Deep<T>>, b: seq<Deep<T>>, changes: seq<DeepChange<T>>)
    requires IsDeepDiff(differs, a, b, changes)
    ensures changes == [] <==> !DeepDiffers(differs, a, b)
  {
    hide DeepChangeOf, AreChildChanges;
    if changes != [] {
      assert changes[0] in changes;
    }
  }

  // ----- the same in any order -----

  ghost predicate DistinctCodes<T>(s: seq<Entity<T>>) {
    forall i, j :: 0 <= i < j < |s| && s[i].code.Get() != "" ==> s[i].code.Get() != s[j].code.Get()
  }

  // Both sides have the same names, in whatever order; every old code is there
  // to be inherited and every new entry has a code to overwrite.
  ghost predicate SameNamesAnyOrder<T>(a: seq<Entity<T>>, b: seq<Entity<T>>) {
    && UniqueNames(a) && UniqueNames(b) && DistinctCodes(a)
    && (forall x :: x in a ==> x.name.Get() != "" && x.code.Get() != "" && Named(b, x.name.Get()).Some?)
    && forall y :: y in b ==> y.code.Present() && Named(a, y.name.Get()).Some?
  }

  ghost predicate CodeOnlyAnyOrder<T>(differs: Differs<T>, a: seq<Entity<T>>, b: seq<Entity<T>>) {
    && SameNamesAnyOrder(a, b)
    && forall x :: x in a ==> !differs(x, Named(b, x.name.Get()).value)
  }

  ghost predicate CodeOnlyDeepAnyOrder<T>(differs: Differs<T>, a: seq<Deep<T>>, b: seq<Deep<T>>) {
    && SameNamesAnyOrder(a, b)
    && forall x :: x in a ==> CodeOnlyAnyOrder(differs, x.body, Named(b, x.name.Get()).value.body)
  }

  lemma {:induction false} CodeIsThere<T>(s: seq<Entity<T>>, e: Entity<T>)
    requires e in s
    ensures Last(s, e.code.Get()).Some?
    decreases |s|
  {
    if s[|s| - 1] != e {
      CodeIsThere(s[..|s| - 1], e);
    }
  }

  lemma OneEntryPerCode<T>(s: seq<Entity<T>>, x: Entity<T>, y: Entity<T>)
    requires DistinctCodes(s) && x in s && y in s && x.code.Get() == y.code.Get() != ""
    ensures x == y
  {
    var i :| 0 <= i < |s| && s[i] == x;
    var j :| 0 <= j < |s| && s[j] == y;
  }

  lemma OneEntryPerName<T>(s: seq<Entity<T>>, x: Entity<T>)
    requires UniqueNames(s) && x in s
    ensures Named(s, x.name.Get()) == Some(x)
  {
    var i :| 0 <= i < |s| && s[i] == x;
    NamedUnique(s, i);
  }

  // The new entries `r`, with the codes of their old namesakes: a code leads
  // to the namesake of the entry that it leads to among the old ones.
  lemma CodesFollowNames<T>(a: seq<Entity<T>>, b: seq<Entity<T>>, r: seq<Entity<T>>, c: string)
    requires SameNamesAnyOrder(a, b) && |r| == |b|
    requires forall i :: 0 <= i < |b| ==>
               Named(a, b[i].name.Get()).Some? && r[i].code.Get() == Named(a, b[i].name.Get()).value.code.Get()
    ensures Last(a, c).None? ==> Last(r, c).None?
    ensures Last(a, c).Some? ==>
              exists i :: 0 <= i < |b| && Last(r, c) == Some(r[i]) && Named(b, Last(a, c).value.name.Get()) == Some(b[i])
  {
    hide Last, Named, DistinctCodes, UniqueNames;
    if Last(r, c).Some? {
      var i :| 0 <= i < |r| && Last(r, c) == Some(r[i]);
      var o := Named(a, b[i].name.Get()).value;
      CodeIsThere(a, o);
      OneEntryPerCode(a, o, Last(a, c).value);
      OneEntryPerName(b, b[i]);
    } else if Last(a, c).Some? {
      var x := Last(a, c).value;
      OneEntryPerName(a, x);
      var i :| 0 <= i < |b| && b[i] == Named(b, x.name.Get()).value;
      CodeIsThere(r, r[i]);
      assert false;
    }
  }

  lemma InheritsByName<T>(a: seq<Entity<T>>, b: seq<Entity<T>>, i: nat)
    requires SameNamesAnyOrder(a, b) && i < |b|
    ensures Named(a, b[i].name.Get()).Some?
    ensures var k := Named(a, b[i].name.Get()).value.code.Get();
            && b[i].name.Get() != ""
            && InheritOne(a, b[i]) == b[i].(code := b[i].code.Set(k)) && InheritOne(a, b[i]).code.Get() == k
  {
    hide Named, DistinctCodes, UniqueNames;
    assert b[i] in b;
    SetGet(b[i].code, Named(a, b[i].name.Get()).value.code.Get());
  }

  lemma CodeOnlyIsHiddenAnyOrder<T(!new)>(differs: Differs<T>, a: seq<Entity<T>>, b: seq<Entity<T>>)
    requires CodeOnlyAnyOrder(differs, a, b) && IgnoresCode(differs)
    ensures !LeavesDiffer(differs, a, Inherit(a, b))
  {
    hide Last, Named, InheritOne, DistinctCodes, UniqueNames;
    var r := Inherit(a, b);
    forall i | 0 <= i < |b|
      ensures Named(a, b[i].name.Get()).Some? && r[i].code.Get() == Named(a, b[i].name.Get()).value.code.Get()
      ensures forall x :: differs(x, r[i]) == differs(x, b[i])
    {
      InheritsByName(a, b, i);
    }
    forall c | c != ""
      ensures ChangeOf(differs, a, r, c).None?
    {
      CodesFollowNames(a, b, r, c);
    }
  }

  lemma CodeOnlyDeepIsHiddenAnyOrder<T(!new)>(differs: Differs<T>, a: seq<Deep<T>>, b: seq<Deep<T>>)
    requires CodeOnlyDeepAnyOrder(differs, a, b) && IgnoresCode(differs)
    ensures !DeepDiffers(differs, a, InheritDeep(a, b))
  {
    hide Last, Named, InheritOne, DistinctCodes, UniqueNames, LeavesDiffer, Inherit, IgnoresCode, CodeOnlyAnyOrder;
    var r := InheritDeep(a, b);
    forall i | 0 <= i < |b|
      ensures Named(a, b[i].name.Get()).Some? && r[i].code.Get() == Named(a, b[i].name.Get()).value.code.Get()
      ensures r[i].name == b[i].name && r[i].body == Inherit(Named(a, b[i].name.Get()).value.body, b[i].body)
    {
      InheritsByName(a, b, i);
    }
    forall c | c != ""
      ensures DeepChangeOf(differs, a, r, c).None?
    {
      CodesFollowNames(a, b, r, c);
      if Last(a, c).Some? {
        var x := Last(a, c).value;
        OneEntryPerName(a, x);
        CodeOnlyIsHiddenAnyOrder(differs, x.body, Named(b, x.name.Get()).value.body);
      }
    }
  }

  lemma InheritKeepsNames<T>(was: seq<Entity<T>>, cur: seq<Entity<T>>, n: string)
    ensures Named(Inherit(was, cur), n).Some? <==> Named(cur, n).Some?
  {
    NamedParallel(Inherit(was, cur), cur, n);
  }

  // When only codes and the order of entries changed, on any level, the
  // computed difference is empty.
  lemma CodeChangesAreHiddenInAnyOrder(was: Config, cur: Config, d: ConfigChanges)
    requires forall n :: Named(was.roles, n).Some? <==> Named(cur.roles, n).Some?
    requires CodeOnlyDeepAnyOrder(ChoicesDiffer, was.dicts, cur.dicts)
    requires CodeOnlyDeepAnyOrder(FieldsDiffer, was.models, cur.models)
    requires IsConfigDiff(was, InheritCodes(was, cur), d)
    ensures !d.hasChanges && d.roles == [] && d.dicts == [] && d.models == []
  {
    hide DeepDiffers, ChoicesDiffer, FieldsDiffer, IgnoresCode, Inherit, InheritDeep, CodeOnlyDeepAnyOrder, Named;
    var r := InheritCodes(was, cur);
    ComparersIgnoreCode();
    CodeOnlyDeepIsHiddenAnyOrder(ChoicesDiffer, was.dicts, cur.dicts);
    CodeOnlyDeepIsHiddenAnyOrder(FieldsDiffer, was.models, cur.models);
    NoDeepChanges(ChoicesDiffer, was.dicts, r.dicts, d.dicts);
    NoDeepChanges(FieldsDiffer, was.models, r.models, d.models);
    forall n
      ensures Named(was.roles, n).Some? <==> Named(r.roles, n).Some?
    {
      InheritKeepsNames(was.roles, cur.roles, n);
    }
    NoRoleChanges(was.roles, r.roles, d.roles);
  }

  // ----- inheritance can make codes collide -----

  // The entry takes over the code of its old namesake.
  predicate Takes<T>(was: seq<Entity<T>>, e: Entity<T>) {
    && e.name.Get() != "" && e.code.Present()
    && Named(was, e.name.Get()).Some? && Named(was, e.name.Get()).value.code.Get() != ""
  }

  lemma InheritedCode<T>(was: seq<Entity<T>>, e: Entity<T>)
    ensures InheritOne(was, e).code.Get() ==
            if Takes(was, e) then Named(was, e.name.Get()).value.code.Get() else e.code.Get()
  {
    hide Named;
    if Named(was, e.name.Get()).Some? {
      SetGet(e.code, Named(was, e.name.Get()).value.code.Get());
    }
  }

  // The code that `x` inherits is the own code of `y`, which inherits nothing.
  predicate Clashes<T>(was: seq<Entity<T>>, x: Entity<T>, y: Entity<T>) {
    Takes(was, x) && !Takes(was, y) && Named(was, x.name.Get()).value.code.Get() == y.code.Get()
  }

  // Two new entries with one name both take over the code of the old namesake.
  ghost predicate Namesakes<T>(was: seq<Entity<T>>, cur: seq<Entity<T>>, i: nat, j: nat)
    requires i < j < |cur|
  {
    Takes(was, cur[i]) && Takes(was, cur[j]) && cur[i].name.Get() == cur[j].name.Get()
  }

  // Distinct codes stay distinct exactly when no inherited code is already
  // the code of a new entry that inherits nothing, and no two new entries
  // inherit from one old entry.
  lemma InheritedCodesDistinct<T>(was: seq<Entity<T>>, cur: seq<Entity<T>>)
    requires DistinctCodes(was) && DistinctCodes(cur)
    ensures DistinctCodes(Inherit(was, cur)) <==>
            && (forall x, y :: x in cur && y in cur ==> !Clashes(was, x, y))
            && (forall i, j :: 0 <= i < j < |cur| ==> !Namesakes(was, cur, i, j))
  {
    hide Named, InheritOne, Takes;
    var r := Inherit(was, cur);
    forall i | 0 <= i < |cur| {
      InheritedCode(was, cur[i]);
    }
    if (forall x, y :: x in cur && y in cur ==> !Clashes(was, x, y))
       && (forall i, j :: 0 <= i < j < |cur| ==> !Namesakes(was, cur, i, j)) {
      forall i, j | 0 <= i < j < |r| && r[i].code.Get() != ""
        ensures r[i].code.Get() != r[j].code.Get()
      {
        assert !Clashes(was, cur[i], cur[j]) && !Clashes(was, cur[j], cur[i]);
        assert !Namesakes(was, cur, i, j);
        if Takes(was, cur[i]) && Takes(was, cur[j]) {
          TwoTakers(was, cur[i], cur[j]);
        }
      }
    }
    if DistinctCodes(r) {
      forall x, y | x in cur && y in cur
        ensures !Clashes(was, x, y)
      {
        var i :| 0 <= i < |cur| && cur[i] == x;
        var j :| 0 <= j < |cur| && cur[j] == y;
        if Takes(was, x) && !Takes(was, y) {
          TakerHasCode(was, x);
          assert r[i].code.Get() != "" && i != j;
          assert i < j ==> r[i].code.Get() != r[j].code.Get();
          assert j < i ==> r[j].code.Get() == "" || r[j].code.Get() != r[i].code.Get();
        }
      }
      forall i, j | 0 <= i < j < |cur|
        ensures !Namesakes(was, cur, i, j)
      {
        if Takes(was, cur[i]) && Takes(was, cur[j]) {
          TakerHasCode(was, cur[i]);
          assert r[i].code.Get() != r[j].code.Get();
        }
      }
    }
  }

  lemma TakerHasCode<T>(was: seq<Entity<T>>, e: Entity<T>)
    requires Takes(was, e)
    ensures Named(was, e.name.Get()).Some? && Named(was, e.name.Get()).value.code.Get() != ""
  {
  }

  lemma TwoTakers<T>(was: seq<Entity<T>>, x: Entity<T>, y: Entity<T>)
    requires DistinctCodes(was) && Takes(was, x) && Takes(was, y) && x.name.Get() != y.name.Get()
    ensures Named(was, x.name.Get()).value.code.Get() != Named(was, y.name.Get()).value.code.Get()
  {
    hide Named;
    var a, b := Named(was, x.name.Get()).value, Named(was, y.name.Get()).value;
    var i :| 0 <= i < |was| && was[i] == a;
    var j :| 0 <= j < |was| && was[j] == b;
  }

  // A new entry under a code that its neighbour inherits hides that neighbour:
  // the old entry is reported as renamed and nothing is reported as added.
  lemma CollisionLosesAnEntry(was: Choice, kept: Choice, added: Choice)
    requires was.name.Get() != "" && was.code.Get() != ""
    requires kept.name.Get() == was.name.Get() && kept.code.Present()
    requires added.name.Get() != was.name.Get() && added.code.Get() == was.code.Get()
    ensures var r := Inherit([was], [kept, added]);
            forall c :: c != "" ==>
              ChangeOf(ChoicesDiffer, [was], r, c) ==
              if c == was.code.Get() then Some(Modified(c, was, added)) else None
  {
    assert [was][..0] == [];
    var r := Inherit([was], [kept, added]);
    assert Named([was], was.name.Get()) == Some(was);
    assert Named([was], added.name.Get()).None?;
    SetGet(kept.code, was.code.Get());
    assert r == [kept.(code := kept.code.Set(was.code.Get())), added];
    assert r[..1] == [r[0]] && r[..1][..0] == [];
    forall c | c != ""
      ensures ChangeOf(ChoicesDiffer, [was], r, c) ==
              if c == was.code.Get() then Some(Modified(c, was, added)) else None
    {
      assert Last(r, c) == if c == was.code.Get() then Some(added) else None;
      assert Last([was], c) == if c == was.code.Get() then Some(was) else None;
    }
  }

  // Two new entries under the name of an old one both take its code, and the
  // last one stands for both: the difference shows no other entry.
  lemma NamesakesLoseAnEntry(was: Choice, one: Choice, two: Choice)
    requires was.name.Get() != "" && was.code.Get() != ""
    requires one.name.Get() == two.name.Get() == was.name.Get() && one.code.Present() && two.code.Present()
    requires one.code.Get() != two.code.Get()
    ensures DistinctCodes([was]) && DistinctCodes([one, two])
    ensures !DistinctCodes(Inherit([was], [one, two]))
    ensures forall c :: c != "" ==> ChangeOf(ChoicesDiffer, [was], Inherit([was], [one, two]), c).None?
  {
    assert [was][..0] == [];
    var r := Inherit([was], [one, two]);
    assert Named([was], was.name.Get()) == Some(was);
    SetGet(one.code, was.code.Get());
    SetGet(two.code, was.code.Get());
    assert r == [one.(code := one.code.Set(was.code.Get())), two.(code := two.code.Set(was.code.Get()))];
    assert r[0].code.Get() == r[1].code.Get() == was.code.Get();
    assert r[..1] == [r[0]] && r[..1][..0] == [];
    forall c | c != ""
      ensures ChangeOf(ChoicesDiffer, [was], r, c).None?
    {
      assert Last(r, c) == if c == was.code.Get() then Some(r[1]) else None;
      assert Last([was], c) == if c == was.code.Get() then Some(was) else None;
    }
  }
}
