// Comparing two configurations by code, turning the difference into patch
// actions, and applying the actions by name (backend/app/doc_differ.py:42-272).
module DocDiffer {
  import opened Basics

  // What models, fields, dictionaries and roles have in common. A missing or
  // empty code is "".
  datatype Named<T> = Named(name: Option<string>, code: string, body: T) {
    // `get("name", "")`
    function NameOrEmpty(): string {
      if name.Some? then name.value else ""
    }
  }

  datatype FieldBody = FieldBody(fieldType: string, dict: string, ref: string, rest: string)
  type Field = Named<FieldBody>

  datatype ModelBody = ModelBody(fields: seq<Field>, rest: string)
  type Model = Named<ModelBody>

  // Options that are not dictionaries are ignored by the comparison.
  datatype Choice = NotADict | Choice(code: string, text: string)
  type DictDef = Named<seq<Choice>>
  type Role = Named<string>

  datatype Config = Config(models: seq<Model>, dicts: seq<DictDef>, roles: seq<Role>)

  // ----- the code-keyed dictionary of a list -----

  // `{x["code"]: x for x in list}`: the last entry with a code wins.
  function Last<T>(s: seq<Named<T>>, c: string): (r: Option<Named<T>>)
    ensures r.Some? ==> r.value.code == c && r.value in s
  {
    if s == [] then None
    else if s[|s| - 1].code == c then Some(s[|s| - 1])
    else Last(s[..|s| - 1], c)
  }

  // Its keys, in the order of their first entry; entries without a code are
  // left out.
  function Codes<T>(s: seq<Named<T>>): seq<string> {
    if s == [] then []
    else
      var front, c := Codes(s[..|s| - 1]), s[|s| - 1].code;
      if c == "" || c in front then front else front + [c]
  }

  method BuildMap<T>(s: seq<Named<T>>) returns (order: seq<string>, byCode: map<string, Named<T>>)
    ensures order == Codes(s)
    ensures forall c :: c in byCode <==> c in order
    ensures forall c :: c in byCode ==> Last(s, c) == Some(byCode[c])
  {
    order, byCode := [], map[];
    for i := 0 to |s|
      invariant order == Codes(s[..i])
      invariant forall c :: c in byCode <==> c in order
      invariant forall c :: c in byCode ==> c != "" && Last(s[..i], c) == Some(byCode[c])
    {
      assert s[..i + 1][..i] == s[..i];
      if s[i].code != "" {
        if s[i].code !in byCode {
          order := order + [s[i].code];
        }
        byCode := byCode[s[i].code := s[i]];
      }
    }
    assert s[..|s|] == s;
  }

  lemma {:induction false} CodesAreKeys<T>(s: seq<Named<T>>, c: string)
    ensures c in Codes(s) <==> c != "" && Last(s, c).Some?
  {
    if s != [] {
      CodesAreKeys(s[..|s| - 1], c);
    }
  }

  // ----- the comparison of one level -----

  datatype Pair<T> = Pair(before: Named<T>, after: Named<T>)

  // Entries of `b`, by code, that `a` has no entry for.
  function NewOf<T>(codes: seq<string>, a: seq<Named<T>>, b: seq<Named<T>>): seq<Named<T>> {
    if codes == [] then []
    else
      var c := codes[|codes| - 1];
      NewOf(codes[..|codes| - 1], a, b)
      + (if Last(a, c).None? && Last(b, c).Some? then [Last(b, c).value] else [])
  }

  function New<T>(a: seq<Named<T>>, b: seq<Named<T>>): seq<Named<T>> {
    NewOf(Codes(b), a, b)
  }

  // Pairs of entries with the same code, in the order of `b`.
  function BothOf<T>(codes: seq<string>, a: seq<Named<T>>, b: seq<Named<T>>): seq<Pair<T>> {
    if codes == [] then []
    else
      var c := codes[|codes| - 1];
      BothOf(codes[..|codes| - 1], a, b)
      + (if Last(a, c).Some? && Last(b, c).Some? then [Pair(Last(a, c).value, Last(b, c).value)] else [])
  }

  function Both<T>(a: seq<Named<T>>, b: seq<Named<T>>): seq<Pair<T>> {
    BothOf(Codes(b), a, b)
  }

  lemma CodeSteps<T>(codes: seq<string>, i: nat, a: seq<Named<T>>, b: seq<Named<T>>)
    requires i < |codes|
    ensures NewOf(codes[..i + 1], a, b) == NewOf(codes[..i], a, b)
              + (if Last(a, codes[i]).None? && Last(b, codes[i]).Some? then [Last(b, codes[i]).value] else [])
    ensures BothOf(codes[..i + 1], a, b) == BothOf(codes[..i], a, b)
              + (if Last(a, codes[i]).Some? && Last(b, codes[i]).Some? then [Pair(Last(a, codes[i]).value, Last(b, codes[i]).value)] else [])
  {
    hide Last;
    assert codes[..i + 1][..i] == codes[..i];
  }

  lemma NoSteps<T>(a: seq<Named<T>>, b: seq<Named<T>>)
    ensures NewOf([], a, b) == [] && BothOf([], a, b) == []
  {
  }

  method Compare<T>(a: seq<Named<T>>, b: seq<Named<T>>)
    returns (added: seq<Named<T>>, both: seq<Pair<T>>, removed: seq<Named<T>>)
    ensures added == New(a, b) && both == Both(a, b) && removed == New(b, a)
  {
    hide Last, Codes, NewOf, BothOf;
    var aOrder, aMap := BuildMap(a);
    var bOrder, bMap := BuildMap(b);
    added, both, removed := [], [], [];
    NoSteps(a, b);
    NoSteps(b, a);
    for i := 0 to |bOrder|
      invariant added == NewOf(bOrder[..i], a, b) && both == BothOf(bOrder[..i], a, b)
    {
      var c := bOrder[i];
      CodesAreKeys(a, c);
      CodesAreKeys(b, c);
      CodeSteps(bOrder, i, a, b);
      if c !in aMap {
        added := added + [bMap[c]];
      } else {
        both := both + [Pair(aMap[c], bMap[c])];
      }
    }
    assert bOrder[..|bOrder|] == bOrder;
    for i := 0 to |aOrder|
      invariant removed == NewOf(aOrder[..i], b, a)
    {
      var c := aOrder[i];
      CodesAreKeys(a, c);
      CodesAreKeys(b, c);
      CodeSteps(aOrder, i, b, a);
      if c !in bMap {
        removed := removed + [aMap[c]];
      }
    }
    assert aOrder[..|aOrder|] == aOrder;
  }

  // ----- fields -----

  // A type counts only when both sides have one.
  predicate FieldsDiffer(p: Pair<FieldBody>) {
    var was, cur := p.before.body, p.after.body;
    || (was.fieldType != "" && cur.fieldType != "" && was.fieldType != cur.fieldType)
    || was.dict != cur.dict
    || was.ref != cur.ref
  }

  function Filter<T>(f: Pair<T> -> bool, ps: seq<Pair<T>>): seq<Pair<T>> {
    if ps == [] then []
    else Filter(f, ps[..|ps| - 1]) + (if f(ps[|ps| - 1]) then [ps[|ps| - 1]] else [])
  }

  datatype FieldDiff = FieldDiff(added: seq<Field>, modified: seq<Pair<FieldBody>>, removed: seq<Field>)

  const NO_FIELD_CHANGES := FieldDiff([], [], [])

  function DiffFields(a: seq<Field>, b: seq<Field>): FieldDiff {
    FieldDiff(New(a, b), Filter(FieldsDiffer, Both(a, b)), New(b, a))
  }

  method CompareFields(a: seq<Field>, b: seq<Field>) returns (d: FieldDiff)
    ensures d == DiffFields(a, b)
  {
    var added, both, removed := Compare(a, b);
    var modified := [];
    for i := 0 to |both|
      invariant modified == Filter(FieldsDiffer, both[..i])
    {
      assert both[..i + 1][..i] == both[..i];
      if FieldsDiffer(both[i]) {
        modified := modified + [both[i]];
      }
    }
    assert both[..|both|] == both;
    d := FieldDiff(added, modified, removed);
  }

  // ----- options -----

  function ChoiceCodes(os: seq<Choice>): set<string> {
    set o | o in os && o.Choice? :: o.code
  }

  // Some option code is on one side only.
  predicate OptionsDiffer(p: Pair<seq<Choice>>) {
    ChoiceCodes(p.before.body) != ChoiceCodes(p.after.body)
  }

  // ----- the whole difference -----

  datatype Item = Item(name: string, code: string)
  datatype ModelItem = ModelItem(name: string, code: string, changes: FieldDiff)

  datatype Diff = Diff(
    addedModels: seq<Item>, modifiedModels: seq<ModelItem>, removedModels: seq<Item>,
    addedDicts: seq<Item>, modifiedDicts: seq<Item>, removedDicts: seq<Item>,
    addedRoles: seq<Item>, removedRoles: seq<Item>)

  const EMPTY_DIFF := Diff([], [], [], [], [], [], [], [])

  function Items<T>(s: seq<Named<T>>): seq<Item> {
    seq(|s|, i requires 0 <= i < |s| => Item(s[i].NameOrEmpty(), s[i].code))
  }

  function NewItems<T>(ps: seq<Pair<T>>): seq<Item> {
    seq(|ps|, i requires 0 <= i < |ps| => Item(ps[i].after.NameOrEmpty(), ps[i].after.code))
  }

  function ModelItems(ps: seq<Pair<ModelBody>>): seq<ModelItem> {
    if ps == [] then []
    else
      var p := ps[|ps| - 1];
      var changes := DiffFields(p.before.body.fields, p.after.body.fields);
      ModelItems(ps[..|ps| - 1])
      + (if changes == NO_FIELD_CHANGES then [] else [ModelItem(p.after.NameOrEmpty(), p.after.code, changes)])
  }

  function SemanticDiff(v1: Config, v2: Config): Diff {
    Diff(Items(New(v1.models, v2.models)), ModelItems(Both(v1.models, v2.models)), Items(New(v2.models, v1.models)),
         Items(New(v1.dicts, v2.dicts)), NewItems(Filter(OptionsDiffer, Both(v1.dicts, v2.dicts))), Items(New(v2.dicts, v1.dicts)),
         Items(New(v1.roles, v2.roles)), Items(New(v2.roles, v1.roles)))
  }

  method ItemsOf<T>(s: seq<Named<T>>) returns (items: seq<Item>)
    ensures items == Items(s)
  {
    items := [];
    for i := 0 to |s|
      invariant items == Items(s[..i])
    {
      items := items + [Item(s[i].NameOrEmpty(), s[i].code)];
    }
    assert s[..|s|] == s;
  }

  method CompareModels(both: seq<Pair<ModelBody>>) returns (items: seq<ModelItem>)
    ensures items == ModelItems(both)
  {
    hide DiffFields;
    items := [];
    for i := 0 to |both|
      invariant items == ModelItems(both[..i])
    {
      assert both[..i + 1][..i] == both[..i];
      var p := both[i];
      var changes := CompareFields(p.before.body.fields, p.after.body.fields);
      if changes.added != [] || changes.modified != [] || changes.removed != [] {
        items := items + [ModelItem(p.after.NameOrEmpty(), p.after.code, changes)];
      }
    }
    assert both[..|both|] == both;
  }

  method CompareDicts(both: seq<Pair<seq<Choice>>>) returns (items: seq<Item>)
    ensures items == NewItems(Filter(OptionsDiffer, both))
  {
    items := [];
    for i := 0 to |both|
      invariant items == NewItems(Filter(OptionsDiffer, both[..i]))
    {
      assert both[..i + 1][..i] == both[..i];
      var p := both[i];
      var newOpts := ChoiceCodes(p.after.body) - ChoiceCodes(p.before.body);
      var delOpts := ChoiceCodes(p.before.body) - ChoiceCodes(p.after.body);
      SetsDiffer(ChoiceCodes(p.before.body), ChoiceCodes(p.after.body));
      if newOpts != {} || delOpts != {} {
        items := items + [Item(p.after.NameOrEmpty(), p.after.code)];
      }
    }
    assert both[..|both|] == both;
  }

  method ComputeSemanticDiff(v1: Config, v2: Config) returns (d: Diff)
    ensures d == SemanticDiff(v1, v2)
  {
    hide New, Both, Items, ModelItems, NewItems, Filter;
    var newModels, bothModels, goneModels := Compare(v1.models, v2.models);
    var addedModels := ItemsOf(newModels);
    var modifiedModels := CompareModels(bothModels);
    var removedModels := ItemsOf(goneModels);
    var newDicts, bothDicts, goneDicts := Compare(v1.dicts, v2.dicts);
    var addedDicts := ItemsOf(newDicts);
    var modifiedDicts := CompareDicts(bothDicts);
    var removedDicts := ItemsOf(goneDicts);
    var newRoles, bothRoles, goneRoles := Compare(v1.roles, v2.roles);
    var addedRoles := ItemsOf(newRoles);
    var removedRoles := ItemsOf(goneRoles);
    d := Diff(addedModels, modifiedModels, removedModels, addedDicts, modifiedDicts, removedDicts, addedRoles, removedRoles);
  }

  lemma SetsDiffer(a: set<string>, b: set<string>)
    ensures a != b <==> a - b != {} || b - a != {}
  {
    if a - b == {} && b - a == {} {
      assert forall x :: x in a <==> x in b by {
        assert forall x :: x in a - b <==> x in a && x !in b;
        assert forall x :: x in b - a <==> x in b && x !in a;
      }
      assert a == b;
    }
  }

  // ----- patch operations -----

  datatype ListOp<T> = Add(entry: Named<T>) | Put(target: string, entry: Named<T>) | Remove(target: string)

  // An operation the program does not know is ignored: models and roles have
  // no `Put`.
  datatype Op =
    | OnModels(modelOp: ListOp<ModelBody>)
    | OnFields(model: string, fieldOp: ListOp<FieldBody>)
    | OnDicts(dictOp: ListOp<seq<Choice>>)
    | OnRoles(roleOp: ListOp<string>)

  datatype Action = Action(selected: bool, op: Op)

  function Replace<T>(s: seq<Named<T>>, target: string, entry: Named<T>): seq<Named<T>> {
    if s == [] then []
    else Replace(s[..|s| - 1], target, entry) + [if s[|s| - 1].name == Some(target) then entry else s[|s| - 1]]
  }

  function Without<T>(s: seq<Named<T>>, target: string): seq<Named<T>> {
    if s == [] then []
    else Without(s[..|s| - 1], target) + (if s[|s| - 1].name == Some(target) then [] else [s[|s| - 1]])
  }

  function Run<T>(s: seq<Named<T>>, op: ListOp<T>): seq<Named<T>> {
    match op
    case Add(e) => s + [e]
    case Put(t, e) => Replace(s, t, e)
    case Remove(t) => Without(s, t)
  }

  function EditOne(m: Model, name: string, op: ListOp<FieldBody>): Model {
    if m.name == Some(name) then m.(body := m.body.(fields := Run(m.body.fields, op))) else m
  }

  function Edit(ms: seq<Model>, name: string, op: ListOp<FieldBody>): seq<Model> {
    if ms == [] then []
    else Edit(ms[..|ms| - 1], name, op) + [EditOne(ms[|ms| - 1], name, op)]
  }

  function ApplyOp(c: Config, op: Op): Config {
    match op
    case OnModels(o) => if o.Put? then c else c.(models := Run(c.models, o))
    case OnFields(m, o) => c.(models := Edit(c.models, m, o))
    case OnDicts(o) => c.(dicts := Run(c.dicts, o))
    case OnRoles(o) => if o.Put? then c else c.(roles := Run(c.roles, o))
  }

  function ApplyOps(c: Config, ops: seq<Op>): Config
    decreases |ops|
  {
    if ops == [] then c else ApplyOp(ApplyOps(c, ops[..|ops| - 1]), ops[|ops| - 1])
  }

  function SelectedOps(actions: seq<Action>): seq<Op> {
    if actions == [] then []
    else SelectedOps(actions[..|actions| - 1])
         + (if actions[|actions| - 1].selected then [actions[|actions| - 1].op] else [])
  }

  lemma {:induction false} ReplaceStep<T>(s: seq<Named<T>>, i: nat, target: string, entry: Named<T>)
    requires i <= |s|
    ensures |Replace(s[..i], target, entry)| == i
    ensures i < |s| ==>
              Replace(s[..i + 1], target, entry) ==
              Replace(s[..i], target, entry) + [if s[i].name == Some(target) then entry else s[i]]
  {
    if i > 0 {
      ReplaceStep(s, i - 1, target, entry);
    }
    if i < |s| {
      assert s[..i + 1][..i] == s[..i];
    }
  }

  method ReplaceIn<T>(s: seq<Named<T>>, target: string, entry: Named<T>) returns (r: seq<Named<T>>)
    ensures r == Replace(s, target, entry)
  {
    hide Replace;
    r := s;
    ReplaceStep(s, 0, target, entry);
    for i := 0 to |s|
      invariant r == Replace(s[..i], target, entry) + s[i..] && |r| == |s|
    {
      ReplaceStep(s, i, target, entry);
      UpdateAt(Replace(s[..i], target, entry), s[i..], if s[i].name == Some(target) then entry else s[i]);
      if r[i].name == Some(target) {
        r := r[i := entry];
      }
    }
    assert s[..|s|] == s && s[|s|..] == [];
  }

  method FilterOut<T>(s: seq<Named<T>>, target: string) returns (r: seq<Named<T>>)
    ensures r == Without(s, target)
  {
    r := [];
    for i := 0 to |s|
      invariant r == Without(s[..i], target)
    {
      assert s[..i + 1][..i] == s[..i];
      if s[i].name != Some(target) {
        r := r + [s[i]];
      }
    }
    assert s[..|s|] == s;
  }

  method RunOp<T>(s: seq<Named<T>>, op: ListOp<T>) returns (r: seq<Named<T>>)
    ensures r == Run(s, op)
  {
    match op {
      case Add(e) => r := s + [e];
      case Put(t, e) => r := ReplaceIn(s, t, e);
      case Remove(t) => r := FilterOut(s, t);
    }
  }

  lemma {:induction false} EditStep(ms: seq<Model>, i: nat, name: string, op: ListOp<FieldBody>)
    requires i <= |ms|
    ensures |Edit(ms[..i], name, op)| == i
    ensures i < |ms| ==> Edit(ms[..i + 1], name, op) == Edit(ms[..i], name, op) + [EditOne(ms[i], name, op)]
  {
    hide EditOne;
    if i > 0 {
      EditStep(ms, i - 1, name, op);
    }
    if i < |ms| {
      assert ms[..i + 1][..i] == ms[..i];
    }
  }

  lemma UpdateAt<T>(done: seq<T>, rest: seq<T>, x: T)
    requires rest != []
    ensures (done + rest)[|done| := x] == done + [x] + rest[1..]
    ensures x == rest[0] ==> done + rest == done + [x] + rest[1..]
  {
  }

  class ConfigStore {
    var models: seq<Model>
    var dicts: seq<DictDef>
    var roles: seq<Role>

    ghost function Abs(): Config
      reads this
    {
      Config(models, dicts, roles)
    }

    // The store works on a copy: the configuration itself is a value.
    constructor (c: Config)
      ensures Abs() == c
    {
      models, dicts, roles := c.models, c.dicts, c.roles;
    }

    method EditFields(name: string, op: ListOp<FieldBody>)
      modifies this
      ensures Abs() == old(Abs()).(models := Edit(old(models), name, op))
    {
      hide Run, Edit;
      var all := models;
      EditStep(all, 0, name, op);
      for i := 0 to |all|
        invariant models == Edit(all[..i], name, op) + all[i..] && |models| == |all|
        invariant dicts == old(dicts) && roles == old(roles)
      {
        EditStep(all, i, name, op);
        UpdateAt(Edit(all[..i], name, op), all[i..], EditOne(all[i], name, op));
        if models[i].name == Some(name) {
          var fields := RunOp(models[i].body.fields, op);
          models := models[i := models[i].(body := models[i].body.(fields := fields))];
        }
      }
      assert all[..|all|] == all && all[|all|..] == [];
    }

    method ApplyOne(op: Op)
      modifies this
      ensures Abs() == ApplyOp(old(Abs()), op)
    {
      hide Run, Edit;
      match op {
        case OnModels(o) =>
          if !o.Put? {
            models := RunOp(models, o);
          }
        case OnFields(m, o) => EditFields(m, o);
        case OnDicts(o) => dicts := RunOp(dicts, o);
        case OnRoles(o) =>
          if !o.Put? {
            roles := RunOp(roles, o);
          }
      }
    }
  }

  method ApplyActionsToConfig(config: Config, actions: seq<Action>) returns (r: Config)
    ensures r == ApplyOps(config, SelectedOps(actions))
  {
    var store := new ConfigStore(config);
    for i := 0 to |actions|
      invariant store.Abs() == ApplyOps(config, SelectedOps(actions[..i])) && fresh(store)
    {
      assert actions[..i + 1][..i] == actions[..i];
      if actions[i].selected {
        ghost var ops := SelectedOps(actions[..i]);
        assert (ops + [actions[i].op])[..|ops|] == ops;
        store.ApplyOne(actions[i].op);
      } else {
        assert SelectedOps(actions[..i]) + [] == SelectedOps(actions[..i]);
      }
    }
    assert actions[..|actions|] == actions;
    r := Config(store.models, store.dicts, store.roles);
  }

  // With nothing selected the configuration stays as it is.
  lemma {:induction false} NothingSelected(actions: seq<Action>)
    requires forall a :: a in actions ==> !a.selected
    ensures SelectedOps(actions) == []
    decreases |actions|
  {
    if actions != [] {
      NothingSelected(actions[..|actions| - 1]);
    }
  }

  // ----- from the difference to operations -----

  function Adds<T>(s: seq<Named<T>>): seq<ListOp<T>> {
    seq(|s|, i requires 0 <= i < |s| => Add(s[i]))
  }

  function Puts<T>(ps: seq<Pair<T>>): seq<ListOp<T>> {
    seq(|ps|, i requires 0 <= i < |ps| => Put(ps[i].before.NameOrEmpty(), ps[i].after))
  }

  function Removes(s: seq<Item>): seq<string> {
    seq(|s|, i requires 0 <= i < |s| => s[i].name)
  }

  // `byCode.get(code)`
  function ByCode<T>(s: seq<Named<T>>, c: string): Option<Named<T>> {
    if c == "" then None else Last(s, c)
  }

  // The entries of `list` that the items name by code.
  function Picked<T>(items: seq<Item>, list: seq<Named<T>>): seq<Named<T>> {
    if items == [] then []
    else
      var found := ByCode(list, items[|items| - 1].code);
      Picked(items[..|items| - 1], list) + (if found.Some? then [found.value] else [])
  }

  // The dictionary update is aimed at the new name.
  function PickedPuts<T>(items: seq<Item>, list: seq<Named<T>>): seq<ListOp<T>> {
    if items == [] then []
    else
      var found := ByCode(list, items[|items| - 1].code);
      PickedPuts(items[..|items| - 1], list)
      + (if found.Some? then [Put(items[|items| - 1].name, found.value)] else [])
  }

  function RemoveOps<T>(names: seq<string>): seq<ListOp<T>> {
    seq(|names|, i requires 0 <= i < |names| => Remove(names[i]))
  }

  function FieldOps(d: FieldDiff): seq<ListOp<FieldBody>> {
    Adds(d.added) + Puts(d.modified) + RemoveOps(Removes(Items(d.removed)))
  }

  function ForModels(ops: seq<ListOp<ModelBody>>): seq<Op> {
    seq(|ops|, i requires 0 <= i < |ops| => OnModels(ops[i]))
  }

  function ForFields(model: string, ops: seq<ListOp<FieldBody>>): seq<Op> {
    seq(|ops|, i requires 0 <= i < |ops| => OnFields(model, ops[i]))
  }

  function ForDicts(ops: seq<ListOp<seq<Choice>>>): seq<Op> {
    seq(|ops|, i requires 0 <= i < |ops| => OnDicts(ops[i]))
  }

  function ForRoles(ops: seq<ListOp<string>>): seq<Op> {
    seq(|ops|, i requires 0 <= i < |ops| => OnRoles(ops[i]))
  }

  function EditOps(items: seq<ModelItem>): seq<Op> {
    if items == [] then []
    else EditOps(items[..|items| - 1]) + ForFields(items[|items| - 1].name, FieldOps(items[|items| - 1].changes))
  }

  function OpsOf(d: Diff, v2: Config): seq<Op> {
    ForModels(Adds(Picked(d.addedModels, v2.models)))
    + EditOps(d.modifiedModels)
    + ForModels(RemoveOps(Removes(d.removedModels)))
    + ForDicts(Adds(Picked(d.addedDicts, v2.dicts)))
    + ForDicts(PickedPuts(d.modifiedDicts, v2.dicts))
    + ForDicts(RemoveOps(Removes(d.removedDicts)))
    + ForRoles(Adds(Picked(d.addedRoles, v2.roles)))
    + ForRoles(RemoveOps(Removes(d.removedRoles)))
  }

  function AllSelected(ops: seq<Op>): seq<Action> {
    seq(|ops|, i requires 0 <= i < |ops| => Action(true, ops[i]))
  }

  method AddsFor<T>(items: seq<Item>, list: seq<Named<T>>) returns (ops: seq<ListOp<T>>)
    ensures ops == Adds(Picked(items, list))
  {
    var order, byCode := BuildMap(list);
    ops := [];
    for i := 0 to |items|
      invariant ops == Adds(Picked(items[..i], list))
    {
      assert items[..i + 1][..i] == items[..i];
      CodesAreKeys(list, items[i].code);
      if items[i].code in byCode {
        ops := ops + [Add(byCode[items[i].code])];
      }
    }
    assert items[..|items|] == items;
  }

  method PutsFor<T>(items: seq<Item>, list: seq<Named<T>>) returns (ops: seq<ListOp<T>>)
    ensures ops == PickedPuts(items, list)
  {
    var order, byCode := BuildMap(list);
    ops := [];
    for i := 0 to |items|
      invariant ops == PickedPuts(items[..i], list)
    {
      assert items[..i + 1][..i] == items[..i];
      assert ops + [] == ops;
      CodesAreKeys(list, items[i].code);
      if items[i].code in byCode {
        ops := ops + [Put(items[i].name, byCode[items[i].code])];
      }
    }
    assert items[..|items|] == items;
  }

  method EditsFor(items: seq<ModelItem>) returns (ops: seq<Op>)
    ensures ops == EditOps(items)
  {
    hide FieldOps;
    ops := [];
    for i := 0 to |items|
      invariant ops == EditOps(items[..i])
    {
      assert items[..i + 1][..i] == items[..i];
      ops := ops + ForFields(items[i].name, FieldOps(items[i].changes));
    }
    assert items[..|items|] == items;
  }

  method DiffToActions(d: Diff, v2: Config) returns (actions: seq<Action>)
    ensures actions == AllSelected(OpsOf(d, v2))
  {
    hide Adds, Picked, PickedPuts, EditOps, RemoveOps, Removes, ForModels, ForDicts, ForRoles;
    var newModels := AddsFor(d.addedModels, v2.models);
    var edits := EditsFor(d.modifiedModels);
    var newDicts := AddsFor(d.addedDicts, v2.dicts);
    var dictPuts := PutsFor(d.modifiedDicts, v2.dicts);
    var newRoles := AddsFor(d.addedRoles, v2.roles);
    actions := AllSelected(
      ForModels(newModels) + edits + ForModels(RemoveOps(Removes(d.removedModels)))
      + ForDicts(newDicts) + ForDicts(dictPuts) + ForDicts(RemoveOps(Removes(d.removedDicts)))
      + ForRoles(newRoles) + ForRoles(RemoveOps(Removes(d.removedRoles))));
  }

  // ----- names and codes that agree -----

  datatype Tag = Tag(name: Option<string>, code: string)

  // The names and codes of the entries that have a code.
  ghost function Tags<T>(s: seq<Named<T>>): set<Tag> {
    set x | x in s && x.code != "" :: Tag(x.name, x.code)
  }

  // Names are present, and equal exactly when the codes are.
  ghost predicate Agree(u: set<Tag>) {
    && (forall a :: a in u ==> a.name.Some?)
    && forall a, b :: a in u && b in u ==> (a.name == b.name <==> a.code == b.code)
  }

  // The agreement at every level of the two configurations together.
  ghost predicate NamesMatchCodes(v1: Config, v2: Config) {
    && Agree(Tags(v1.models) + Tags(v2.models))
    && Agree(Tags(v1.dicts) + Tags(v2.dicts))
    && Agree(Tags(v1.roles) + Tags(v2.roles))
    && forall p :: p in Both(v1.models, v2.models) ==> Agree(Tags(p.before.body.fields) + Tags(p.after.body.fields))
  }

  // ----- the effect of single operations on the last entry with a code -----

  lemma {:induction false} LastAppend<T>(a: seq<Named<T>>, b: seq<Named<T>>, c: string)
    ensures Last(a + b, c) == if Last(b, c).Some? then Last(b, c) else Last(a, c)
    decreases |b|
  {
    if b == [] {
      assert a + b == a;
    } else {
      LastAppend(a, b[..|b| - 1], c);
      assert (a + b)[..|a + b| - 1] == a + b[..|b| - 1];
    }
  }

  lemma SameNameSameCode(u: set<Tag>, a: Tag, b: Tag)
    requires Agree(u) && a in u && b in u
    ensures a.name.Some? && b.name.Some? && (a.name == b.name <==> a.code == b.code)
  {
  }

  lemma TagsSnoc<T>(s: seq<Named<T>>, x: Named<T>)
    ensures Tags(s + [x]) == Tags(s) + (if x.code != "" then {Tag(x.name, x.code)} else {})
  {
  }

  lemma LastSnoc<T>(s: seq<Named<T>>, x: Named<T>, c: string)
    ensures Last(s + [x], c) == if x.code == c then Some(x) else Last(s, c)
  {
    assert (s + [x])[..|s|] == s;
  }

  lemma {:induction false} PutEffect<T>(u: set<Tag>, s: seq<Named<T>>, e: Named<T>, c: string)
    requires Agree(u) && Tags(s) <= u && e.code != "" && Tag(e.name, e.code) in u && c != ""
    ensures var r := Replace(s, e.NameOrEmpty(), e);
            && (c != e.code ==> Last(r, c) == Last(s, c))
            && (c == e.code ==> Last(r, c) == None || Last(r, c) == Some(e))
            && (c == e.code && Last(s, c).Some? ==> Last(r, c) == Some(e))
            && Tags(r) <= u
    decreases |s|
  {
    hide Agree, Tags;
    SameNameSameCode(u, Tag(e.name, e.code), Tag(e.name, e.code));
    if s == [] {
      assert Replace(s, e.NameOrEmpty(), e) == s;
    } else {
      hide Last;
      var n := |s| - 1;
      var x := s[n];
      assert s == s[..n] + [x];
      TagsSnoc(s[..n], x);
      LastSnoc(s[..n], x, c);
      PutEffect(u, s[..n], e, c);
      var r, x' := Replace(s[..n], e.NameOrEmpty(), e), if x.name == e.name then e else x;
      if x.code != "" {
        SameNameSameCode(u, Tag(x.name, x.code), Tag(e.name, e.code));
      }
      assert Replace(s, e.NameOrEmpty(), e) == r + [x'];
      TagsSnoc(r, x');
      LastSnoc(r, x', c);
    }
  }

  lemma {:induction false} RemoveEffect<T>(u: set<Tag>, s: seq<Named<T>>, g: Named<T>, c: string)
    requires Agree(u) && Tags(s) <= u && g.code != "" && Tag(g.name, g.code) in u && c != ""
    ensures var r := Without(s, g.NameOrEmpty());
            Last(r, c) == (if c == g.code then None else Last(s, c)) && Tags(r) <= u
    decreases |s|
  {
    hide Agree, Tags;
    SameNameSameCode(u, Tag(g.name, g.code), Tag(g.name, g.code));
    if s != [] {
      hide Last;
      var n := |s| - 1;
      var x := s[n];
      assert s == s[..n] + [x];
      TagsSnoc(s[..n], x);
      LastSnoc(s[..n], x, c);
      RemoveEffect(u, s[..n], g, c);
      var r := Without(s[..n], g.NameOrEmpty());
      if x.code != "" {
        SameNameSameCode(u, Tag(x.name, x.code), Tag(g.name, g.code));
      }
      TagsSnoc(r, x);
      LastSnoc(r, x, c);
      if x.name == g.name {
        assert Without(s, g.NameOrEmpty()) == r + [] == r;
      } else {
        assert Without(s, g.NameOrEmpty()) == r + [x];
      }
    }
  }

  // ----- members of the computed lists -----

  lemma {:induction false} LastNone<T>(s: seq<Named<T>>, c: string)
    requires Last(s, c).None?
    ensures forall x :: x in s ==> x.code != c
  {
    if s != [] {
      LastNone(s[..|s| - 1], c);
      assert s == s[..|s| - 1] + [s[|s| - 1]];
    }
  }

  lemma {:induction false} NewOfMembers<T>(codes: seq<string>, a: seq<Named<T>>, b: seq<Named<T>>, x: Named<T>)
    ensures x in NewOf(codes, a, b) <==> x.code in codes && Last(a, x.code).None? && Last(b, x.code) == Some(x)
    decreases |codes|
  {
    hide Last;
    if codes != [] {
      NewOfMembers(codes[..|codes| - 1], a, b, x);
      assert codes == codes[..|codes| - 1] + [codes[|codes| - 1]];
    }
  }

  lemma NewMembers<T>(a: seq<Named<T>>, b: seq<Named<T>>, x: Named<T>)
    ensures x in New(a, b) <==> x.code != "" && Last(a, x.code).None? && Last(b, x.code) == Some(x)
  {
    NewOfMembers(Codes(b), a, b, x);
    CodesAreKeys(b, x.code);
  }

  lemma LastOfNew<T>(a: seq<Named<T>>, b: seq<Named<T>>, c: string)
    ensures Last(New(a, b), c) == if c != "" && Last(a, c).None? then Last(b, c) else None
  {
    hide Last, New;
    var found := Last(New(a, b), c);
    if found.Some? {
      NewMembers(a, b, found.value);
    } else {
      LastNone(New(a, b), c);
      if Last(b, c).Some? {
        NewMembers(a, b, Last(b, c).value);
      }
    }
  }

  lemma {:induction false} BothOfMembers<T>(codes: seq<string>, a: seq<Named<T>>, b: seq<Named<T>>, p: Pair<T>)
    ensures p in BothOf(codes, a, b) <==>
            p.after.code in codes && Last(a, p.after.code) == Some(p.before) && Last(b, p.after.code) == Some(p.after)
    decreases |codes|
  {
    hide Last;
    if codes != [] {
      BothOfMembers(codes[..|codes| - 1], a, b, p);
      assert codes == codes[..|codes| - 1] + [codes[|codes| - 1]];
    }
  }

  lemma BothMembers<T>(a: seq<Named<T>>, b: seq<Named<T>>, p: Pair<T>)
    ensures p in Both(a, b) <==>
            p.after.code != "" && Last(a, p.after.code) == Some(p.before) && Last(b, p.after.code) == Some(p.after)
  {
    BothOfMembers(Codes(b), a, b, p);
    CodesAreKeys(b, p.after.code);
  }

  lemma {:induction false} FilterMembers<T>(f: Pair<T> -> bool, ps: seq<Pair<T>>, p: Pair<T>)
    ensures p in Filter(f, ps) <==> p in ps && f(p)
    decreases |ps|
  {
    if ps != [] {
      FilterMembers(f, ps[..|ps| - 1], p);
      assert ps == ps[..|ps| - 1] + [ps[|ps| - 1]];
    }
  }

  // ----- the effect of lists of operations -----

  function RunAll<T>(s: seq<Named<T>>, ops: seq<ListOp<T>>): seq<Named<T>>
    decreases |ops|
  {
    if ops == [] then s else Run(RunAll(s, ops[..|ops| - 1]), ops[|ops| - 1])
  }

  lemma {:induction false} RunAllAppend<T>(s: seq<Named<T>>, a: seq<ListOp<T>>, b: seq<ListOp<T>>)
    ensures RunAll(s, a + b) == RunAll(RunAll(s, a), b)
    decreases |b|
  {
    if b == [] {
      assert a + b == a;
    } else {
      RunAllAppend(s, a, b[..|b| - 1]);
      assert (a + b)[..|a + b| - 1] == a + b[..|b| - 1];
    }
  }

  lemma {:induction false} RunAdds<T>(s: seq<Named<T>>, xs: seq<Named<T>>)
    ensures RunAll(s, Adds(xs)) == s + xs
    decreases |xs|
  {
    if xs != [] {
      var n := |xs| - 1;
      RunAdds(s, xs[..n]);
      assert Adds(xs)[..n] == Adds(xs[..n]);
      assert s + xs == s + xs[..n] + [xs[n]];
    } else {
      assert s + xs == s;
    }
  }

  // Puts aimed at the name the new entry has.
  function PutsAfter<T>(ps: seq<Pair<T>>): seq<ListOp<T>> {
    seq(|ps|, i requires 0 <= i < |ps| => Put(ps[i].after.NameOrEmpty(), ps[i].after))
  }

  ghost predicate HasCode<T>(ps: seq<Pair<T>>, c: string) {
    exists p :: p in ps && p.after.code == c
  }

  lemma {:induction false} RunPuts<T>(u: set<Tag>, s: seq<Named<T>>, ps: seq<Pair<T>>, b: seq<Named<T>>, c: string)
    requires Agree(u) && Tags(s) <= u && c != ""
    requires forall p :: p in ps ==>
               && p.after.code != "" && Tag(p.after.name, p.after.code) in u
               && Last(s, p.after.code).Some? && Last(b, p.after.code) == Some(p.after)
    ensures var r := RunAll(s, PutsAfter(ps));
            && Last(r, c) == (if HasCode(ps, c) then Last(b, c) else Last(s, c))
            && Tags(r) <= u
    decreases |ps|
  {
    hide Last, Tags, Agree, Replace;
    if ps != [] {
      var n := |ps| - 1;
      var p := ps[n];
      assert ps == ps[..n] + [p];
      RunPuts(u, s, ps[..n], b, c);
      RunPuts(u, s, ps[..n], b, p.after.code);
      var r := RunAll(s, PutsAfter(ps[..n]));
      PutEffect(u, r, p.after, c);
      assert PutsAfter(ps)[..n] == PutsAfter(ps[..n]);
      assert RunAll(s, PutsAfter(ps)) == Replace(r, p.after.NameOrEmpty(), p.after);
    }
  }

  function NamesOf<T>(s: seq<Named<T>>): seq<string> {
    seq(|s|, i requires 0 <= i < |s| => s[i].NameOrEmpty())
  }

  ghost predicate Coded<T>(s: seq<Named<T>>, c: string) {
    exists x :: x in s && x.code == c
  }

  lemma {:induction false} RunRemoves<T>(u: set<Tag>, s: seq<Named<T>>, gs: seq<Named<T>>, c: string)
    requires Agree(u) && Tags(s) <= u && c != ""
    requires forall g :: g in gs ==> g.code != "" && Tag(g.name, g.code) in u
    ensures var r := RunAll(s, RemoveOps(NamesOf(gs)));
            && Last(r, c) == (if Coded(gs, c) then None else Last(s, c))
            && Tags(r) <= u
    decreases |gs|
  {
    hide Last, Tags, Agree, Without;
    if gs != [] {
      var n := |gs| - 1;
      var g := gs[n];
      assert gs == gs[..n] + [g];
      RunRemoves(u, s, gs[..n], c);
      var r := RunAll(s, RemoveOps(NamesOf(gs[..n])));
      RemoveEffect(u, r, g, c);
      assert RemoveOps<T>(NamesOf(gs))[..n] == RemoveOps<T>(NamesOf(gs[..n]));
      assert RunAll(s, RemoveOps(NamesOf(gs))) == Without(r, g.NameOrEmpty());
    }
  }

  // One level after its additions, updates and removals: the codes are those
  // of `b`, and each entry is the old one unless it was new or updated.
  lemma LevelEffect<T>(a: seq<Named<T>>, b: seq<Named<T>>, ps: seq<Pair<T>>, c: string)
    requires Agree(Tags(a) + Tags(b)) && c != ""
    requires forall p :: p in ps ==> p in Both(a, b)
    ensures var r := RunAll(a, Adds(New(a, b)) + PutsAfter(ps) + RemoveOps(NamesOf(New(b, a))));
            Last(r, c) == if Last(b, c).None? then None
                          else if Last(a, c).None? || HasCode(ps, c) then Last(b, c)
                          else Last(a, c)
  {
    hide Last, Tags, Agree, New, Both, RunAll, Adds, PutsAfter, RemoveOps, NamesOf;
    var u := Tags(a) + Tags(b);
    var adds, puts, gone := Adds(New(a, b)), PutsAfter(ps), New(b, a);
    var s1 := a + New(a, b);
    RunAdds(a, New(a, b));
    forall x | x in New(a, b)
      ensures x in b
    {
      NewMembers(a, b, x);
    }
    TagsAppend(a, New(a, b), b);
    forall k
      ensures k != "" ==> Last(s1, k) == if Last(a, k).Some? then Last(a, k) else Last(b, k)
    {
      LastAppend(a, New(a, b), k);
      LastOfNew(a, b, k);
    }
    forall p | p in ps
      ensures p.after.code != "" && Tag(p.after.name, p.after.code) in u
      ensures Last(s1, p.after.code).Some? && Last(b, p.after.code) == Some(p.after)
    {
      BothMembers(a, b, p);
      TagOf(b, p.after);
    }
    RunPuts(u, s1, ps, b, c);
    var s2 := RunAll(s1, puts);
    forall g | g in gone
      ensures g.code != "" && Tag(g.name, g.code) in u
    {
      NewMembers(b, a, g);
      TagOf(a, g);
    }
    RunRemoves(u, s2, gone, c);
    RunAllAppend(a, adds, puts);
    RunAllAppend(a, adds + puts, RemoveOps(NamesOf(gone)));
    GoneCodes(a, b, c);
    PutCodes(a, b, ps, c);
  }

  lemma TagOf<T>(s: seq<Named<T>>, x: Named<T>)
    requires x in s && x.code != ""
    ensures Tag(x.name, x.code) in Tags(s)
  {
  }

  lemma TagsAppend<T>(a: seq<Named<T>>, xs: seq<Named<T>>, b: seq<Named<T>>)
    requires forall x :: x in xs ==> x in b
    ensures Tags(a + xs) <= Tags(a) + Tags(b)
  {
  }

  lemma GoneCodes<T>(a: seq<Named<T>>, b: seq<Named<T>>, c: string)
    ensures Coded(New(b, a), c) <==> c != "" && Last(a, c).Some? && Last(b, c).None?
  {
    hide Last, New;
    if Last(a, c).Some? {
      NewMembers(b, a, Last(a, c).value);
    }
    forall x | x in New(b, a) && x.code == c
      ensures c != "" && Last(a, c).Some? && Last(b, c).None?
    {
      NewMembers(b, a, x);
    }
  }

  lemma PutCodes<T>(a: seq<Named<T>>, b: seq<Named<T>>, ps: seq<Pair<T>>, c: string)
    requires forall p :: p in ps ==> p in Both(a, b)
    ensures HasCode(ps, c) ==> Last(a, c).Some? && Last(b, c).Some?
  {
    hide Last, Both;
    forall p | p in ps && p.after.code == c
      ensures Last(a, c).Some? && Last(b, c).Some?
    {
      BothMembers(a, b, p);
    }
  }

  // ----- a level whose difference is empty -----

  lemma NothingNew<T>(a: seq<Named<T>>, b: seq<Named<T>>)
    requires forall c :: c != "" && Last(b, c).Some? ==> Last(a, c).Some?
    ensures New(a, b) == []
  {
    hide New, Last;
    if New(a, b) != [] {
      NewMembers(a, b, New(a, b)[0]);
      assert false;
    }
  }

  lemma NothingLeft<T>(f: Pair<T> -> bool, ps: seq<Pair<T>>)
    requires forall p :: p in ps ==> !f(p)
    ensures Filter(f, ps) == []
  {
    hide Filter;
    if Filter(f, ps) != [] {
      FilterMembers(f, ps, Filter(f, ps)[0]);
      assert false;
    }
  }

  // After the operations of a level, comparing it with the target finds no
  // added, removed or differing entry.
  lemma LevelConverges<T>(f: Pair<T> -> bool, a: seq<Named<T>>, b: seq<Named<T>>, r: seq<Named<T>>)
    requires Agree(Tags(a) + Tags(b))
    requires forall x :: !f(Pair(x, x))
    requires r == RunAll(a, Adds(New(a, b)) + PutsAfter(Filter(f, Both(a, b))) + RemoveOps(NamesOf(New(b, a))))
    ensures New(r, b) == [] && New(b, r) == [] && Filter(f, Both(r, b)) == []
  {
    hide Last, New, Both, RunAll, Filter, Tags, Agree;
    var ps := Filter(f, Both(a, b));
    forall p | p in ps
      ensures p in Both(a, b)
    {
      FilterMembers(f, Both(a, b), p);
    }
    forall c | c != ""
      ensures Last(r, c) == if Last(b, c).None? then None
                            else if Last(a, c).None? || HasCode(ps, c) then Last(b, c)
                            else Last(a, c)
    {
      LevelEffect(a, b, ps, c);
    }
    NothingNew(r, b);
    NothingNew(b, r);
    forall q | q in Both(r, b)
      ensures !f(q)
    {
      BothMembers(r, b, q);
      var c := q.after.code;
      if Last(a, c).Some? && !HasCode(ps, c) {
        BothMembers(a, b, q);
        FilterMembers(f, Both(a, b), q);
      } else {
        assert q == Pair(q.after, q.after);
      }
    }
    NothingLeft(f, Both(r, b));
  }

  // ----- the generated operations are level operations -----

  lemma PickedIsNew<T>(a: seq<Named<T>>, b: seq<Named<T>>)
    ensures Picked(Items(New(a, b)), b) == New(a, b)
  {
    hide New;
    forall x | x in New(a, b)
      ensures ByCode(b, x.code) == Some(x)
    {
      NewMembers(a, b, x);
    }
    PickedBack(New(a, b), b);
  }

  lemma {:induction false} PickedBack<T>(xs: seq<Named<T>>, b: seq<Named<T>>)
    requires forall x :: x in xs ==> ByCode(b, x.code) == Some(x)
    ensures Picked(Items(xs), b) == xs
    decreases |xs|
  {
    hide ByCode;
    if xs != [] {
      var n := |xs| - 1;
      PickedBack(xs[..n], b);
      assert Items(xs)[..n] == Items(xs[..n]);
      assert Items(xs)[n].code == xs[n].code;
    }
  }

  lemma {:induction false} PickedPutsBack<T>(ps: seq<Pair<T>>, b: seq<Named<T>>)
    requires forall p :: p in ps ==> ByCode(b, p.after.code) == Some(p.after)
    ensures PickedPuts(NewItems(ps), b) == PutsAfter(ps)
    decreases |ps|
  {
    hide ByCode;
    if ps != [] {
      var n := |ps| - 1;
      PickedPutsBack(ps[..n], b);
      assert NewItems(ps)[..n] == NewItems(ps[..n]);
      assert PutsAfter(ps) == PutsAfter(ps[..n]) + [Put(ps[n].after.NameOrEmpty(), ps[n].after)];
    }
  }

  lemma RemovalNames<T>(s: seq<Named<T>>)
    ensures Removes(Items(s)) == NamesOf(s)
  {
  }

  // The field operations aim at the old name, which is the new one.
  lemma FieldOpsAreLevelOps(a: seq<Field>, b: seq<Field>)
    requires Agree(Tags(a) + Tags(b))
    ensures FieldOps(DiffFields(a, b)) ==
            Adds(New(a, b)) + PutsAfter(Filter(FieldsDiffer, Both(a, b))) + RemoveOps(NamesOf(New(b, a)))
  {
    hide Last, New, Both, Filter, Tags;
    var ps := Filter(FieldsDiffer, Both(a, b));
    forall i | 0 <= i < |ps|
      ensures ps[i].before.NameOrEmpty() == ps[i].after.NameOrEmpty()
    {
      FilterMembers(FieldsDiffer, Both(a, b), ps[i]);
      BothMembers(a, b, ps[i]);
      TagOf(a, ps[i].before);
      TagOf(b, ps[i].after);
    }
    assert Puts(ps) == PutsAfter(ps);
    RemovalNames(New(b, a));
  }

  lemma FieldsConverge(a: seq<Field>, b: seq<Field>)
    requires Agree(Tags(a) + Tags(b))
    ensures DiffFields(RunAll(a, FieldOps(DiffFields(a, b))), b) == NO_FIELD_CHANGES
  {
    FieldOpsAreLevelOps(a, b);
    LevelConverges(FieldsDiffer, a, b, RunAll(a, FieldOps(DiffFields(a, b))));
  }

  // ----- models: their fields are edited by model name -----

  function EditedBy(m: Model, name: string, ops: seq<ListOp<FieldBody>>): Model {
    if m.name == Some(name) then m.(body := m.body.(fields := RunAll(m.body.fields, ops))) else m
  }

  function EditedByAll(m: Model, items: seq<ModelItem>): Model
    decreases |items|
  {
    if items == [] then m
    else
      var item := items[|items| - 1];
      EditedBy(EditedByAll(m, items[..|items| - 1]), item.name, FieldOps(item.changes))
  }

  function Edited(ms: seq<Model>, items: seq<ModelItem>): seq<Model> {
    seq(|ms|, i requires 0 <= i < |ms| => EditedByAll(ms[i], items))
  }

  function EditedList(ms: seq<Model>, name: string, ops: seq<ListOp<FieldBody>>): seq<Model> {
    seq(|ms|, i requires 0 <= i < |ms| => EditedBy(ms[i], name, ops))
  }

  lemma {:induction false} EditIsPointwise(ms: seq<Model>, name: string, op: ListOp<FieldBody>)
    ensures |Edit(ms, name, op)| == |ms| && forall i :: 0 <= i < |ms| ==> Edit(ms, name, op)[i] == EditOne(ms[i], name, op)
    decreases |ms|
  {
    hide EditOne;
    if ms != [] {
      EditIsPointwise(ms[..|ms| - 1], name, op);
    }
  }

  lemma {:induction false} ApplyOpsAppend(c: Config, a: seq<Op>, b: seq<Op>)
    ensures ApplyOps(c, a + b) == ApplyOps(ApplyOps(c, a), b)
    decreases |b|
  {
    hide ApplyOp;
    if b == [] {
      assert a + b == a;
    } else {
      ApplyOpsAppend(c, a, b[..|b| - 1]);
      assert (a + b)[..|a + b| - 1] == a + b[..|b| - 1];
    }
  }

  lemma {:induction false} ForModelsEffect(c: Config, ops: seq<ListOp<ModelBody>>)
    requires forall o :: o in ops ==> !o.Put?
    ensures ApplyOps(c, ForModels(ops)) == c.(models := RunAll(c.models, ops))
    decreases |ops|
  {
    hide Run;
    if ops != [] {
      var n := |ops| - 1;
      ForModelsEffect(c, ops[..n]);
      assert ForModels(ops)[..n] == ForModels(ops[..n]);
    }
  }

  lemma {:induction false} ForDictsEffect(c: Config, ops: seq<ListOp<seq<Choice>>>)
    ensures ApplyOps(c, ForDicts(ops)) == c.(dicts := RunAll(c.dicts, ops))
    decreases |ops|
  {
    hide Run;
    if ops != [] {
      var n := |ops| - 1;
      ForDictsEffect(c, ops[..n]);
      assert ForDicts(ops)[..n] == ForDicts(ops[..n]);
    }
  }

  lemma {:induction false} ForRolesEffect(c: Config, ops: seq<ListOp<string>>)
    requires forall o :: o in ops ==> !o.Put?
    ensures ApplyOps(c, ForRoles(ops)) == c.(roles := RunAll(c.roles, ops))
    decreases |ops|
  {
    hide Run;
    if ops != [] {
      var n := |ops| - 1;
      ForRolesEffect(c, ops[..n]);
      assert ForRoles(ops)[..n] == ForRoles(ops[..n]);
    }
  }

  lemma {:induction false} ForFieldsEffect(c: Config, name: string, ops: seq<ListOp<FieldBody>>)
    ensures ApplyOps(c, ForFields(name, ops)) == c.(models := EditedList(c.models, name, ops))
    decreases |ops|
  {
    hide Run;
    if ops == [] {
      assert EditedList(c.models, name, ops) == c.models;
    } else {
      var n := |ops| - 1;
      ForFieldsEffect(c, name, ops[..n]);
      assert ForFields(name, ops)[..n] == ForFields(name, ops[..n]);
      var ms := EditedList(c.models, name, ops[..n]);
      EditIsPointwise(ms, name, ops[n]);
      assert Edit(ms, name, ops[n]) == EditedList(c.models, name, ops);
    }
  }

  lemma {:induction false} EditOpsEffect(c: Config, items: seq<ModelItem>)
    ensures ApplyOps(c, EditOps(items)) == c.(models := Edited(c.models, items))
    decreases |items|
  {
    hide FieldOps, RunAll, EditedBy;
    if items == [] {
      assert Edited(c.models, items) == c.models;
    } else {
      var n := |items| - 1;
      var item := items[n];
      EditOpsEffect(c, items[..n]);
      var mid := c.(models := Edited(c.models, items[..n]));
      ApplyOpsAppend(c, EditOps(items[..n]), ForFields(item.name, FieldOps(item.changes)));
      ForFieldsEffect(mid, item.name, FieldOps(item.changes));
      assert EditedList(mid.models, item.name, FieldOps(item.changes)) == Edited(c.models, items);
    }
  }

  lemma {:induction false} EditedKeepsTag(m: Model, items: seq<ModelItem>)
    ensures EditedByAll(m, items).name == m.name && EditedByAll(m, items).code == m.code
    decreases |items|
  {
    if items != [] {
      EditedKeepsTag(m, items[..|items| - 1]);
    }
  }

  lemma {:induction false} LastEdited(ms: seq<Model>, items: seq<ModelItem>, c: string)
    ensures Last(Edited(ms, items), c) ==
            (if Last(ms, c).Some? then Some(EditedByAll(Last(ms, c).value, items)) else None)
    decreases |ms|
  {
    hide EditedByAll;
    if ms != [] {
      var n := |ms| - 1;
      LastEdited(ms[..n], items, c);
      EditedKeepsTag(ms[n], items);
      var es := Edited(ms, items);
      assert es[..n] == Edited(ms[..n], items);
      assert es == es[..n] + [es[n]] && ms == ms[..n] + [ms[n]];
    }
  }

  ghost predicate DistinctCodes<T>(ps: seq<Pair<T>>) {
    forall i, j :: 0 <= i < j < |ps| ==> ps[i].after.code != ps[j].after.code
  }

  lemma {:induction false} CodesDistinct<T>(s: seq<Named<T>>)
    ensures forall i, j :: 0 <= i < j < |Codes(s)| ==> Codes(s)[i] != Codes(s)[j]
  {
    if s != [] {
      CodesDistinct(s[..|s| - 1]);
    }
  }

  lemma {:induction false} BothOfDistinct<T>(codes: seq<string>, a: seq<Named<T>>, b: seq<Named<T>>)
    requires forall i, j :: 0 <= i < j < |codes| ==> codes[i] != codes[j]
    ensures DistinctCodes(BothOf(codes, a, b))
    decreases |codes|
  {
    if codes != [] {
      var n := |codes| - 1;
      BothOfDistinct(codes[..n], a, b);
      var front := BothOf(codes[..n], a, b);
      forall i | 0 <= i < |front|
        ensures front[i].after.code != codes[n]
      {
        BothOfMembers(codes[..n], a, b, front[i]);
      }
    }
  }

  // A model is edited by the operations of its own pair only.
  lemma {:induction false} EditedByOwnPair(u: set<Tag>, m: Model, ps: seq<Pair<ModelBody>>)
    requires Agree(u) && m.code != "" && Tag(m.name, m.code) in u && DistinctCodes(ps)
    requires forall p :: p in ps ==> Tag(p.after.name, p.after.code) in u
    ensures var r := EditedByAll(m, ModelItems(ps));
            && (forall p :: p in ps && p.after.code == m.code ==>
                  var d := DiffFields(p.before.body.fields, p.after.body.fields);
                  r == m.(body := m.body.(fields := RunAll(m.body.fields, FieldOps(d)))))
            && (!HasCode(ps, m.code) ==> r == m)
    decreases |ps|
  {
    hide DiffFields, FieldOps, RunAll, EditedByAll, ModelItems, Agree;
    ModelItemsSnoc(ps);
    if ps == [] {
      EditedByNothing(m);
    } else {
      var n := |ps| - 1;
      var p := ps[n];
      assert ps == ps[..n] + [p];
      EditedByOwnPair(u, m, ps[..n]);
      var d := DiffFields(p.before.body.fields, p.after.body.fields);
      var items := ModelItems(ps[..n]);
      EditedKeepsTag(m, items);
      EditedBySnoc(m, items, ModelItem(p.after.NameOrEmpty(), p.after.code, d));
      NoFieldOps(m.body.fields);
      SameNameSameCode(u, Tag(p.after.name, p.after.code), Tag(m.name, m.code));
      assert p.after.code == m.code ==> !HasCode(ps[..n], m.code);
    }
  }

  lemma EditedByNothing(m: Model)
    ensures EditedByAll(m, []) == m
  {
  }

  lemma EditedBySnoc(m: Model, items: seq<ModelItem>, item: ModelItem)
    ensures EditedByAll(m, items + [item]) == EditedBy(EditedByAll(m, items), item.name, FieldOps(item.changes))
  {
    hide FieldOps, EditedBy;
    assert (items + [item])[..|items|] == items;
  }

  lemma ModelItemsSnoc(ps: seq<Pair<ModelBody>>)
    ensures ps == [] ==> ModelItems(ps) == []
    ensures ps != [] ==>
              var p := ps[|ps| - 1];
              var d := DiffFields(p.before.body.fields, p.after.body.fields);
              var items := ModelItems(ps[..|ps| - 1]);
              ModelItems(ps) == if d == NO_FIELD_CHANGES then items else items + [ModelItem(p.after.NameOrEmpty(), p.after.code, d)]
  {
    hide DiffFields;
  }

  lemma NoFieldOps(fields: seq<Field>)
    ensures RunAll(fields, FieldOps(NO_FIELD_CHANGES)) == fields
  {
    assert FieldOps(NO_FIELD_CHANGES) == [];
  }

  lemma TagsEdited(ms: seq<Model>, items: seq<ModelItem>)
    ensures Tags(Edited(ms, items)) <= Tags(ms)
  {
    hide EditedByAll;
    var es := Edited(ms, items);
    forall t | t in Tags(es)
      ensures t in Tags(ms)
    {
      var x :| x in es && x.code != "" && t == Tag(x.name, x.code);
      var i :| 0 <= i < |es| && es[i] == x;
      EditedKeepsTag(ms[i], items);
      TagOf(ms, ms[i]);
    }
  }

  // ----- convergence -----

  ghost function ModelsAfter(a: seq<Model>, b: seq<Model>): seq<Model> {
    RunAll(Edited(a + New(a, b), ModelItems(Both(a, b))), RemoveOps(NamesOf(New(b, a))))
  }

  // The model that stands for a code after the patch.
  lemma ModelEffect(a: seq<Model>, b: seq<Model>, c: string)
    requires Agree(Tags(a) + Tags(b)) && c != ""
    ensures var r := Last(ModelsAfter(a, b), c);
            if Last(b, c).None? then r == None
            else if Last(a, c).None? then r == Last(b, c)
            else
              var m, target := Last(a, c).value, Last(b, c).value;
              var d := DiffFields(m.body.fields, target.body.fields);
              r == Some(m.(body := m.body.(fields := RunAll(m.body.fields, FieldOps(d)))))
  {
    hide Last, New, Both, RunAll, RemoveOps, NamesOf, FieldOps, DiffFields, Tags, EditedByAll, ModelItems, Edited, Agree;
    var u := Tags(a) + Tags(b);
    var ps := Both(a, b);
    var gone := New(b, a);
    var s1 := a + New(a, b);
    LastAppend(a, New(a, b), c);
    LastOfNew(a, b, c);
    forall x | x in New(a, b)
      ensures x in b
    {
      NewMembers(a, b, x);
    }
    TagsAppend(a, New(a, b), b);
    var s2 := Edited(s1, ModelItems(ps));
    LastEdited(s1, ModelItems(ps), c);
    TagsEdited(s1, ModelItems(ps));
    forall g | g in gone
      ensures g.code != "" && Tag(g.name, g.code) in u
    {
      NewMembers(b, a, g);
      TagOf(a, g);
    }
    RunRemoves(u, s2, gone, c);
    GoneCodes(a, b, c);
    if Last(s1, c).Some? {
      var m := Last(s1, c).value;
      TagOf(s1, m);
      forall p | p in ps
        ensures Tag(p.after.name, p.after.code) in u
        ensures p.after.code != "" && Last(a, p.after.code) == Some(p.before) && Last(b, p.after.code) == Some(p.after)
      {
        BothMembers(a, b, p);
        TagOf(b, p.after);
      }
      BothDistinct(a, b);
      EditedByOwnPair(u, m, ps);
      if Last(a, c).Some? && Last(b, c).Some? {
        var p := Pair(m, Last(b, c).value);
        BothMembers(a, b, p);
        assert p in ps && p.after.code == m.code;
      }
    }
  }

  lemma BothDistinct<T>(a: seq<Named<T>>, b: seq<Named<T>>)
    ensures DistinctCodes(Both(a, b))
  {
    CodesDistinct(b);
    BothOfDistinct(Codes(b), a, b);
  }

  lemma FieldsSame(a: seq<Field>)
    ensures DiffFields(a, a) == NO_FIELD_CHANGES
  {
    hide New, Both, Filter;
    NothingNew(a, a);
    forall p | p in Both(a, a)
      ensures !FieldsDiffer(p)
    {
      BothMembers(a, a, p);
    }
    NothingLeft(FieldsDiffer, Both(a, a));
  }

  lemma {:induction false} NoModelItems(ps: seq<Pair<ModelBody>>)
    requires forall p :: p in ps ==> DiffFields(p.before.body.fields, p.after.body.fields) == NO_FIELD_CHANGES
    ensures ModelItems(ps) == []
    decreases |ps|
  {
    hide DiffFields;
    if ps != [] {
      NoModelItems(ps[..|ps| - 1]);
    }
  }

  lemma ModelsConverge(a: seq<Model>, b: seq<Model>)
    requires Agree(Tags(a) + Tags(b))
    requires forall p :: p in Both(a, b) ==> Agree(Tags(p.before.body.fields) + Tags(p.after.body.fields))
    ensures var r := ModelsAfter(a, b);
            New(r, b) == [] && New(b, r) == [] && ModelItems(Both(r, b)) == []
  {
    hide Last, New, Both, RunAll, FieldOps, DiffFields, Tags, ModelItems, Agree, ModelsAfter;
    var r := ModelsAfter(a, b);
    forall c | c != ""
      ensures Last(r, c).Some? <==> Last(b, c).Some?
    {
      ModelEffect(a, b, c);
    }
    NothingNew(r, b);
    NothingNew(b, r);
    forall q | q in Both(r, b)
      ensures DiffFields(q.before.body.fields, q.after.body.fields) == NO_FIELD_CHANGES
    {
      BothMembers(r, b, q);
      var c := q.after.code;
      ModelEffect(a, b, c);
      if Last(a, c).None? {
        FieldsSame(q.after.body.fields);
      } else {
        var p := Pair(Last(a, c).value, q.after);
        BothMembers(a, b, p);
        FieldsConverge(p.before.body.fields, p.after.body.fields);
      }
    }
    NoModelItems(Both(r, b));
  }

  // The whole patch, level by level.
  lemma PatchEffect(v1: Config, v2: Config)
    ensures ApplyOps(v1, OpsOf(SemanticDiff(v1, v2), v2)) ==
            Config(ModelsAfter(v1.models, v2.models),
                   RunAll(v1.dicts, Adds(New(v1.dicts, v2.dicts)) + PutsAfter(Filter(OptionsDiffer, Both(v1.dicts, v2.dicts)))
                                    + RemoveOps(NamesOf(New(v2.dicts, v1.dicts)))),
                   RunAll(v1.roles, Adds(New(v1.roles, v2.roles)) + RemoveOps(NamesOf(New(v2.roles, v1.roles)))))
  {
    hide New, Both, RunAll, Filter, Picked, PickedPuts, Edited, ModelItems, Items, NewItems,
         Adds, RemoveOps, ApplyOps, ForModels, ForDicts, ForRoles, EditOps;
    var d := SemanticDiff(v1, v2);
    ModelPatch(v1, v1, v2);
    var m := v1.(models := ModelsAfter(v1.models, v2.models));
    DictPatch(m, v1, v2);
    var dicts := RunAll(v1.dicts, Adds(New(v1.dicts, v2.dicts)) + PutsAfter(Filter(OptionsDiffer, Both(v1.dicts, v2.dicts)))
                                  + RemoveOps(NamesOf(New(v2.dicts, v1.dicts))));
    RolePatch(m.(dicts := dicts), v1, v2);
    var xs := ForModels(Adds(Picked(d.addedModels, v2.models))) + EditOps(d.modifiedModels) + ForModels(RemoveOps(Removes(d.removedModels)));
    var y1 := ForDicts(Adds(Picked(d.addedDicts, v2.dicts)));
    var y2 := ForDicts(PickedPuts(d.modifiedDicts, v2.dicts));
    var y3 := ForDicts(RemoveOps(Removes(d.removedDicts)));
    var z1 := ForRoles(Adds(Picked(d.addedRoles, v2.roles)));
    var z2 := ForRoles(RemoveOps(Removes(d.removedRoles)));
    assert OpsOf(d, v2) == xs + (y1 + y2 + y3) + (z1 + z2);
    ApplyOpsAppend(v1, xs + (y1 + y2 + y3), z1 + z2);
    ApplyOpsAppend(v1, xs, y1 + y2 + y3);
  }

  lemma ModelPatch(c: Config, v1: Config, v2: Config)
    requires c.models == v1.models
    ensures var d := SemanticDiff(v1, v2);
            ApplyOps(c, ForModels(Adds(Picked(d.addedModels, v2.models))) + EditOps(d.modifiedModels)
                        + ForModels(RemoveOps(Removes(d.removedModels))))
            == c.(models := ModelsAfter(v1.models, v2.models))
  {
    hide New, Both, RunAll, Picked, Edited, ModelItems, Items, ApplyOps, EditOps, ForModels;
    var d := SemanticDiff(v1, v2);
    PickedIsNew(v1.models, v2.models);
    RemovalNames(New(v2.models, v1.models));
    var adds, removes := Adds(New(v1.models, v2.models)), RemoveOps(NamesOf(New(v2.models, v1.models)));
    ApplyOpsAppend(c, ForModels(adds) + EditOps(d.modifiedModels), ForModels(removes));
    ApplyOpsAppend(c, ForModels(adds), EditOps(d.modifiedModels));
    ForModelsEffect(c, adds);
    RunAdds(v1.models, New(v1.models, v2.models));
    var c1 := c.(models := v1.models + New(v1.models, v2.models));
    EditOpsEffect(c1, d.modifiedModels);
    ForModelsEffect(c1.(models := Edited(c1.models, d.modifiedModels)), removes);
  }

  lemma DictPatch(c: Config, v1: Config, v2: Config)
    requires c.dicts == v1.dicts
    ensures var d := SemanticDiff(v1, v2);
            ApplyOps(c, ForDicts(Adds(Picked(d.addedDicts, v2.dicts))) + ForDicts(PickedPuts(d.modifiedDicts, v2.dicts))
                        + ForDicts(RemoveOps(Removes(d.removedDicts))))
            == c.(dicts := RunAll(v1.dicts, Adds(New(v1.dicts, v2.dicts))
                                            + PutsAfter(Filter(OptionsDiffer, Both(v1.dicts, v2.dicts)))
                                            + RemoveOps(NamesOf(New(v2.dicts, v1.dicts)))))
  {
    hide New, Both, RunAll, Filter, Picked, PickedPuts, Items, NewItems, ApplyOps, OptionsDiffer;
    var ps := Filter(OptionsDiffer, Both(v1.dicts, v2.dicts));
    PickedIsNew(v1.dicts, v2.dicts);
    RemovalNames(New(v2.dicts, v1.dicts));
    forall p | p in ps
      ensures ByCode(v2.dicts, p.after.code) == Some(p.after)
    {
      FilterMembers(OptionsDiffer, Both(v1.dicts, v2.dicts), p);
      BothMembers(v1.dicts, v2.dicts, p);
    }
    PickedPutsBack(ps, v2.dicts);
    var adds, puts, removes := Adds(New(v1.dicts, v2.dicts)), PutsAfter(ps), RemoveOps(NamesOf(New(v2.dicts, v1.dicts)));
    ForDictsEffect(c, adds + puts + removes);
    assert ForDicts(adds + puts + removes) == ForDicts(adds) + ForDicts(puts) + ForDicts(removes);
  }

  lemma RolePatch(c: Config, v1: Config, v2: Config)
    requires c.roles == v1.roles
    ensures var d := SemanticDiff(v1, v2);
            ApplyOps(c, ForRoles(Adds(Picked(d.addedRoles, v2.roles))) + ForRoles(RemoveOps(Removes(d.removedRoles))))
            == c.(roles := RunAll(v1.roles, Adds(New(v1.roles, v2.roles)) + RemoveOps(NamesOf(New(v2.roles, v1.roles)))))
  {
    hide New, RunAll, Picked, Items, ApplyOps;
    PickedIsNew(v1.roles, v2.roles);
    RemovalNames(New(v2.roles, v1.roles));
    var adds, removes := Adds(New(v1.roles, v2.roles)), RemoveOps(NamesOf(New(v2.roles, v1.roles)));
    ForRolesEffect(c, adds + removes);
    assert ForRoles(adds + removes) == ForRoles(adds) + ForRoles(removes);
  }

  lemma {:induction false} SelectedAll(ops: seq<Op>)
    ensures SelectedOps(AllSelected(ops)) == ops
    decreases |ops|
  {
    if ops != [] {
      var n := |ops| - 1;
      SelectedAll(ops[..n]);
      assert AllSelected(ops)[..n] == AllSelected(ops[..n]);
    }
  }

  // Patch convergence: when names agree with codes at every level, applying
  // all the actions leaves nothing to change.
  lemma PatchConverges(v1: Config, v2: Config)
    requires NamesMatchCodes(v1, v2)
    ensures var actions := AllSelected(OpsOf(SemanticDiff(v1, v2), v2));
            SemanticDiff(ApplyOps(v1, SelectedOps(actions)), v2) == EMPTY_DIFF
  {
    hide New, Both, RunAll, Filter, ModelItems, ApplyOps, OpsOf, Tags, Agree, ModelsAfter, Adds, RemoveOps, NamesOf, OptionsDiffer;
    SelectedAll(OpsOf(SemanticDiff(v1, v2), v2));
    PatchEffect(v1, v2);
    var r := ApplyOps(v1, OpsOf(SemanticDiff(v1, v2), v2));
    ModelsConverge(v1.models, v2.models);
    OptionsSame();
    LevelConverges(OptionsDiffer, v1.dicts, v2.dicts, r.dicts);
    RolesConverge(v1.roles, v2.roles, r.roles);
  }

  lemma OptionsSame()
    ensures forall x :: !OptionsDiffer(Pair(x, x))
  {
  }

  lemma RolesConverge(a: seq<Role>, b: seq<Role>, r: seq<Role>)
    requires Agree(Tags(a) + Tags(b))
    requires r == RunAll(a, Adds(New(a, b)) + RemoveOps(NamesOf(New(b, a))))
    ensures New(r, b) == [] && New(b, r) == []
  {
    hide New, Both, RunAll, Filter, Tags, Agree, RemoveOps, NamesOf;
    var never := (p: Pair<string>) => false;
    NothingLeft(never, Both(a, b));
    assert Adds(New(a, b)) + PutsAfter<string>([]) == Adds(New(a, b));
    LevelConverges(never, a, b, r);
  }
}
