// What the semantic difference says and what a patch reaches, entry by entry
// (backend/app/doc_differ.py:42-272).
//
// Nothing here is said through the code-keyed dictionaries or the comparison
// predicates: an entry stands for its code when it is the last one that has it.
module DiffMeaning {
  import opened Basics
  import opened DocDiffer

  ghost predicate Lists<T>(s: seq<Named<T>>, c: string) {
    exists x :: x in s && x.code == c
  }

  ghost predicate Stands<T>(s: seq<Named<T>>, e: Named<T>) {
    e.code != "" && exists i :: 0 <= i < |s| && s[i] == e && forall j :: i < j < |s| ==> s[j].code != e.code
  }

  lemma {:induction false} LastIs<T>(s: seq<Named<T>>, c: string)
    ensures Last(s, c).Some? <==> Lists(s, c)
    ensures c != "" && Last(s, c).Some? ==> Stands(s, Last(s, c).value)
    decreases |s|
  {
    if s != [] {
      var n := |s| - 1;
      LastIs(s[..n], c);
      assert s == s[..n] + [s[n]];
      if s[n].code != c && c != "" && Last(s[..n], c).Some? {
        var e := Last(s[..n], c).value;
        var i :| 0 <= i < n && s[..n][i] == e && forall j :: i < j < n ==> s[..n][j].code != e.code;
        assert s[i] == e && forall j :: i < j < |s| ==> s[j].code != e.code;
      }
    }
  }

  lemma OneStands<T>(s: seq<Named<T>>, a: Named<T>, b: Named<T>)
    requires Stands(s, a) && Stands(s, b) && a.code == b.code
    ensures a == b
  {
  }

  lemma StandsIsLast<T>(s: seq<Named<T>>, e: Named<T>)
    ensures Stands(s, e) <==> e.code != "" && Last(s, e.code) == Some(e)
  {
    hide Last, Stands;
    LastIs(s, e.code);
    if Stands(s, e) {
      StandsIsListed(s, e);
      OneStands(s, e, Last(s, e.code).value);
    }
  }

  lemma StandsIsListed<T>(s: seq<Named<T>>, e: Named<T>)
    requires Stands(s, e)
    ensures Lists(s, e.code) && e in s && e.code != ""
  {
  }

  // ----- what is compared -----

  // Dictionary, reference, or the types where both sides have one.
  ghost predicate FieldsSay(x: Field, y: Field) {
    || x.body.dict != y.body.dict
    || x.body.ref != y.body.ref
    || !(x.body.fieldType == "" || y.body.fieldType == "" || x.body.fieldType == y.body.fieldType)
  }

  ghost predicate HasChoice(d: DictDef, c: string) {
    exists o :: o in d.body && o.Choice? && o.code == c
  }

  ghost predicate OptionsSay(x: DictDef, y: DictDef) {
    exists c :: HasChoice(x, c) != HasChoice(y, c)
  }

  lemma ComparisonSays()
    ensures forall p :: FieldsDiffer(p) <==> FieldsSay(p.before, p.after)
    ensures forall p :: OptionsDiffer(p) <==> OptionsSay(p.before, p.after)
  {
    forall p: Pair<seq<Choice>>
      ensures OptionsDiffer(p) <==> OptionsSay(p.before, p.after)
    {
      var a, b := ChoiceCodes(p.before.body), ChoiceCodes(p.after.body);
      forall c
        ensures c in a <==> HasChoice(p.before, c)
        ensures c in b <==> HasChoice(p.after, c)
      {
      }
      if a != b {
        DifferentSets(a, b);
        var c :| (c in a) != (c in b);
        assert HasChoice(p.before, c) != HasChoice(p.after, c);
      }
    }
  }

  lemma DifferentSets(a: set<string>, b: set<string>)
    requires a != b
    ensures exists c :: (c in a) != (c in b)
  {
  }

  // ----- the lists of a comparison, entry by entry -----

  lemma NewIs<T>(a: seq<Named<T>>, b: seq<Named<T>>, x: Named<T>)
    ensures x in New(a, b) <==> Stands(b, x) && !Lists(a, x.code)
  {
    hide Last, New, Stands, Lists;
    NewMembers(a, b, x);
    LastIs(a, x.code);
    StandsIsLast(b, x);
  }

  lemma BothIs<T>(a: seq<Named<T>>, b: seq<Named<T>>, p: Pair<T>)
    ensures p in Both(a, b) <==> Stands(a, p.before) && Stands(b, p.after) && p.before.code == p.after.code
  {
    hide Last, Both, Stands;
    BothMembers(a, b, p);
    StandsIsLast(a, p.before);
    StandsIsLast(b, p.after);
    if Last(a, p.after.code) == Some(p.before) {
      assert p.before.code == p.after.code;
    }
  }

  // Code `c` comes before the first entry that has code `d`.
  ghost predicate ComesBefore<T>(s: seq<Named<T>>, c: string, d: string) {
    exists i :: 0 <= i < |s| && s[i].code == c && forall j :: 0 <= j <= i ==> s[j].code != d
  }

  ghost predicate CodesInOrder<T>(s: seq<Named<T>>, codes: seq<string>) {
    forall i, j :: 0 <= i < j < |codes| ==> ComesBefore(s, codes[i], codes[j])
  }

  lemma {:induction false} CodesOrdered<T>(s: seq<Named<T>>)
    ensures CodesInOrder(s, Codes(s))
    decreases |s|
  {
    if s != [] {
      var n := |s| - 1;
      CodesOrdered(s[..n]);
      var front := Codes(s[..n]);
      forall i, j | 0 <= i < j < |Codes(s)|
        ensures ComesBefore(s, Codes(s)[i], Codes(s)[j])
      {
        assert Codes(s)[i] == front[i];
        if j < |front| {
          StillBefore(s, n, front[i], front[j]);
        } else {
          NotListedBefore(s, n, front[i], s[n].code);
        }
      }
    }
  }

  lemma StillBefore<T>(s: seq<Named<T>>, n: nat, c: string, d: string)
    requires n < |s| && ComesBefore(s[..n], c, d)
    ensures ComesBefore(s, c, d)
  {
    var i :| 0 <= i < n && s[..n][i].code == c && forall j :: 0 <= j <= i ==> s[..n][j].code != d;
    assert s[i].code == c && forall j :: 0 <= j <= i ==> s[j].code != d by {
      assert forall j :: 0 <= j <= i ==> s[..n][j] == s[j];
    }
  }

  lemma NotListedBefore<T>(s: seq<Named<T>>, n: nat, c: string, d: string)
    requires n < |s| && c in Codes(s[..n]) && d != "" && d !in Codes(s[..n])
    ensures ComesBefore(s, c, d)
  {
    hide Last, Codes;
    CodesAreKeys(s[..n], c);
    CodesAreKeys(s[..n], d);
    LastIs(s[..n], c);
    LastIs(s[..n], d);
    var x :| x in s[..n] && x.code == c;
    var i :| 0 <= i < n && s[..n][i] == x;
    assert forall j :: 0 <= j <= i ==> s[j] in s[..n];
    assert s[i].code == c;
  }

  function CodesOf<T>(xs: seq<Named<T>>): seq<string> {
    seq(|xs|, i requires 0 <= i < |xs| => xs[i].code)
  }

  function PairCodes<T>(ps: seq<Pair<T>>): seq<string> {
    seq(|ps|, i requires 0 <= i < |ps| => ps[i].after.code)
  }

  // The codes of some of the given ones, in their order.
  ghost predicate Follow(codes: seq<string>, all: seq<string>, at: seq<nat>) {
    && |at| == |codes|
    && (forall i :: 0 <= i < |at| ==> at[i] < |all| && all[at[i]] == codes[i])
    && forall i, j :: 0 <= i < j < |at| ==> at[i] < at[j]
  }

  lemma {:induction false} StepsFollow<T>(codes: seq<string>, a: seq<Named<T>>, b: seq<Named<T>>) returns (news: seq<nat>, boths: seq<nat>)
    ensures Follow(CodesOf(NewOf(codes, a, b)), codes, news)
    ensures Follow(PairCodes(BothOf(codes, a, b)), codes, boths)
    decreases |codes|
  {
    hide Last;
    news, boths := [], [];
    if codes != [] {
      var n := |codes| - 1;
      news, boths := StepsFollow(codes[..n], a, b);
      CodeSteps(codes, n, a, b);
      assert codes[..n + 1] == codes;
      if Last(a, codes[n]).None? && Last(b, codes[n]).Some? {
        news := news + [n];
      }
      if Last(a, codes[n]).Some? && Last(b, codes[n]).Some? {
        boths := boths + [n];
      }
    }
  }

  lemma FollowersOrdered<T>(s: seq<Named<T>>, codes: seq<string>, all: seq<string>, at: seq<nat>)
    requires Follow(codes, all, at) && CodesInOrder(s, all)
    ensures CodesInOrder(s, codes)
  {
    hide ComesBefore;
    forall i, j | 0 <= i < j < |codes|
      ensures ComesBefore(s, codes[i], codes[j])
    {
      assert ComesBefore(s, all[at[i]], all[at[j]]);
    }
  }

  // Added and common entries come in the order in which their codes first come
  // in the new list, each code once.
  lemma ComparedInOrder<T>(a: seq<Named<T>>, b: seq<Named<T>>)
    ensures CodesInOrder(b, CodesOf(New(a, b))) && CodesInOrder(b, PairCodes(Both(a, b)))
  {
    CodesOrdered(b);
    var news, boths := StepsFollow(Codes(b), a, b);
    FollowersOrdered(b, CodesOf(New(a, b)), Codes(b), news);
    FollowersOrdered(b, PairCodes(Both(a, b)), Codes(b), boths);
  }

  lemma BeforeIsOther<T>(s: seq<Named<T>>, c: string, d: string)
    requires ComesBefore(s, c, d)
    ensures c != d && !ComesBefore(s, d, c)
  {
    var i :| 0 <= i < |s| && s[i].code == c && forall j :: 0 <= j <= i ==> s[j].code != d;
    assert s[i].code != d;
  }

  // ----- the whole difference -----

  // The item carries the name, "" when there is none, and the code.
  ghost predicate IsItemOf<T>(it: Item, x: Named<T>) {
    it.code == x.code && it.name == match x.name case Some(n) => n case None => ""
  }

  // The items are those of the entries of `b` that stand for a code which `a`
  // does not list, in the order of `b`.
  ghost predicate AreNew<T(!new)>(items: seq<Item>, a: seq<Named<T>>, b: seq<Named<T>>) {
    && (forall it :: it in items <==> exists x :: Stands(b, x) && !Lists(a, x.code) && IsItemOf(it, x))
    && forall i, j :: 0 <= i < j < |items| ==> ComesBefore(b, items[i].code, items[j].code)
  }

  // The fields of two models, compared.
  ghost predicate IsFieldDiff(d: FieldDiff, a: seq<Field>, b: seq<Field>) {
    && (forall x :: x in d.added <==> Stands(b, x) && !Lists(a, x.code))
    && (forall p :: p in d.modified <==>
          Stands(a, p.before) && Stands(b, p.after) && p.before.code == p.after.code && FieldsSay(p.before, p.after))
    && (forall x :: x in d.removed <==> Stands(a, x) && !Lists(b, x.code))
  }

  ghost predicate IsChangedModel(it: ModelItem, a: seq<Model>, b: seq<Model>, x: Model, y: Model) {
    && Stands(a, x) && Stands(b, y) && x.code == y.code
    && IsItemOf(Item(it.name, it.code), y)
    && it.changes == DiffFields(x.body.fields, y.body.fields) && it.changes != NO_FIELD_CHANGES
  }

  ghost predicate IsChangedDict(it: Item, a: seq<DictDef>, b: seq<DictDef>, x: DictDef, y: DictDef) {
    Stands(a, x) && Stands(b, y) && x.code == y.code && OptionsSay(x, y) && IsItemOf(it, y)
  }

  lemma NewItemsAre<T(!new)>(a: seq<Named<T>>, b: seq<Named<T>>)
    ensures AreNew(Items(New(a, b)), a, b)
  {
    hide New, Stands, Lists, ComesBefore;
    var xs := New(a, b);
    var items := Items(xs);
    forall x
      ensures x in xs <==> Stands(b, x) && !Lists(a, x.code)
    {
      NewIs(a, b, x);
    }
    forall it
      ensures it in items <==> exists x :: Stands(b, x) && !Lists(a, x.code) && IsItemOf(it, x)
    {
      if it in items {
        var i :| 0 <= i < |items| && items[i] == it;
        assert xs[i] in xs && IsItemOf(it, xs[i]);
      }
      if exists x :: Stands(b, x) && !Lists(a, x.code) && IsItemOf(it, x) {
        var x :| Stands(b, x) && !Lists(a, x.code) && IsItemOf(it, x);
        var i :| 0 <= i < |xs| && xs[i] == x;
        assert items[i] == it;
      }
    }
    ComparedInOrder(a, b);
    forall i, j | 0 <= i < j < |items|
      ensures ComesBefore(b, items[i].code, items[j].code)
    {
      assert ComesBefore(b, CodesOf(xs)[i], CodesOf(xs)[j]);
    }
  }

  lemma FieldDiffIs(a: seq<Field>, b: seq<Field>)
    ensures IsFieldDiff(DiffFields(a, b), a, b)
  {
    hide New, Both, Filter, Stands, Lists, FieldsDiffer, FieldsSay;
    ComparisonSays();
    forall x
      ensures x in New(a, b) <==> Stands(b, x) && !Lists(a, x.code)
      ensures x in New(b, a) <==> Stands(a, x) && !Lists(b, x.code)
    {
      NewIs(a, b, x);
      NewIs(b, a, x);
    }
    forall p
      ensures p in Filter(FieldsDiffer, Both(a, b)) <==>
              Stands(a, p.before) && Stands(b, p.after) && p.before.code == p.after.code && FieldsSay(p.before, p.after)
    {
      FilterMembers(FieldsDiffer, Both(a, b), p);
      BothIs(a, b, p);
    }
  }

  ghost predicate IsItemFor(it: ModelItem, p: Pair<ModelBody>) {
    && IsItemOf(Item(it.name, it.code), p.after)
    && it.changes == DiffFields(p.before.body.fields, p.after.body.fields) && it.changes != NO_FIELD_CHANGES
  }

  lemma {:induction false} ModelItemsAre(ps: seq<Pair<ModelBody>>, it: ModelItem)
    ensures it in ModelItems(ps) <==> exists p :: p in ps && IsItemFor(it, p)
    decreases |ps|
  {
    hide DiffFields, IsItemFor;
    if ps != [] {
      var n := |ps| - 1;
      ModelItemsAre(ps[..n], it);
      ItemForIs(it, ps[n]);
      assert ps == ps[..n] + [ps[n]];
      assert ps[n] in ps;
    }
  }

  lemma ItemForIs(it: ModelItem, p: Pair<ModelBody>)
    ensures var changes := DiffFields(p.before.body.fields, p.after.body.fields);
            IsItemFor(it, p) <==> changes != NO_FIELD_CHANGES && it == ModelItem(p.after.NameOrEmpty(), p.after.code, changes)
  {
    hide DiffFields;
  }

  lemma ChangedModelsAre(a: seq<Model>, b: seq<Model>)
    ensures forall it :: it in ModelItems(Both(a, b)) <==> exists x, y :: IsChangedModel(it, a, b, x, y)
  {
    hide Both, Stands, DiffFields, ModelItems;
    forall it
      ensures it in ModelItems(Both(a, b)) <==> exists x, y :: IsChangedModel(it, a, b, x, y)
    {
      ModelItemsAre(Both(a, b), it);
      forall p
        ensures p in Both(a, b) <==> Stands(a, p.before) && Stands(b, p.after) && p.before.code == p.after.code
      {
        BothIs(a, b, p);
      }
      if it in ModelItems(Both(a, b)) {
        var p :| p in Both(a, b) && IsItemFor(it, p);
        assert IsChangedModel(it, a, b, p.before, p.after);
      }
      if exists x, y :: IsChangedModel(it, a, b, x, y) {
        var x, y :| IsChangedModel(it, a, b, x, y);
        assert Pair(x, y) in Both(a, b) && IsItemFor(it, Pair(x, y));
      }
    }
  }

  lemma ChangedDictsAre(a: seq<DictDef>, b: seq<DictDef>)
    ensures forall it :: it in NewItems(Filter(OptionsDiffer, Both(a, b))) <==> exists x, y :: IsChangedDict(it, a, b, x, y)
  {
    hide Both, Stands, OptionsSay, OptionsDiffer, Filter;
    ComparisonSays();
    var ps := Filter(OptionsDiffer, Both(a, b));
    forall p
      ensures p in ps <==> Stands(a, p.before) && Stands(b, p.after) && p.before.code == p.after.code && OptionsSay(p.before, p.after)
    {
      FilterMembers(OptionsDiffer, Both(a, b), p);
      BothIs(a, b, p);
    }
    forall it
      ensures it in NewItems(ps) <==> exists x, y :: IsChangedDict(it, a, b, x, y)
    {
      if it in NewItems(ps) {
        var i :| 0 <= i < |ps| && NewItems(ps)[i] == it;
        assert ps[i] in ps;
        assert IsChangedDict(it, a, b, ps[i].before, ps[i].after);
      }
      if exists x, y :: IsChangedDict(it, a, b, x, y) {
        var x, y :| IsChangedDict(it, a, b, x, y);
        assert Pair(x, y) in ps;
        var i :| 0 <= i < |ps| && ps[i] == Pair(x, y);
        assert NewItems(ps)[i] == it;
      }
    }
  }

  // The difference, list by list.
  lemma DifferenceSays(v1: Config, v2: Config)
    ensures var d := SemanticDiff(v1, v2);
            && AreNew(d.addedModels, v1.models, v2.models) && AreNew(d.removedModels, v2.models, v1.models)
            && AreNew(d.addedDicts, v1.dicts, v2.dicts) && AreNew(d.removedDicts, v2.dicts, v1.dicts)
            && AreNew(d.addedRoles, v1.roles, v2.roles) && AreNew(d.removedRoles, v2.roles, v1.roles)
            && (forall it :: it in d.modifiedModels <==> exists x, y :: IsChangedModel(it, v1.models, v2.models, x, y))
            && (forall it :: it in d.modifiedDicts <==> exists x, y :: IsChangedDict(it, v1.dicts, v2.dicts, x, y))
  {
    hide New, Both, Items, NewItems, ModelItems, Filter, OptionsDiffer, AreNew, IsChangedModel, IsChangedDict;
    NewItemsAre(v1.models, v2.models);
    NewItemsAre(v2.models, v1.models);
    NewItemsAre(v1.dicts, v2.dicts);
    NewItemsAre(v2.dicts, v1.dicts);
    NewItemsAre(v1.roles, v2.roles);
    NewItemsAre(v2.roles, v1.roles);
    ChangedModelsAre(v1.models, v2.models);
    ChangedDictsAre(v1.dicts, v2.dicts);
  }

  // ----- an empty difference, entry by entry -----

  ghost predicate SameCodes<T>(a: seq<Named<T>>, b: seq<Named<T>>) {
    forall c :: c != "" ==> (Lists(a, c) <==> Lists(b, c))
  }

  // The same fields by code, saying the same.
  ghost predicate SameFields(a: seq<Field>, b: seq<Field>) {
    && SameCodes(a, b)
    && forall x, y :: Stands(a, x) && Stands(b, y) && x.code == y.code ==>
         && x.body.dict == y.body.dict && x.body.ref == y.body.ref
         && (x.body.fieldType == "" || y.body.fieldType == "" || x.body.fieldType == y.body.fieldType)
  }

  // The same models with the same fields, dictionaries with the same option
  // codes, and roles.
  ghost predicate SayTheSame(r: Config, v: Config) {
    && SameCodes(r.models, v.models) && SameCodes(r.dicts, v.dicts) && SameCodes(r.roles, v.roles)
    && (forall x, y :: Stands(r.models, x) && Stands(v.models, y) && x.code == y.code ==> SameFields(x.body.fields, y.body.fields))
    && (forall x, y :: Stands(r.dicts, x) && Stands(v.dicts, y) && x.code == y.code ==>
          forall c :: HasChoice(x, c) <==> HasChoice(y, c))
  }

  lemma NothingNewIs<T(!new)>(a: seq<Named<T>>, b: seq<Named<T>>)
    ensures New(a, b) == [] && New(b, a) == [] <==> SameCodes(a, b)
  {
    hide New, Last;
    forall c
      ensures Last(a, c).Some? <==> Lists(a, c)
      ensures Last(b, c).Some? <==> Lists(b, c)
    {
      LastIs(a, c);
      LastIs(b, c);
    }
    if SameCodes(a, b) {
      NothingNew(a, b);
      NothingNew(b, a);
    }
    if New(a, b) == [] && New(b, a) == [] {
      forall c | c != ""
        ensures Lists(a, c) <==> Lists(b, c)
      {
        if Lists(a, c) && !Lists(b, c) {
          NewMembers(b, a, Last(a, c).value);
        }
        if Lists(b, c) && !Lists(a, c) {
          NewMembers(a, b, Last(b, c).value);
        }
      }
    }
  }

  lemma NothingChangedIs<T(!new)>(f: Pair<T> -> bool, a: seq<Named<T>>, b: seq<Named<T>>)
    ensures Filter(f, Both(a, b)) == [] <==>
            forall x, y :: Stands(a, x) && Stands(b, y) && x.code == y.code ==> !f(Pair(x, y))
  {
    hide Both, Filter, Stands;
    var ps := Filter(f, Both(a, b));
    forall p
      ensures p in ps <==> Stands(a, p.before) && Stands(b, p.after) && p.before.code == p.after.code && f(p)
    {
      FilterMembers(f, Both(a, b), p);
      BothIs(a, b, p);
    }
    if ps != [] {
      assert ps[0] in ps;
      assert f(Pair(ps[0].before, ps[0].after));
    } else {
      forall x, y | Stands(a, x) && Stands(b, y) && x.code == y.code
        ensures !f(Pair(x, y))
      {
        assert Pair(x, y) !in ps;
      }
    }
  }

  lemma NoFieldChangesIs(a: seq<Field>, b: seq<Field>)
    ensures DiffFields(a, b) == NO_FIELD_CHANGES <==> SameFields(a, b)
  {
    hide New, Both, Filter, Stands, FieldsDiffer, SameCodes;
    ComparisonSays();
    NothingNewIs(a, b);
    NothingChangedIs(FieldsDiffer, a, b);
  }

  lemma {:induction false} NoModelItems(ps: seq<Pair<ModelBody>>)
    ensures ModelItems(ps) == [] <==>
            forall p :: p in ps ==> DiffFields(p.before.body.fields, p.after.body.fields) == NO_FIELD_CHANGES
    decreases |ps|
  {
    hide DiffFields;
    if ps != [] {
      NoModelItems(ps[..|ps| - 1]);
      assert ps == ps[..|ps| - 1] + [ps[|ps| - 1]];
      assert ps[|ps| - 1] in ps;
    }
  }

  lemma NoModelChangesIs(a: seq<Model>, b: seq<Model>)
    ensures ModelItems(Both(a, b)) == [] <==>
            forall x, y :: Stands(a, x) && Stands(b, y) && x.code == y.code ==> SameFields(x.body.fields, y.body.fields)
  {
    hide Both, Stands, DiffFields, SameFields, ModelItems;
    NoModelItems(Both(a, b));
    forall p
      ensures p in Both(a, b) <==> Stands(a, p.before) && Stands(b, p.after) && p.before.code == p.after.code
      ensures DiffFields(p.before.body.fields, p.after.body.fields) == NO_FIELD_CHANGES <==>
              SameFields(p.before.body.fields, p.after.body.fields)
    {
      BothIs(a, b, p);
      NoFieldChangesIs(p.before.body.fields, p.after.body.fields);
    }
    if ModelItems(Both(a, b)) == [] {
      forall x, y | Stands(a, x) && Stands(b, y) && x.code == y.code
        ensures SameFields(x.body.fields, y.body.fields)
      {
        assert Pair(x, y) in Both(a, b);
      }
    }
  }

  lemma NoDictChangesIs(a: seq<DictDef>, b: seq<DictDef>)
    ensures Filter(OptionsDiffer, Both(a, b)) == [] <==>
            forall x, y :: Stands(a, x) && Stands(b, y) && x.code == y.code ==> forall c :: HasChoice(x, c) <==> HasChoice(y, c)
  {
    hide Both, Stands, Filter, OptionsDiffer, HasChoice;
    ComparisonSays();
    NothingChangedIs(OptionsDiffer, a, b);
  }

  // The difference is empty exactly when the configurations say the same.
  lemma EmptyDifferenceSays(r: Config, v: Config)
    ensures SemanticDiff(r, v) == EMPTY_DIFF <==> SayTheSame(r, v)
  {
    hide New, Both, Filter, ModelItems, SameCodes, Stands, SameFields, HasChoice, OptionsDiffer;
    NothingNewIs(r.models, v.models);
    NothingNewIs(r.dicts, v.dicts);
    NothingNewIs(r.roles, v.roles);
    NoModelChangesIs(r.models, v.models);
    NoDictChangesIs(r.dicts, v.dicts);
  }

  // What a patch reaches where names agree with codes.
  lemma PatchReachesTarget(v1: Config, v2: Config)
    requires NamesMatchCodes(v1, v2)
    ensures SayTheSame(ApplyOps(v1, SelectedOps(AllSelected(OpsOf(SemanticDiff(v1, v2), v2)))), v2)
  {
    hide NamesMatchCodes, ApplyOps, SelectedOps, AllSelected, OpsOf, SemanticDiff, SayTheSame;
    PatchConverges(v1, v2);
    EmptyDifferenceSays(ApplyOps(v1, SelectedOps(AllSelected(OpsOf(SemanticDiff(v1, v2), v2)))), v2);
  }

  // ----- what is applied -----

  // The operations of the selected actions, in order.
  lemma {:induction false} SelectedInOrder(a: seq<Action>, b: seq<Action>)
    ensures SelectedOps(a + b) == SelectedOps(a) + SelectedOps(b)
    decreases |b|
  {
    if b == [] {
      assert a + b == a;
    } else {
      SelectedInOrder(a, b[..|b| - 1]);
      assert (a + b)[..|a + b| - 1] == a + b[..|b| - 1];
    }
  }

  lemma SelectedOne(x: Action)
    ensures SelectedOps([x]) == if x.selected then [x.op] else []
  {
    assert [x][..0] == [];
  }

  // Removing keeps every other entry, in order.
  lemma {:induction false} WithoutInOrder<T>(a: seq<Named<T>>, b: seq<Named<T>>, target: string)
    ensures Without(a + b, target) == Without(a, target) + Without(b, target)
    decreases |b|
  {
    if b == [] {
      assert a + b == a;
    } else {
      WithoutInOrder(a, b[..|b| - 1], target);
      assert (a + b)[..|a + b| - 1] == a + b[..|b| - 1];
    }
  }

  lemma WithoutOne<T>(x: Named<T>, target: string)
    ensures Without([x], target) == if x.name == Some(target) then [] else [x]
  {
    assert [x][..0] == [];
  }

  // What the patch leaves alone. A dictionary stays as it is when its options
  // say the same, and a role under the same code stays.
  lemma PatchKeepsTheRest(v1: Config, v2: Config)
    requires NamesMatchCodes(v1, v2)
    ensures var r := ApplyOps(v1, OpsOf(SemanticDiff(v1, v2), v2));
            && (forall x, y :: Stands(v1.dicts, x) && Stands(v2.dicts, y) && x.code == y.code ==>
                  Stands(r.dicts, if OptionsSay(x, y) then y else x))
            && (forall y :: Stands(v2.dicts, y) && !Lists(v1.dicts, y.code) ==> Stands(r.dicts, y))
            && (forall x, y :: Stands(v1.roles, x) && Stands(v2.roles, y) && x.code == y.code ==> Stands(r.roles, x))
            && (forall y :: Stands(v2.roles, y) && !Lists(v1.roles, y.code) ==> Stands(r.roles, y))
  {
    hide New, Both, RunAll, Filter, ApplyOps, OpsOf, Tags, Agree, ModelsAfter, Adds, PutsAfter, RemoveOps, NamesOf, OptionsDiffer,
         SemanticDiff, OptionsSay, Stands, Lists, Last;
    PatchEffect(v1, v2);
    var r := ApplyOps(v1, OpsOf(SemanticDiff(v1, v2), v2));
    var changed := Filter(OptionsDiffer, Both(v1.dicts, v2.dicts));
    forall p
      ensures p in changed <==> IsChangedPair(p, v1.dicts, v2.dicts)
      ensures p in changed ==> p in Both(v1.dicts, v2.dicts)
    {
      ComparisonSays();
      FilterMembers(OptionsDiffer, Both(v1.dicts, v2.dicts), p);
      BothIs(v1.dicts, v2.dicts, p);
    }
    forall x, y | Stands(v1.dicts, x) && Stands(v2.dicts, y) && x.code == y.code
      ensures Stands(r.dicts, if OptionsSay(x, y) then y else x)
    {
      ChangedHere(changed, v1.dicts, v2.dicts, x, y);
      LevelStands(v1.dicts, v2.dicts, changed, y);
      StandsIsLast(v1.dicts, x);
      StandsIsLast(r.dicts, if OptionsSay(x, y) then y else x);
    }
    forall y | Stands(v2.dicts, y) && !Lists(v1.dicts, y.code)
      ensures Stands(r.dicts, y)
    {
      LevelStands(v1.dicts, v2.dicts, changed, y);
      LastIs(v1.dicts, y.code);
      StandsIsLast(r.dicts, y);
    }
    assert r.roles == RunAll(v1.roles, Adds(New(v1.roles, v2.roles)) + PutsAfter([]) + RemoveOps(NamesOf(New(v2.roles, v1.roles)))) by {
      NoPuts(Adds(New(v1.roles, v2.roles)));
    }
    forall y | Stands(v2.roles, y)
      ensures forall x :: Stands(v1.roles, x) && x.code == y.code ==> Stands(r.roles, x)
      ensures !Lists(v1.roles, y.code) ==> Stands(r.roles, y)
    {
      LevelStands(v1.roles, v2.roles, [], y);
      LastIs(v1.roles, y.code);
      forall x | Stands(v1.roles, x) && x.code == y.code
        ensures Stands(r.roles, x)
      {
        StandsIsLast(v1.roles, x);
        StandsIsLast(r.roles, x);
      }
      StandsIsLast(r.roles, y);
    }
  }

  lemma NoPuts<T>(ops: seq<ListOp<T>>)
    ensures ops + PutsAfter([]) == ops
  {
  }

  ghost predicate IsChangedPair(p: Pair<seq<Choice>>, a: seq<DictDef>, b: seq<DictDef>) {
    Stands(a, p.before) && Stands(b, p.after) && p.before.code == p.after.code && OptionsSay(p.before, p.after)
  }

  lemma ChangedHere(changed: seq<Pair<seq<Choice>>>, a: seq<DictDef>, b: seq<DictDef>, x: DictDef, y: DictDef)
    requires forall p :: p in changed <==> IsChangedPair(p, a, b)
    requires Stands(a, x) && Stands(b, y) && x.code == y.code
    ensures HasCode(changed, y.code) <==> OptionsSay(x, y)
  {
    hide Stands, OptionsSay;
    if HasCode(changed, y.code) {
      var p :| p in changed && p.after.code == y.code;
      OneStands(a, x, p.before);
      OneStands(b, y, p.after);
    }
    if OptionsSay(x, y) {
      assert Pair(x, y) in changed;
    }
  }

  lemma LevelStands<T>(a: seq<Named<T>>, b: seq<Named<T>>, ps: seq<Pair<T>>, y: Named<T>)
    requires Agree(Tags(a) + Tags(b)) && Stands(b, y) && forall p :: p in ps ==> p in Both(a, b)
    ensures y.code != ""
    ensures var r := RunAll(a, Adds(New(a, b)) + PutsAfter(ps) + RemoveOps(NamesOf(New(b, a))));
            Last(r, y.code) == if Last(a, y.code).None? || HasCode(ps, y.code) then Some(y) else Last(a, y.code)
  {
    hide Agree, Tags, RunAll, New, Both, Adds, PutsAfter, RemoveOps, NamesOf, Last, HasCode, Stands;
    StandsIsLast(b, y);
    LevelEffect(a, b, ps, y.code);
  }

  // ----- what one operation does -----

  // `r` is `s` after the operation: an entry comes last, the entries of the name
  // are overwritten in place, or they are left out.
  ghost predicate Runs<T>(s: seq<Named<T>>, op: ListOp<T>, r: seq<Named<T>>) {
    match op
    case Add(e) => r == s + [e]
    case Put(t, e) => |r| == |s| && forall i :: 0 <= i < |s| ==> r[i] == if s[i].name == Some(t) then e else s[i]
    case Remove(t) => r == Without(s, t)
  }

  lemma {:induction false} Overwritten<T>(s: seq<Named<T>>, t: string, e: Named<T>)
    ensures Runs(s, Put(t, e), Replace(s, t, e))
    decreases |s|
  {
    if s != [] {
      Overwritten(s[..|s| - 1], t, e);
    }
  }

  lemma RunSays<T>(s: seq<Named<T>>, op: ListOp<T>)
    ensures Runs(s, op, Run(s, op))
  {
    if op.Put? {
      Overwritten(s, op.target, op.entry);
    }
  }

  // An operation reaches its own list only. One on fields reaches the fields of
  // every model of the name, and nothing else of it. Overwriting is not known for
  // models and roles, and ignored.
  lemma OperationSays(c: Config, op: Op)
    ensures var r := ApplyOp(c, op);
            match op
            case OnModels(o) => r.dicts == c.dicts && r.roles == c.roles && (if o.Put? then r == c else Runs(c.models, o, r.models))
            case OnDicts(o) => r.models == c.models && r.roles == c.roles && Runs(c.dicts, o, r.dicts)
            case OnRoles(o) => r.models == c.models && r.dicts == c.dicts && (if o.Put? then r == c else Runs(c.roles, o, r.roles))
            case OnFields(m, o) =>
              && r.dicts == c.dicts && r.roles == c.roles && |r.models| == |c.models|
              && forall i :: 0 <= i < |c.models| ==>
                   var x, y := c.models[i], r.models[i];
                   if x.name == Some(m) then
                     y.name == x.name && y.code == x.code && y.body.rest == x.body.rest && Runs(x.body.fields, o, y.body.fields)
                   else y == x
  {
    hide Run, Runs;
    match op {
      case OnModels(o) => RunSays(c.models, o);
      case OnDicts(o) => RunSays(c.dicts, o);
      case OnRoles(o) => RunSays(c.roles, o);
      case OnFields(m, o) =>
        EditIsPointwise(c.models, m, o);
        forall x: Model {
          RunSays(x.body.fields, o);
        }
    }
  }
}
