// Ordering forms so that the target of every data selector is created before
// the form that selects from it (backend/app/generator_v2.py:279-415).
module FormScheduler {
  import opened Basics
  import opened PyText

  // A missing string entry is "". An absent or empty configuration is NoConfig.
  datatype Config = NoConfig | Config(target: string)
  datatype Ref = NoRef | RefModel(model: string) | RefText(text: string)

  // List entries that are not dictionaries are skipped by the program; a
  // `tableColumn` that is missing or not a list has no entries.
  datatype Node = NotADict | Dict(
    componentType: string, componentTypeAlt: string, plainType: string,
    labelText: string, name: string, code: string,
    formAssociationConfig: Config, formAssociationConfigAlt: Config,
    dataSelectorConfig: Config, dataSelectorConfigAlt: Config,
    selectorFormCode: string, associationFormCode: string,
    refModelCodeAlt: string, refModelCode: string, ref: Ref,
    tableColumn: seq<Node>)

  type Component = n: Node | n.Dict? witness Dict("", "", "", "", "", "", NoConfig, NoConfig, NoConfig, NoConfig, "", "", "", "", NoRef, [])

  // `identities` are the keys under which a form can be referred to.
  datatype Form = Form(identities: seq<string>, components: seq<Node>)

  datatype Issue =
    | MissingTarget(form: nat, component: string)
    | UnknownTarget(form: nat, component: string, target: string)
    | DependencyCycle(forms: seq<nat>)

  const DATA_SELECTOR_TYPES := {
    "FORM_DATA_SELECTOR_SINGLE", "FORM_DATA_SELECTOR", "数据单选", "数据选择", "数据多选" }

  function TypeOf(c: Component): string {
    Strip(Or(c.componentType, Or(c.componentTypeAlt, c.plainType)))
  }

  function LabelOf(c: Component): string {
    Strip(Or(c.labelText, Or(c.name, c.code)))
  }

  function ConfigTarget(c: Config, alt: Config): string {
    match c
    case Config(target) => target
    case NoConfig => if alt.Config? then alt.target else ""
  }

  function RefTarget(r: Ref): string {
    match r
    case NoRef => ""
    case RefModel(m) => m
    case RefText(t) => t
  }

  function TargetOf(c: Component): string {
    Strip(Or(ConfigTarget(c.formAssociationConfig, c.formAssociationConfigAlt),
             Or(ConfigTarget(c.dataSelectorConfig, c.dataSelectorConfigAlt),
                Or(c.selectorFormCode,
                   Or(c.associationFormCode,
                      Or(c.refModelCodeAlt,
                         Or(c.refModelCode, RefTarget(c.ref))))))))
  }

  predicate IsSelector(c: Component) {
    TypeOf(c) in DATA_SELECTOR_TYPES
  }

  // ----- what the entries of a component say -----

  // A configuration hides its alternative even when it names no target.
  ghost function ConfigEntry(c: Config, alt: Config): string {
    match (c, alt)
    case (Config(t), _) => t
    case (NoConfig, Config(t)) => t
    case (NoConfig, NoConfig) => ""
  }

  // Where the target of a selector is looked for, in this order.
  ghost function TargetEntries(c: Component): seq<string> {
    [ConfigEntry(c.formAssociationConfig, c.formAssociationConfigAlt),
     ConfigEntry(c.dataSelectorConfig, c.dataSelectorConfigAlt),
     c.selectorFormCode, c.associationFormCode, c.refModelCodeAlt, c.refModelCode,
     match c.ref case NoRef => "" case RefModel(m) => m case RefText(t) => t]
  }

  // The component is a data selector, and this is what its entries name.
  ghost predicate SelectsFrom(c: Component, target: string) {
    && (exists kind :: IsFirstGiven([c.componentType, c.componentTypeAlt, c.plainType], kind)
                       && Strip(kind) in {"FORM_DATA_SELECTOR_SINGLE", "FORM_DATA_SELECTOR", "数据单选", "数据选择", "数据多选"})
    && exists t :: IsFirstGiven(TargetEntries(c), t) && Strip(t) == target
  }

  ghost predicate IsLabel(c: Component, text: string) {
    exists t :: IsFirstGiven([c.labelText, c.name, c.code], t) && Strip(t) == text
  }

  lemma FirstOfFive(a: string, b: string, c: string, d: string, e: string)
    ensures IsFirstGiven([a, b, c, d, e], Or(a, Or(b, Or(c, Or(d, e)))))
  {
    hide IsFirstGiven, Or;
    FirstOfThree(c, d, e);
    OrIsFirstGiven(b, [c, d, e], Or(c, Or(d, e)));
    assert [b] + [c, d, e] == [b, c, d, e];
    OrIsFirstGiven(a, [b, c, d, e], Or(b, Or(c, Or(d, e))));
    assert [a] + [b, c, d, e] == [a, b, c, d, e];
  }

  lemma FirstOfSeven(a: string, b: string, c: string, d: string, e: string, f: string, g: string)
    ensures IsFirstGiven([a, b, c, d, e, f, g], Or(a, Or(b, Or(c, Or(d, Or(e, Or(f, g)))))))
  {
    hide IsFirstGiven, Or;
    FirstOfFive(c, d, e, f, g);
    OrIsFirstGiven(b, [c, d, e, f, g], Or(c, Or(d, Or(e, Or(f, g)))));
    assert [b] + [c, d, e, f, g] == [b, c, d, e, f, g];
    OrIsFirstGiven(a, [b, c, d, e, f, g], Or(b, Or(c, Or(d, Or(e, Or(f, g))))));
    assert [a] + [b, c, d, e, f, g] == [a, b, c, d, e, f, g];
  }

  lemma TargetIsFirst(c: Component)
    ensures exists t :: IsFirstGiven(TargetEntries(c), t) && Strip(t) == TargetOf(c)
  {
    hide Strip, IsFirstGiven, Or;
    var a := ConfigTarget(c.formAssociationConfig, c.formAssociationConfigAlt);
    var b := ConfigTarget(c.dataSelectorConfig, c.dataSelectorConfigAlt);
    FirstOfSeven(a, b, c.selectorFormCode, c.associationFormCode, c.refModelCodeAlt, c.refModelCode, RefTarget(c.ref));
    assert TargetEntries(c) == [a, b, c.selectorFormCode, c.associationFormCode, c.refModelCodeAlt, c.refModelCode, RefTarget(c.ref)];
    assert TargetOf(c) == Strip(Or(a, Or(b, Or(c.selectorFormCode, Or(c.associationFormCode, Or(c.refModelCodeAlt,
                                   Or(c.refModelCode, RefTarget(c.ref))))))));
  }

  // Kind, target and label are read off the entries.
  lemma SelectorReads(c: Component)
    ensures forall t :: SelectsFrom(c, t) <==> IsSelector(c) && TargetOf(c) == t
    ensures forall l :: IsLabel(c, l) <==> LabelOf(c) == l
  {
    hide Strip, IsFirstGiven, TargetOf, TargetEntries;
    TargetIsFirst(c);
    var t :| IsFirstGiven(TargetEntries(c), t) && Strip(t) == TargetOf(c);
    FirstOfThree(c.componentType, c.componentTypeAlt, c.plainType);
    FirstOfThree(c.labelText, c.name, c.code);
    forall u
      ensures IsFirstGiven(TargetEntries(c), u) ==> u == t
      ensures IsFirstGiven([c.componentType, c.componentTypeAlt, c.plainType], u) ==>
                u == Or(c.componentType, Or(c.componentTypeAlt, c.plainType))
      ensures IsFirstGiven([c.labelText, c.name, c.code], u) ==> u == Or(c.labelText, Or(c.name, c.code))
    {
      EachIsFirstGiven(TargetEntries(c), u, t);
      EachIsFirstGiven([c.componentType, c.componentTypeAlt, c.plainType], u, Or(c.componentType, Or(c.componentTypeAlt, c.plainType)));
      EachIsFirstGiven([c.labelText, c.name, c.code], u, Or(c.labelText, Or(c.name, c.code)));
    }
  }

  // ----- components, nested table columns included -----

  function DefsOf(n: Node): seq<Component>
    decreases n
  {
    if n.Dict? then [n] + Defs(n.tableColumn) else []
  }

  function Defs(nodes: seq<Node>): seq<Component>
    decreases nodes
  {
    if nodes == [] then [] else DefsOf(nodes[0]) + Defs(nodes[1..])
  }

  // `c` is the dictionary `n`, or stands at some depth of its table columns.
  ghost predicate Within(n: Node, c: Component)
    decreases n
  {
    n.Dict? && (n == c || exists m :: m in n.tableColumn && Within(m, c))
  }

  lemma {:induction false} DefsOfAreWithin(n: Node, c: Component)
    ensures c in DefsOf(n) <==> Within(n, c)
    decreases n
  {
    if n.Dict? {
      DefsAreWithin(n.tableColumn, c);
    }
  }

  // The flat list holds exactly the components at any depth.
  lemma {:induction false} DefsAreWithin(nodes: seq<Node>, c: Component)
    ensures c in Defs(nodes) <==> exists m :: m in nodes && Within(m, c)
    decreases nodes
  {
    if nodes != [] {
      DefsOfAreWithin(nodes[0], c);
      DefsAreWithin(nodes[1..], c);
      assert nodes == [nodes[0]] + nodes[1..];
    }
  }

  // The flat list goes through the components in order, each before its columns.
  lemma {:induction false} DefsInOrder(a: seq<Node>, b: seq<Node>)
    ensures Defs(a + b) == Defs(a) + Defs(b)
  {
    if a == [] {
      assert a + b == b;
    } else {
      assert (a + b)[1..] == a[1..] + b;
      DefsInOrder(a[1..], b);
    }
  }

  lemma DefsOfOne(n: Node)
    ensures Defs([n]) == if n.Dict? then [n] + Defs(n.tableColumn) else []
  {
    assert [n][1..] == [];
  }

  method IterDict(n: Node) returns (items: seq<Component>)
    ensures items == DefsOf(n)
    decreases n
  {
    items := [];
    if n.Dict? {
      var nested := IterComponentDefs(n.tableColumn);
      items := [n] + nested;
    }
  }

  lemma DefsStep(nodes: seq<Node>, i: nat)
    requires i <= |nodes|
    ensures Defs(nodes[i..]) == if i == |nodes| then [] else DefsOf(nodes[i]) + Defs(nodes[i + 1..])
  {
    if i < |nodes| {
      assert nodes[i..][0] == nodes[i] && nodes[i..][1..] == nodes[i + 1..];
    }
  }

  method IterComponentDefs(nodes: seq<Node>) returns (items: seq<Component>)
    ensures items == Defs(nodes)
    decreases nodes
  {
    hide Defs, DefsOf;
    items := [];
    assert nodes[0..] == nodes;
    for i := 0 to |nodes|
      invariant items + Defs(nodes[i..]) == Defs(nodes)
    {
      DefsStep(nodes, i);
      ghost var before := items;
      var own := IterDict(nodes[i]);
      items := items + own;
      assert before + (own + Defs(nodes[i + 1..])) == items + Defs(nodes[i + 1..]);
    }
    DefsStep(nodes, |nodes|);
    assert items + [] == items;
  }

  // ----- which form a target names -----

  // The first form that carries the identity.
  function Lookup(forms: seq<Form>, target: string): (r: Option<nat>)
    ensures r.Some? ==> r.value < |forms| && target in forms[r.value].identities
                        && forall i :: 0 <= i < r.value ==> target !in forms[i].identities
    ensures r.None? ==> forall i :: 0 <= i < |forms| ==> target !in forms[i].identities
  {
    if forms == [] then None
    else
      var front := Lookup(forms[..|forms| - 1], target);
      if front.Some? then front
      else if target in forms[|forms| - 1].identities then Some(|forms| - 1)
      else None
  }

  method RegisterIdentities(forms: seq<Form>) returns (identityToIdx: map<string, nat>)
    ensures forall t :: t in identityToIdx <==> Lookup(forms, t).Some?
    ensures forall t :: t in identityToIdx ==> identityToIdx[t] == Lookup(forms, t).value
  {
    identityToIdx := map[];
    for idx := 0 to |forms|
      invariant forall t :: t in identityToIdx <==> exists i :: 0 <= i < idx && t in forms[i].identities
      invariant forall t :: t in identityToIdx ==>
                  && 0 <= identityToIdx[t] < idx
                  && t in forms[identityToIdx[t]].identities
                  && forall i :: 0 <= i < identityToIdx[t] ==> t !in forms[i].identities
    {
      ghost var before := identityToIdx;
      var values := forms[idx].identities;
      for k := 0 to |values|
        invariant forall t :: t in identityToIdx <==> t in before || t in values[..k]
        invariant forall t :: t in identityToIdx ==> identityToIdx[t] == if t in before then before[t] else idx
      {
        if values[k] !in identityToIdx {
          identityToIdx := identityToIdx[values[k] := idx];
        }
        assert values[..k + 1] == values[..k] + [values[k]];
      }
      assert values[..|values|] == values;
    }
  }

  // ----- dependencies and unresolved targets -----

  // What one selector of form `idx` contributes.
  datatype Verdict = Free | Needs(target: nat) | Bad(issue: Issue)

  function Judge(forms: seq<Form>, existing: set<string>, idx: nat, c: Component): Verdict {
    if !IsSelector(c) then Free
    else
      var target := TargetOf(c);
      if target == "" then Bad(MissingTarget(idx, LabelOf(c)))
      else
        var found := Lookup(forms, target);
        if found.Some? then (if found.value == idx then Free else Needs(found.value))
        else if target in existing then Free
        else Bad(UnknownTarget(idx, LabelOf(c), target))
  }

  // A component of the form, at any depth.
  ghost predicate IsComponent(form: Form, c: Component) {
    exists m :: m in form.components && Within(m, c)
  }

  // The first form of the batch that carries the target.
  ghost predicate IsNamed(forms: seq<Form>, target: string, dep: nat) {
    dep < |forms| && target in forms[dep].identities && forall i :: 0 <= i < dep ==> target !in forms[i].identities
  }

  // The forms of the batch that form `idx` must come after: those that its
  // selectors name, at any depth, other than itself.
  ghost predicate Requires(forms: seq<Form>, idx: nat, dep: nat) {
    && idx < |forms| && dep != idx
    && exists c, target :: IsComponent(forms[idx], c) && SelectsFrom(c, target) && target != "" && IsNamed(forms, target, dep)
  }

  // A selector whose target is missing, or neither in the batch nor known.
  ghost predicate IsUnresolved(forms: seq<Form>, existing: set<string>, idx: nat, c: Component, issue: Issue) {
    exists target, text :: SelectsFrom(c, target) && IsLabel(c, text) &&
      if target == "" then issue == MissingTarget(idx, text)
      else (forall i :: 0 <= i < |forms| ==> target !in forms[i].identities) && target !in existing
           && issue == UnknownTarget(idx, text, target)
  }

  // The verdict, in terms of what the entries say.
  lemma JudgeDecides(forms: seq<Form>, existing: set<string>, idx: nat, c: Component)
    ensures forall d: nat :: Judge(forms, existing, idx, c) == Needs(d) <==>
              d != idx && exists target :: SelectsFrom(c, target) && target != "" && IsNamed(forms, target, d)
    ensures forall issue :: Judge(forms, existing, idx, c) == Bad(issue) <==> IsUnresolved(forms, existing, idx, c, issue)
  {
    hide SelectsFrom, IsLabel, IsSelector, TargetOf, LabelOf, Lookup;
    SelectorReads(c);
    var target := TargetOf(c);
    assert SelectsFrom(c, target) == IsSelector(c) && IsLabel(c, LabelOf(c));
    forall d: nat
      ensures IsNamed(forms, target, d) <==> Lookup(forms, target) == Some(d)
    {
    }
  }

  lemma RequiresByVerdict(forms: seq<Form>, existing: set<string>, idx: nat, dep: nat)
    ensures Requires(forms, idx, dep) <==>
            idx < |forms| && exists c :: c in Defs(forms[idx].components) && Judge(forms, existing, idx, c) == Needs(dep)
  {
    hide Judge, Defs, SelectsFrom, IsNamed;
    if idx < |forms| {
      forall c: Component
        ensures c in Defs(forms[idx].components) <==> IsComponent(forms[idx], c)
        ensures Judge(forms, existing, idx, c) == Needs(dep) <==>
                dep != idx && exists target :: SelectsFrom(c, target) && target != "" && IsNamed(forms, target, dep)
      {
        DefsAreWithin(forms[idx].components, c);
        JudgeDecides(forms, existing, idx, c);
      }
    }
  }

  function IssuesOf(forms: seq<Form>, existing: set<string>, idx: nat, cs: seq<Component>): seq<Issue> {
    if cs == [] then []
    else
      var verdict := Judge(forms, existing, idx, cs[|cs| - 1]);
      IssuesOf(forms, existing, idx, cs[..|cs| - 1]) + (if verdict.Bad? then [verdict.issue] else [])
  }

  function Unresolved(forms: seq<Form>, existing: set<string>, upTo: nat): seq<Issue>
    requires upTo <= |forms|
  {
    if upTo == 0 then []
    else Unresolved(forms, existing, upTo - 1)
         + IssuesOf(forms, existing, upTo - 1, Defs(forms[upTo - 1].components))
  }

  // ----- what is reported -----

  lemma {:induction false} IssuesMembers(forms: seq<Form>, existing: set<string>, idx: nat, cs: seq<Component>, issue: Issue)
    ensures issue in IssuesOf(forms, existing, idx, cs) <==> exists c :: c in cs && IsUnresolved(forms, existing, idx, c, issue)
    decreases |cs|
  {
    hide Judge, IsUnresolved;
    if cs != [] {
      var n := |cs| - 1;
      IssuesMembers(forms, existing, idx, cs[..n], issue);
      JudgeDecides(forms, existing, idx, cs[n]);
      assert cs == cs[..n] + [cs[n]];
    }
  }

  lemma NoIssues(forms: seq<Form>, existing: set<string>, idx: nat)
    ensures IssuesOf(forms, existing, idx, []) == []
  {
  }

  lemma IssuesStep(forms: seq<Form>, existing: set<string>, idx: nat, cs: seq<Component>)
    requires cs != []
    ensures var n, verdict := |cs| - 1, Judge(forms, existing, idx, cs[|cs| - 1]);
            IssuesOf(forms, existing, idx, cs) == IssuesOf(forms, existing, idx, cs[..n]) + (if verdict.Bad? then [verdict.issue] else [])
  {
    hide Judge;
  }

  // The issues follow the selectors in their order, each selector giving at
  // most one.
  lemma {:induction false} IssuesInOrder(forms: seq<Form>, existing: set<string>, idx: nat, a: seq<Component>, b: seq<Component>)
    ensures IssuesOf(forms, existing, idx, a + b) == IssuesOf(forms, existing, idx, a) + IssuesOf(forms, existing, idx, b)
    ensures |IssuesOf(forms, existing, idx, b)| <= |b|
    decreases |b|
  {
    hide Judge, IssuesOf;
    if b == [] {
      assert a + b == a;
      NoIssues(forms, existing, idx);
    } else {
      var n := |b| - 1;
      IssuesInOrder(forms, existing, idx, a, b[..n]);
      assert (a + b)[..|a| + n] == a + b[..n];
      IssuesStep(forms, existing, idx, b);
      IssuesStep(forms, existing, idx, a + b);
    }
  }

  ghost function FormOf(issue: Issue): nat {
    match issue
    case MissingTarget(f, _) => f
    case UnknownTarget(f, _, _) => f
    case DependencyCycle(_) => 0
  }

  // Some selector of the form, at any depth, gives the issue.
  ghost predicate Reports(forms: seq<Form>, existing: set<string>, i: nat, issue: Issue) {
    i < |forms| && exists c :: IsComponent(forms[i], c) && IsUnresolved(forms, existing, i, c, issue)
  }

  lemma IssuesOfForm(forms: seq<Form>, existing: set<string>, i: nat, issue: Issue)
    requires i < |forms|
    ensures issue in IssuesOf(forms, existing, i, Defs(forms[i].components)) <==> Reports(forms, existing, i, issue)
    ensures Reports(forms, existing, i, issue) ==> FormOf(issue) == i
  {
    hide IsUnresolved, IssuesOf, IsComponent, Defs;
    IssuesMembers(forms, existing, i, Defs(forms[i].components), issue);
    forall c: Component
      ensures c in Defs(forms[i].components) <==> IsComponent(forms[i], c)
      ensures IsUnresolved(forms, existing, i, c, issue) ==> FormOf(issue) == i
    {
      ComponentsAre(forms[i], c);
      UnresolvedFormOf(forms, existing, i, c, issue);
    }
  }

  // Reported are exactly the unresolved selectors, form by form.
  lemma {:induction false} UnresolvedAre(forms: seq<Form>, existing: set<string>, upTo: nat)
    requires upTo <= |forms|
    ensures var us := Unresolved(forms, existing, upTo);
            && (forall issue :: issue in us <==> FormOf(issue) < upTo && Reports(forms, existing, FormOf(issue), issue))
            && forall k, l :: 0 <= k < l < |us| ==> FormOf(us[k]) <= FormOf(us[l])
    decreases upTo
  {
    hide IssuesOf, Reports, Defs;
    if upTo > 0 {
      var n := upTo - 1;
      UnresolvedAre(forms, existing, n);
      var before, own := Unresolved(forms, existing, n), IssuesOf(forms, existing, n, Defs(forms[n].components));
      forall issue
        ensures issue in own <==> Reports(forms, existing, n, issue)
        ensures Reports(forms, existing, n, issue) ==> FormOf(issue) == n
      {
        IssuesOfForm(forms, existing, n, issue);
      }
      assert forall k :: 0 <= k < |before| ==> before[k] in before;
      assert forall k :: 0 <= k < |own| ==> own[k] in own;
      assert Unresolved(forms, existing, upTo) == before + own;
    }
  }

  lemma ComponentsAre(form: Form, c: Component)
    ensures c in Defs(form.components) <==> IsComponent(form, c)
  {
    DefsAreWithin(form.components, c);
  }

  lemma UnresolvedFormOf(forms: seq<Form>, existing: set<string>, i: nat, c: Component, issue: Issue)
    ensures IsUnresolved(forms, existing, i, c, issue) ==> FormOf(issue) == i
  {
    hide SelectsFrom, IsLabel;
  }

  // ----- the dependency graph -----

  type Graph = seq<set<nat>>

  ghost predicate Closed(g: Graph) {
    forall i, d :: 0 <= i < |g| && d in g[i] ==> d < |g|
  }

  ghost predicate IsWalk(g: Graph, w: seq<nat>) {
    && (forall k :: 0 <= k < |w| ==> w[k] < |g|)
    && forall k :: 0 < k < |w| ==> w[k] in g[w[k - 1]]
  }

  // A closed walk along dependency edges.
  ghost predicate IsCycle(g: Graph, w: seq<nat>) {
    |w| >= 2 && IsWalk(g, w) && w[0] == w[|w| - 1]
  }

  ghost predicate Acyclic(g: Graph) {
    forall w :: !IsCycle(g, w)
  }

  ghost predicate Distinct(s: seq<nat>) {
    forall i, j :: 0 <= i < j < |s| ==> s[i] != s[j]
  }

  // Every vertex stands after all the vertices it depends on.
  ghost predicate DepsFirst(g: Graph, order: seq<nat>) {
    forall k :: 0 <= k < |order| ==> order[k] < |g| && forall d :: d in g[order[k]] ==> d in order[..k]
  }

  ghost predicate IsTopologicalOrder(g: Graph, order: seq<nat>) {
    && Distinct(order)
    && DepsFirst(g, order)
    && forall i :: 0 <= i < |g| ==> i in order
  }

  lemma DepsFirstSnoc(g: Graph, order: seq<nat>, i: nat)
    requires DepsFirst(g, order) && i < |g| && forall d :: d in g[i] ==> d in order
    ensures DepsFirst(g, order + [i])
  {
    var all := order + [i];
    forall k | 0 <= k < |all|
      ensures all[k] < |g| && forall d :: d in g[all[k]] ==> d in all[..k]
    {
      if k < |order| {
        assert all[..k] == order[..k];
      } else {
        assert all[..k] == order;
      }
    }
  }

  ghost function Vertices(n: nat): (s: set<nat>)
    ensures forall i: nat :: i in s <==> i < n
  {
    if n == 0 then {} else Vertices(n - 1) + {n - 1}
  }

  // ----- the depth-first search -----

  class DependencySort {
    const deps: Graph
    var orderedIndices: seq<nat>
    var visiting: set<nat>
    var visited: set<nat>
    var stack: seq<nat>
    var cycle: seq<nat>

    constructor (deps: Graph)
      ensures this.deps == deps && orderedIndices == [] && stack == []
      ensures Consistent()
    {
      this.deps := deps;
      orderedIndices, stack, cycle := [], [], [];
      visiting, visited := {}, {};
    }

    // The stack is a walk of open vertices; the finished ones are ordered.
    ghost predicate Consistent()
      reads this
    {
      && IsWalk(deps, stack)
      && Distinct(stack)
      && (forall i :: i in visiting <==> i in stack)
      && Distinct(orderedIndices)
      && DepsFirst(deps, orderedIndices)
      && (forall i :: i in visited <==> i in orderedIndices)
      && visiting !! visited
    }

    method Open(idx: nat)
      requires Consistent() && idx < |deps| && idx !in visiting && idx !in visited
      requires stack != [] ==> idx in deps[stack[|stack| - 1]]
      modifies this
      ensures Consistent()
      ensures stack == old(stack) + [idx] && visiting == old(visiting) + {idx}
      ensures visited == old(visited) && orderedIndices == old(orderedIndices)
    {
      visiting := visiting + {idx};
      stack := stack + [idx];
    }

    method Close(idx: nat)
      requires Consistent() && stack != [] && stack[|stack| - 1] == idx
      requires forall d :: d in deps[idx] ==> d in visited
      modifies this
      ensures Consistent()
      ensures stack == old(stack)[..|old(stack)| - 1] && visiting == old(visiting) - {idx}
      ensures visited == old(visited) + {idx} && orderedIndices == old(orderedIndices) + [idx]
    {
      assert stack == stack[..|stack| - 1] + [idx];
      stack := stack[..|stack| - 1];
      visiting := visiting - {idx};
      visited := visited + {idx};
      DepsFirstSnoc(deps, orderedIndices, idx);
      orderedIndices := orderedIndices + [idx];
    }

    lemma OnStack(idx: nat)
      requires Consistent() && idx in visiting
      ensures idx in stack && IsWalk(deps, stack)
    {
    }

    method Visit(idx: nat) returns (ok: bool)
      requires Closed(deps) && Consistent() && idx < |deps|
      requires stack != [] ==> idx in deps[stack[|stack| - 1]]
      modifies this
      ensures ok ==> Consistent() && stack == old(stack) && visiting == old(visiting) && idx in visited
      ensures ok ==> old(orderedIndices) <= orderedIndices
      ensures !ok ==> IsCycle(deps, cycle)
      decreases Vertices(|deps|) - visiting, 0
    {
      hide Consistent, IsCycle, Closed;
      if idx in visited {
        return true;
      }
      if idx in visiting {
        OnStack(idx);
        var start := IndexOf(stack, idx);
        CycleOnStack(deps, stack, start);
        cycle := stack[start..] + [idx];
        return false;
      }
      Open(idx);
      ok := VisitDeps(idx);
      if !ok {
        return;
      }
      Close(idx);
      assert stack == old(stack);
    }

    // The loop over the dependencies of the vertex on top of the stack, in
    // any order.
    method VisitDeps(idx: nat) returns (ok: bool)
      requires Closed(deps) && Consistent()
      requires stack != [] && stack[|stack| - 1] == idx
      modifies this
      ensures ok ==> Consistent() && stack == old(stack) && visiting == old(visiting)
      ensures ok ==> old(orderedIndices) <= orderedIndices
      ensures ok ==> forall d :: d in deps[idx] ==> d in visited
      ensures !ok ==> IsCycle(deps, cycle)
      decreases Vertices(|deps|) - visiting, 1
    {
      var rest := deps[idx];
      while rest != {}
        invariant rest <= deps[idx]
        invariant Consistent() && stack == old(stack)
        invariant visiting == old(visiting)
        invariant old(orderedIndices) <= orderedIndices
        invariant forall d :: d in deps[idx] && d !in rest ==> d in visited
      {
        ghost var some := SomeElement(rest);
        var dep :| dep in rest;
        ghost var finished := visited;
        ok := Visit(dep);
        if !ok {
          return;
        }
        rest := rest - {dep};
      }
      ok := true;
    }
  }

  // An edge back to a vertex of a walk closes a cycle.
  lemma CycleOnStack(g: Graph, stack: seq<nat>, start: nat)
    requires IsWalk(g, stack) && start < |stack| && stack[start] in g[stack[|stack| - 1]]
    ensures IsCycle(g, stack[start..] + [stack[start]])
  {
    var w := stack[start..] + [stack[start]];
    forall k | 0 < k < |w|
      ensures w[k] in g[w[k - 1]]
    {
      assert w[k - 1] == stack[start + k - 1];
      assert k < |w| - 1 ==> w[k] == stack[start + k];
    }
  }

  method IndexOf(s: seq<nat>, x: nat) returns (i: nat)
    requires x in s
    ensures i < |s| && s[i] == x
  {
    i := 0;
    while s[i] != x
      invariant i < |s| && x in s[i..]
      decreases |s| - i
    {
      i := i + 1;
    }
  }

  // ----- what an order says about cycles -----

  function PositionOf(s: seq<nat>, x: nat): (p: nat)
    requires x in s
    ensures p < |s| && s[p] == x
  {
    if s[0] == x then 0 else 1 + PositionOf(s[1..], x)
  }

  // Along a walk the positions only go down.
  lemma {:induction false} WalkGoesDown(g: Graph, order: seq<nat>, w: seq<nat>, k: nat)
    requires IsTopologicalOrder(g, order) && IsWalk(g, w) && 0 < k < |w|
    ensures w[0] in order && w[k] in order && PositionOf(order, w[k]) < PositionOf(order, w[0])
  {
    var p := PositionOf(order, w[k - 1]);
    assert w[k] in order[..p];
    var q :| 0 <= q < p && order[q] == w[k];
    assert PositionOf(order, w[k]) == q;
    if k > 1 {
      WalkGoesDown(g, order, w, k - 1);
    }
  }

  lemma OrderedGraphIsAcyclic(g: Graph, order: seq<nat>)
    requires IsTopologicalOrder(g, order)
    ensures Acyclic(g)
  {
    forall w
      ensures !IsCycle(g, w)
    {
      if IsCycle(g, w) {
        WalkGoesDown(g, order, w, |w| - 1);
        assert false;
      }
    }
  }

  // The loop over all vertices: an order or a cycle, never both.
  method SortGraph(deps: Graph) returns (ok: bool, order: seq<nat>, cycle: seq<nat>)
    requires Closed(deps)
    ensures ok <==> Acyclic(deps)
    ensures ok ==> IsTopologicalOrder(deps, order)
    ensures !ok ==> IsCycle(deps, cycle)
  {
    var s := new DependencySort(deps);
    for idx := 0 to |deps|
      invariant s.deps == deps && s.Consistent() && s.stack == [] && fresh(s)
      invariant forall i :: 0 <= i < idx ==> i in s.visited
    {
      if idx !in s.visited {
        ghost var before := s.orderedIndices;
        var fine := s.Visit(idx);
        if !fine {
          return false, [], s.cycle;
        }
        assert forall i :: i in before ==> i in s.orderedIndices;
      }
    }
    OrderedGraphIsAcyclic(deps, s.orderedIndices);
    return true, s.orderedIndices, [];
  }

  // ----- from forms to the graph and back -----

  ghost predicate IsGraphOf(forms: seq<Form>, g: Graph) {
    && |g| == |forms|
    && forall i, d :: 0 <= i < |g| ==> (d in g[i] <==> Requires(forms, i, d))
  }

  lemma RequiresInRange(forms: seq<Form>, idx: nat, dep: nat)
    requires Requires(forms, idx, dep)
    ensures dep < |forms| && dep != idx
  {
  }

  method JudgeSelector(forms: seq<Form>, existing: set<string>, identityToIdx: map<string, nat>, idx: nat, comp: Component)
    returns (v: Verdict)
    requires idx < |forms|
    requires forall t :: t in identityToIdx <==> Lookup(forms, t).Some?
    requires forall t :: t in identityToIdx ==> identityToIdx[t] == Lookup(forms, t).value
    ensures v == Judge(forms, existing, idx, comp)
  {
    if TypeOf(comp) !in DATA_SELECTOR_TYPES {
      return Free;
    }
    var target := TargetOf(comp);
    if target == "" {
      return Bad(MissingTarget(idx, LabelOf(comp)));
    }
    if target in identityToIdx {
      if identityToIdx[target] != idx {
        return Needs(identityToIdx[target]);
      }
      return Free;
    }
    if target in existing {
      return Free;
    }
    return Bad(UnknownTarget(idx, LabelOf(comp), target));
  }

  // Every selector of the form is judged, those of nested columns too.
  method ReadSelectors(forms: seq<Form>, existing: set<string>, identityToIdx: map<string, nat>, idx: nat)
    returns (deps: set<nat>, issues: seq<Issue>)
    requires idx < |forms|
    requires forall t :: t in identityToIdx <==> Lookup(forms, t).Some?
    requires forall t :: t in identityToIdx ==> identityToIdx[t] == Lookup(forms, t).value
    ensures forall d :: d in deps <==> Requires(forms, idx, d)
    ensures issues == IssuesOf(forms, existing, idx, Defs(forms[idx].components))
  {
    hide Judge, Lookup, Defs, Requires;
    var comps := IterComponentDefs(forms[idx].components);
    deps, issues := {}, [];
    for k := 0 to |comps|
      invariant forall d :: d in deps <==> exists j :: 0 <= j < k && Judge(forms, existing, idx, comps[j]) == Needs(d)
      invariant issues == IssuesOf(forms, existing, idx, comps[..k])
    {
      assert comps[..k + 1][..k] == comps[..k];
      assert issues + [] == issues;
      var verdict := JudgeSelector(forms, existing, identityToIdx, idx, comps[k]);
      if verdict.Needs? {
        deps := deps + {verdict.target};
      } else if verdict.Bad? {
        issues := issues + [verdict.issue];
      }
    }
    assert comps[..|comps|] == comps;
    forall d
      ensures d in deps <==> Requires(forms, idx, d)
    {
      RequiresByVerdict(forms, existing, idx, d);
      if Requires(forms, idx, d) {
        var c :| c in comps && Judge(forms, existing, idx, c) == Needs(d);
        var j :| 0 <= j < |comps| && comps[j] == c;
      }
    }
  }

  method BuildGraph(forms: seq<Form>, existing: set<string>) returns (deps: Graph, issues: seq<Issue>)
    ensures IsGraphOf(forms, deps) && Closed(deps)
    ensures issues == Unresolved(forms, existing, |forms|)
  {
    hide Requires, Lookup, Defs, IssuesOf;
    var identityToIdx := RegisterIdentities(forms);
    deps, issues := [], [];
    for idx := 0 to |forms|
      invariant |deps| == idx
      invariant forall i, d :: 0 <= i < idx ==> (d in deps[i] <==> Requires(forms, i, d))
      invariant issues == Unresolved(forms, existing, idx)
    {
      var own, bad := ReadSelectors(forms, existing, identityToIdx, idx);
      deps, issues := deps + [own], issues + bad;
    }
    forall i, d | 0 <= i < |deps| && d in deps[i]
      ensures d < |deps|
    {
      RequiresInRange(forms, i, d);
    }
  }

  function Arrange(forms: seq<Form>, order: seq<nat>): seq<Form>
    requires forall k :: 0 <= k < |order| ==> order[k] < |forms|
  {
    seq(|order|, k requires 0 <= k < |order| => forms[order[k]])
  }

  // `order` lists every form of the batch once, each after all the forms its
  // selectors name.
  ghost predicate IsCreationOrder(forms: seq<Form>, order: seq<nat>) {
    && Distinct(order)
    && (forall k :: 0 <= k < |order| ==> order[k] < |forms|)
    && (forall i :: 0 <= i < |forms| ==> i in order)
    && forall k, d :: 0 <= k < |order| && Requires(forms, order[k], d) ==> d in order[..k]
  }

  // A closed chain of forms, each selecting data from the next.
  ghost predicate IsSelectorCycle(forms: seq<Form>, c: seq<nat>) {
    && |c| >= 2
    && c[0] == c[|c| - 1]
    && (forall k :: 0 <= k < |c| ==> c[k] < |forms|)
    && forall k :: 0 < k < |c| ==> Requires(forms, c[k - 1], c[k])
  }

  method SortForms(forms: seq<Form>, existing: set<string>)
    returns (sorted: seq<Form>, issues: seq<Issue>, order: seq<nat>)
    ensures var unresolved := Unresolved(forms, existing, |forms|);
            if unresolved != [] then
              sorted == forms && issues == unresolved
            else if forall c :: !IsSelectorCycle(forms, c) then
              issues == [] && IsCreationOrder(forms, order) && sorted == Arrange(forms, order)
            else
              && sorted == forms
              && |issues| == 1 && issues[0].DependencyCycle?
              && IsSelectorCycle(forms, issues[0].forms)
    ensures issues == [] ==> multiset(sorted) == multiset(forms)
  {
    order := [];
    var deps, unresolved := BuildGraph(forms, existing);
    if unresolved != [] {
      return forms, unresolved, order;
    }
    forall c
      ensures IsSelectorCycle(forms, c) <==> IsCycle(deps, c)
    {
      CycleOfGraph(forms, deps, c);
    }
    var ok, topo, cycle := SortGraph(deps);
    if !ok {
      return forms, [DependencyCycle(cycle)], order;
    }
    order := topo;
    OrderOfGraph(forms, deps, order);
    ArrangedIsPermutation(forms, order);
    return Arrange(forms, order), [], order;
  }

  lemma CycleOfGraph(forms: seq<Form>, g: Graph, c: seq<nat>)
    requires IsGraphOf(forms, g)
    ensures IsSelectorCycle(forms, c) <==> IsCycle(g, c)
  {
    hide Requires;
  }

  lemma OrderOfGraph(forms: seq<Form>, g: Graph, order: seq<nat>)
    requires IsGraphOf(forms, g) && IsTopologicalOrder(g, order)
    ensures IsCreationOrder(forms, order)
  {
    hide Requires;
  }

  // ----- an order of all indexes is a permutation -----

  lemma {:induction false} ArrangedIsPermutation(forms: seq<Form>, order: seq<nat>)
    requires Distinct(order)
    requires forall k :: 0 <= k < |order| ==> order[k] < |forms|
    requires forall i :: 0 <= i < |forms| ==> i in order
    ensures multiset(Arrange(forms, order)) == multiset(forms)
    decreases |forms|
  {
    if forms == [] {
      assert order == [];
    } else {
      var n := |forms| - 1;
      var p := PositionOf(order, n);
      var rest := order[..p] + order[p + 1..];
      forall i | 0 <= i < n
        ensures i in rest
      {
        assert order[PositionOf(order, i)] == i;
      }
      ArrangedIsPermutation(forms[..n], rest);
      MoveToEnd(forms, order, p);
      assert forms == forms[..n] + [forms[n]];
    }
  }

  lemma MoveToEnd(forms: seq<Form>, order: seq<nat>, p: nat)
    requires p < |order| && order[p] == |forms| - 1
    requires forall k :: 0 <= k < |order| ==> order[k] < |forms| && (k != p ==> order[k] < |forms| - 1)
    ensures var n := |forms| - 1;
            multiset(Arrange(forms, order)) == multiset(Arrange(forms[..n], order[..p] + order[p + 1..])) + multiset{forms[n]}
  {
    var n := |forms| - 1;
    var a, b := Arrange(forms, order), Arrange(forms[..n], order[..p] + order[p + 1..]);
    var front, back := a[..p], a[p + 1..];
    assert a == front + [forms[n]] + back;
    assert b == front + back;
  }
}
