// Moving a menu under another group (backend/app/apaas_client.py:2481-2580).
//
// `Menu` is a node as the platform delivers it. `Tree` is what the nodes mean:
// a key, the data carried along and the children in order.
module MenuMove {
  import opened Basics
  import opened PyText

  // Missing entries are "" or []. List entries that are no dictionaries are
  // dropped by the walk.
  datatype Menu =
    | NotADict
    | Menu(id: string, menuId: string, parentId: string, menuOrder: int, rest: string,
           submenus: seq<Menu>, children: seq<Menu>)

  datatype Data = Data(parentId: string, menuOrder: int, rest: string)
  datatype Tree = Tree(key: string, data: Data, sub: seq<Tree>)

  function KeyOf(n: Menu): string
    requires n.Menu?
  {
    if n.id != "" then n.id else n.menuId
  }

  function DataOf(n: Menu): Data
    requires n.Menu?
  {
    Data(n.parentId, n.menuOrder, n.rest)
  }

  // The tree as it is delivered: children may come under either name.
  function View(nodes: seq<Menu>): seq<Tree>
    decreases nodes
  {
    if nodes == [] then []
    else ViewOne(nodes[0]) + View(nodes[1..])
  }

  function ViewOne(n: Menu): seq<Tree>
    decreases n
  {
    if n.NotADict? then []
    else [Tree(KeyOf(n), DataOf(n), if n.submenus != [] then View(n.submenus) else View(n.children))]
  }

  // The tree as it is posted and verified: only `submenus` counts.
  function Posted(nodes: seq<Menu>): seq<Tree>
    decreases nodes
  {
    if nodes == [] then []
    else PostedOne(nodes[0]) + Posted(nodes[1..])
  }

  function PostedOne(n: Menu): seq<Tree>
    decreases n
  {
    if n.NotADict? then [] else [Tree(KeyOf(n), DataOf(n), Posted(n.submenus))]
  }

  // ----- the tree operations -----

  function Keys(f: seq<Tree>): seq<string>
    decreases f
  {
    if f == [] then [] else [f[0].key] + Keys(f[0].sub) + Keys(f[1..])
  }

  function Roots(f: seq<Tree>): seq<string> {
    seq(|f|, i requires 0 <= i < |f| => f[i].key)
  }

  // The first node with the key, parents before children.
  function Node(f: seq<Tree>, k: string): Option<Tree>
    decreases f
  {
    if f == [] then None
    else if f[0].key == k then Some(f[0])
    else
      var below := Node(f[0].sub, k);
      if below.Some? then below else Node(f[1..], k)
  }

  // Every node with the key is taken out, with what is below it.
  function Prune(f: seq<Tree>, k: string): seq<Tree>
    decreases f
  {
    if f == [] then []
    else (if f[0].key == k then [] else [f[0].(sub := Prune(f[0].sub, k))]) + Prune(f[1..], k)
  }

  // `t` becomes the last child of the first node with key `p`.
  function Graft(f: seq<Tree>, p: string, t: Tree): Option<seq<Tree>>
    decreases f
  {
    if f == [] then None
    else if f[0].key == p then Some([f[0].(sub := f[0].sub + [t])] + f[1..])
    else
      var below := Graft(f[0].sub, p, t);
      if below.Some? then Some([f[0].(sub := below.value)] + f[1..])
      else
        var after := Graft(f[1..], p, t);
        if after.Some? then Some([f[0]] + after.value) else None
  }

  // ----- the walk that removes the menu -----

  // The menu the walk remembers: the last match, not looking inside a match.
  function Found(nodes: seq<Menu>, k: string): (r: Option<Menu>)
    ensures r.Some? ==> r.value.Menu? && KeyOf(r.value) == k
    decreases nodes
  {
    if nodes == [] then None
    else
      var after := Found(nodes[1..], k);
      if after.Some? then after else FoundOne(nodes[0], k)
  }

  function FoundOne(n: Menu, k: string): (r: Option<Menu>)
    ensures r.Some? ==> r.value.Menu? && KeyOf(r.value) == k
    decreases n
  {
    if n.NotADict? then None
    else if KeyOf(n) == k then Some(n)
    else if n.submenus != [] then Found(n.submenus, k) else Found(n.children, k)
  }

  lemma {:induction false} PostedAppend(a: seq<Menu>, b: seq<Menu>)
    ensures Posted(a + b) == Posted(a) + Posted(b)
    decreases |a|
  {
    hide PostedOne;
    if a == [] {
      assert a + b == b;
    } else {
      PostedAppend(a[1..], b);
      assert (a + b)[1..] == a[1..] + b;
    }
  }

  lemma ViewStep(nodes: seq<Menu>, i: nat)
    requires i < |nodes|
    ensures View(nodes[i..]) == ViewOne(nodes[i]) + View(nodes[i + 1..])
  {
    assert nodes[i..][1..] == nodes[i + 1..];
  }

  lemma {:induction false} PruneAppend(a: seq<Tree>, b: seq<Tree>, k: string)
    ensures Prune(a + b, k) == Prune(a, k) + Prune(b, k)
    decreases |a|
  {
    if a == [] {
      assert a + b == b;
    } else {
      PruneAppend(a[1..], b, k);
      assert (a + b)[1..] == a[1..] + b && (a + b)[0] == a[0];
    }
  }

  lemma {:induction false} FoundAppend(a: seq<Menu>, b: seq<Menu>, k: string)
    ensures Found(a + b, k) == if Found(b, k).Some? then Found(b, k) else Found(a, k)
    decreases |a|
  {
    if a == [] {
      assert a + b == b;
    } else {
      FoundAppend(a[1..], b, k);
      assert (a + b)[1..] == a[1..] + b;
    }
  }

  class Mover {
    const menuId: string
    var target: Option<Menu>

    constructor (menuId: string)
      ensures this.menuId == menuId && target == None
    {
      this.menuId := menuId;
      target := None;
    }

    method WalkRemove(nodes: seq<Menu>) returns (cleaned: seq<Menu>)
      modifies this
      ensures Posted(cleaned) == Prune(View(nodes), menuId)
      ensures target == if Found(nodes, menuId).Some? then Found(nodes, menuId) else old(target)
      decreases nodes
    {
      hide Posted, View, Prune, Found, ViewOne, FoundOne;
      cleaned := [];
      WalkStart(nodes, menuId);
      for i := 0 to |nodes|
        invariant Posted(cleaned) + Prune(View(nodes[i..]), menuId) == Prune(View(nodes), menuId)
        invariant target == if Found(nodes[..i], menuId).Some? then Found(nodes[..i], menuId) else old(target)
      {
        WalkStep(nodes, i, menuId);
        var one := WalkOne(nodes[i]);
        PostedAppend(cleaned, one);
        cleaned := cleaned + one;
      }
      WalkEnd(nodes, menuId);
    }

    method WalkOne(n: Menu) returns (cleaned: seq<Menu>)
      modifies this
      ensures Posted(cleaned) == Prune(ViewOne(n), menuId)
      ensures target == if FoundOne(n, menuId).Some? then FoundOne(n, menuId) else old(target)
      decreases n
    {
      if n.NotADict? {
        return [];
      }
      if KeyOf(n) == menuId {
        target := Some(n);
        return [];
      }
      var kids := [];
      if n.submenus != [] {
        kids := WalkRemove(n.submenus);
      } else {
        kids := WalkRemove(n.children);
      }
      var copy := n.(submenus := kids);
      assert [copy][1..] == [];
      cleaned := [copy];
    }
  }

  lemma WalkStart(nodes: seq<Menu>, k: string)
    ensures Posted([]) == [] && nodes[0..] == nodes
    ensures Found(nodes[..0], k) == None
  {
    assert nodes[..0] == [];
  }

  lemma WalkStep(nodes: seq<Menu>, i: nat, k: string)
    requires i < |nodes|
    ensures Prune(View(nodes[i..]), k) == Prune(ViewOne(nodes[i]), k) + Prune(View(nodes[i + 1..]), k)
    ensures Found(nodes[..i + 1], k) == if FoundOne(nodes[i], k).Some? then FoundOne(nodes[i], k) else Found(nodes[..i], k)
  {
    hide View, ViewOne, Prune;
    ViewStep(nodes, i);
    PruneAppend(ViewOne(nodes[i]), View(nodes[i + 1..]), k);
    assert nodes[..i + 1] == nodes[..i] + [nodes[i]];
    FoundAppend(nodes[..i], [nodes[i]], k);
    assert [nodes[i]][1..] == [];
  }

  lemma WalkEnd(nodes: seq<Menu>, k: string)
    ensures View(nodes[|nodes|..]) == [] && Prune([], k) == [] && nodes[..|nodes|] == nodes
  {
    assert nodes[|nodes|..] == [];
  }

  // ----- the insertion -----

  lemma {:induction false} GraftAppend(a: seq<Tree>, b: seq<Tree>, p: string, t: Tree)
    ensures Graft(a + b, p, t) ==
            if Graft(a, p, t).Some? then Some(Graft(a, p, t).value + b)
            else if Graft(b, p, t).Some? then Some(a + Graft(b, p, t).value)
            else None
    decreases |a|
  {
    if a == [] {
      assert a + b == b;
      assert Graft(b, p, t).Some? ==> a + Graft(b, p, t).value == Graft(b, p, t).value;
    } else {
      hide Graft;
      GraftAppend(a[1..], b, p, t);
      assert (a + b)[1..] == a[1..] + b;
      GraftHead(a, p, t);
      GraftHead(a + b, p, t);
      forall x: Tree, r: seq<Tree>
        ensures [x] + (r + b) == [x] + r + b
      {
      }
      if Graft(b, p, t).Some? {
        assert [a[0]] + (a[1..] + Graft(b, p, t).value) == a + Graft(b, p, t).value;
      }
    }
  }

  lemma GraftHead(f: seq<Tree>, p: string, t: Tree)
    requires f != []
    ensures Graft(f, p, t) ==
            if f[0].key == p then Some([f[0].(sub := f[0].sub + [t])] + f[1..])
            else if Graft(f[0].sub, p, t).Some? then Some([f[0].(sub := Graft(f[0].sub, p, t).value)] + f[1..])
            else if Graft(f[1..], p, t).Some? then Some([f[0]] + Graft(f[1..], p, t).value)
            else None
  {
  }

  lemma GraftOne(x: Tree, p: string, t: Tree)
    ensures Graft([x], p, t) ==
            if x.key == p then Some([x.(sub := x.sub + [t])])
            else if Graft(x.sub, p, t).Some? then Some([x.(sub := Graft(x.sub, p, t).value)])
            else None
  {
    GraftHead([x], p, t);
    assert [x][1..] == [];
    var y := x.(sub := x.sub + [t]);
    assert [y] + [] == [y];
    if Graft(x.sub, p, t).Some? {
      var z := x.(sub := Graft(x.sub, p, t).value);
      assert [z] + [] == [z];
    }
  }

  lemma PostedOfOne(n: Menu)
    ensures Posted([n]) == PostedOne(n)
  {
    hide PostedOne;
    assert [n][1..] == [];
  }

  lemma PostedSplit(nodes: seq<Menu>, i: nat)
    requires i < |nodes|
    ensures Posted(nodes) == Posted(nodes[..i]) + PostedOne(nodes[i]) + Posted(nodes[i + 1..])
    ensures Posted(nodes[..i + 1]) == Posted(nodes[..i]) + PostedOne(nodes[i])
  {
    hide Posted, PostedOne;
    var front, one, back := nodes[..i], [nodes[i]], nodes[i + 1..];
    PostedOfOne(nodes[i]);
    assert nodes[..i + 1] == front + one;
    PostedAppend(front, one);
    assert nodes == front + one + back;
    PostedAppend(front + one, back);
  }

  // Replacing one node of a list replaces its tree.
  lemma PostedReplace(nodes: seq<Menu>, i: nat, n: Menu)
    requires i < |nodes|
    ensures Posted(nodes[i := n]) == Posted(nodes[..i]) + PostedOne(n) + Posted(nodes[i + 1..])
  {
    var s := nodes[i := n];
    PostedSplit(s, i);
    assert s[..i] == nodes[..i] && s[i + 1..] == nodes[i + 1..];
  }

  method Insert(nodes: seq<Menu>, pid: string, t: Menu) returns (ok: bool, r: seq<Menu>)
    requires t.Menu? && t.submenus == []
    ensures Graft(Posted(nodes), pid, Tree(KeyOf(t), DataOf(t), [])) == if ok then Some(Posted(r)) else None
    ensures !ok ==> r == nodes
    decreases nodes
  {
    hide Posted, Graft;
    ghost var tree := Tree(KeyOf(t), DataOf(t), []);
    r := nodes;
    NothingGrafted(nodes, pid, tree);
    for i := 0 to |nodes|
      invariant r == nodes
      invariant Graft(Posted(nodes[..i]), pid, tree) == None
    {
      PostedSplit(nodes, i);
      ghost var front, back := Posted(nodes[..i]), Posted(nodes[i + 1..]);
      GraftAppend(front, PostedOne(nodes[i]), pid, tree);
      GraftAppend(front + PostedOne(nodes[i]), back, pid, tree);
      var n := nodes[i];
      if n.Menu? {
        GraftOne(Tree(KeyOf(n), DataOf(n), Posted(n.submenus)), pid, tree);
        if KeyOf(n) == pid {
          ChildAppended(n, t);
          PostedReplace(nodes, i, n.(submenus := n.submenus + [t]));
          return true, nodes[i := n.(submenus := n.submenus + [t])];
        }
        var found, subs := Insert(n.submenus, pid, t);
        if found {
          PostedReplace(nodes, i, n.(submenus := subs));
          return true, nodes[i := n.(submenus := subs)];
        }
      } else {
        GraftNothing(pid, tree);
      }
    }
    assert nodes[..|nodes|] == nodes;
    return false, nodes;
  }

  lemma NothingGrafted(nodes: seq<Menu>, p: string, t: Tree)
    ensures Graft(Posted(nodes[..0]), p, t) == None
  {
    assert nodes[..0] == [];
  }

  lemma GraftNothing(p: string, t: Tree)
    ensures Graft([], p, t) == None
  {
  }

  lemma ChildAppended(n: Menu, t: Menu)
    requires n.Menu? && t.Menu? && t.submenus == []
    ensures Posted(n.submenus + [t]) == Posted(n.submenus) + [Tree(KeyOf(t), DataOf(t), [])]
  {
    PostedAppend(n.submenus, [t]);
    assert [t][1..] == [];
  }

  // ----- the check on the tree that was sent -----

  function VerifyWalk(nodes: seq<Menu>, k: string): Option<string>
    decreases nodes
  {
    if nodes == [] then None
    else
      var here := VerifyOne(nodes[0], k);
      if here.Some? then here else VerifyWalk(nodes[1..], k)
  }

  function VerifyOne(n: Menu, k: string): Option<string>
    decreases n
  {
    if n.NotADict? then None
    else if KeyOf(n) == k then Some(n.parentId)
    else VerifyWalk(n.submenus, k)
  }

  lemma {:induction false} NodeAppend(a: seq<Tree>, b: seq<Tree>, k: string)
    ensures Node(a + b, k) == if Node(a, k).Some? then Node(a, k) else Node(b, k)
    decreases |a|
  {
    if a == [] {
      assert a + b == b;
    } else {
      NodeAppend(a[1..], b, k);
      assert (a + b)[1..] == a[1..] + b;
    }
  }

  lemma {:induction false} VerifyReadsParent(nodes: seq<Menu>, k: string)
    ensures VerifyWalk(nodes, k) ==
            if Node(Posted(nodes), k).Some? then Some(Node(Posted(nodes), k).value.data.parentId) else None
    decreases nodes
  {
    hide PostedOne, VerifyOne;
    if nodes != [] {
      VerifyOneReadsParent(nodes[0], k);
      VerifyReadsParent(nodes[1..], k);
      NodeAppend(PostedOne(nodes[0]), Posted(nodes[1..]), k);
    }
  }

  lemma {:induction false} VerifyOneReadsParent(n: Menu, k: string)
    ensures VerifyOne(n, k) ==
            if Node(PostedOne(n), k).Some? then Some(Node(PostedOne(n), k).value.data.parentId) else None
    decreases n
  {
    if n.Menu? {
      VerifyReadsParent(n.submenus, k);
      var one := PostedOne(n);
      assert one[1..] == [];
    }
  }

  // ----- the whole move -----

  datatype Outcome =
    | NoSuchMenu
    | NoSuchGroup(group: string)
    | Moved(posted: seq<Menu>)
    | NotPersisted(expected: string, actual: Option<string>)

  function Group(parentId: string): string {
    Strip(parentId)
  }

  // The platform is taken to return the tree it was sent.
  method UpdateMenuParent(menus: seq<Menu>, menuId: string, parentId: string, menuOrder: int) returns (r: Outcome)
    ensures r.NoSuchMenu? <==> Found(menus, menuId).None?
    ensures Found(menus, menuId).Some? ==>
              var pid := Group(parentId);
              var n := Found(menus, menuId).value;
              var pruned := Prune(View(menus), menuId);
              var moved := Tree(KeyOf(n), Data(pid, menuOrder, n.rest), []);
              if pid != "" && Graft(pruned, pid, moved).None? then r == NoSuchGroup(pid)
              else
                var sent := if pid == "" then pruned + [moved] else Graft(pruned, pid, moved).value;
                match r
                case Moved(posted) =>
                  Posted(posted) == sent && (Node(sent, menuId).Some? ==> Node(sent, menuId).value.data.parentId == pid)
                case NotPersisted(expected, actual) =>
                  expected == pid && actual == (if Node(sent, menuId).Some? then Some(Node(sent, menuId).value.data.parentId) else None)
                  && (if actual.Some? then actual.value else "") != pid
                case _ => false
  {
    hide Posted, View, Prune, Found, Graft, Node, Strip;
    var mover := new Mover(menuId);
    var newTree := mover.WalkRemove(menus);
    if mover.target.None? {
      return NoSuchMenu;
    }
    var target := mover.target.value;
    var pid := Strip(parentId);
    var targetCopy := target.(parentId := pid, menuOrder := menuOrder, submenus := []);
    if pid != "" {
      var ok, grafted := Insert(newTree, pid, targetCopy);
      if !ok {
        return NoSuchGroup(pid);
      }
      newTree := grafted;
    } else {
      PostedAppend(newTree, [targetCopy]);
      PostedSingle(targetCopy);
      newTree := newTree + [targetCopy];
    }
    var actual := VerifyWalk(newTree, menuId);
    VerifyReadsParent(newTree, menuId);
    if (if actual.Some? then actual.value else "") != pid {
      return NotPersisted(pid, actual);
    }
    return Moved(newTree);
  }

  lemma PostedSingle(t: Menu)
    requires t.Menu? && t.submenus == []
    ensures Posted([t]) == [Tree(KeyOf(t), DataOf(t), [])]
  {
    assert [t][1..] == [];
  }

  // ----- what a move means -----

  ghost predicate NoRepeats(s: seq<string>) {
    forall i, j :: 0 <= i < j < |s| ==> s[i] != s[j]
  }

  ghost predicate UniqueKeys(f: seq<Tree>) {
    NoRepeats(Keys(f))
  }

  // A node's data and the keys of its children, in order.
  datatype Info = Info(data: Data, kids: seq<string>)

  function InfoOf(f: seq<Tree>, k: string): Option<Info> {
    var n := Node(f, k);
    if n.Some? then Some(Info(n.value.data, Roots(n.value.sub))) else None
  }

  function Minus(s: seq<string>, k: string): seq<string> {
    if s == [] then [] else (if s[0] == k then [] else [s[0]]) + Minus(s[1..], k)
  }

  lemma NoRepeatsParts(x: string, a: seq<string>, b: seq<string>)
    requires NoRepeats([x] + a + b)
    ensures NoRepeats(a) && NoRepeats(b)
    ensures x !in a && x !in b && forall k :: k in a ==> k !in b
  {
    var s := [x] + a + b;
    assert s[0] == x;
    assert forall i :: 0 <= i < |a| ==> s[1 + i] == a[i];
    assert forall i :: 0 <= i < |b| ==> s[1 + |a| + i] == b[i];
  }

  lemma UniqueParts(f: seq<Tree>)
    requires f != [] && UniqueKeys(f)
    ensures UniqueKeys(f[0].sub) && UniqueKeys(f[1..])
    ensures f[0].key !in Keys(f[0].sub) && f[0].key !in Keys(f[1..])
    ensures forall k :: k in Keys(f[0].sub) ==> k !in Keys(f[1..])
  {
    NoRepeatsParts(f[0].key, Keys(f[0].sub), Keys(f[1..]));
  }

  lemma {:induction false} NodeIffKey(f: seq<Tree>, k: string)
    ensures Node(f, k).Some? <==> k in Keys(f)
    ensures Node(f, k).Some? ==> Node(f, k).value.key == k
    decreases f
  {
    if f != [] {
      NodeIffKey(f[0].sub, k);
      NodeIffKey(f[1..], k);
    }
  }

  lemma {:induction false} SubKeysAreKeys(f: seq<Tree>, k: string)
    requires Node(f, k).Some?
    ensures forall j :: j in Keys(Node(f, k).value.sub) ==> j in Keys(f)
    decreases f
  {
    if f[0].key != k {
      if Node(f[0].sub, k).Some? {
        SubKeysAreKeys(f[0].sub, k);
      } else {
        SubKeysAreKeys(f[1..], k);
      }
    }
  }

  lemma {:induction false} PruneAbsent(f: seq<Tree>, id: string)
    requires id !in Keys(f)
    ensures Prune(f, id) == f
    decreases f
  {
    if f != [] {
      PruneAbsent(f[0].sub, id);
      PruneAbsent(f[1..], id);
      assert f[0] == f[0].(sub := f[0].sub) && f == [f[0]] + f[1..];
    }
  }

  lemma Cons(h: Tree, r: seq<Tree>, k: string)
    ensures Keys([h] + r) == [h.key] + Keys(h.sub) + Keys(r)
    ensures Roots([h] + r) == [h.key] + Roots(r)
    ensures Node([h] + r, k) ==
            if h.key == k then Some(h) else if Node(h.sub, k).Some? then Node(h.sub, k) else Node(r, k)
  {
    assert ([h] + r)[1..] == r;
  }

  lemma PruneCases(f: seq<Tree>, id: string)
    requires f != []
    ensures f == [f[0]] + f[1..]
    ensures Prune(f, id) ==
            if f[0].key == id then Prune(f[1..], id) else [f[0].(sub := Prune(f[0].sub, id))] + Prune(f[1..], id)
  {
    assert [] + Prune(f[1..], id) == Prune(f[1..], id);
  }

  lemma MinusCons(x: string, s: seq<string>, k: string)
    ensures Minus([x] + s, k) == if x == k then Minus(s, k) else [x] + Minus(s, k)
  {
    assert ([x] + s)[1..] == s;
    assert [] + Minus(s, k) == Minus(s, k);
  }

  lemma {:induction false} PruneRoots(f: seq<Tree>, id: string)
    ensures Roots(Prune(f, id)) == Minus(Roots(f), id)
    decreases |f|
  {
    if f != [] {
      hide Prune, Roots, Minus;
      PruneRoots(f[1..], id);
      PruneCases(f, id);
      Cons(f[0], f[1..], id);
      Cons(f[0].(sub := Prune(f[0].sub, id)), Prune(f[1..], id), id);
      MinusCons(f[0].key, Roots(f[1..]), id);
    } else {
      assert Roots(f) == [];
    }
  }

  // The menus below the moved one.
  ghost predicate Below(f: seq<Tree>, id: string, k: string) {
    Node(f, id).Some? && k in Keys(Node(f, id).value.sub)
  }

  // Taking a node out leaves every other node, outside what was below it, with
  // its data and its children but that one.
  lemma {:induction false} PruneInfo(f: seq<Tree>, id: string, k: string)
    requires UniqueKeys(f)
    ensures InfoOf(Prune(f, id), k) ==
            if k == id || Below(f, id, k) || InfoOf(f, k).None? then None
            else Some(InfoOf(f, k).value.(kids := Minus(InfoOf(f, k).value.kids, id)))
    decreases f
  {
    if f != [] {
      UniqueParts(f);
      NodeIffKey(f[0].sub, k);
      NodeIffKey(f[1..], k);
      NodeIffKey(f[0].sub, id);
      NodeIffKey(f[1..], id);
      hide UniqueKeys, Keys;
      PruneInfo(f[0].sub, id, k);
      PruneInfo(f[1..], id, k);
      PruneRoots(f[0].sub, id);
      PruneInfoStep(f, id, k);
    }
  }

  lemma PruneInfoStep(f: seq<Tree>, id: string, k: string)
    requires f != []
    requires Node(f[0].sub, k).Some? ==> Node(f[1..], k).None?
    requires Node(f[0].sub, id).Some? ==> Node(f[1..], id).None?
    requires f[0].key == id ==> Node(f[0].sub, id).None? && Node(f[1..], id).None?
    requires f[0].key == k ==> Node(f[0].sub, k).None? && Node(f[1..], k).None?
    requires Node(f[0].sub, k).Some? <==> k in Keys(f[0].sub)
    requires Node(f[1..], k).Some? <==> k in Keys(f[1..])
    requires Roots(Prune(f[0].sub, id)) == Minus(Roots(f[0].sub), id)
    requires forall g :: g == f[0].sub || g == f[1..] ==>
               InfoOf(Prune(g, id), k) ==
               if k == id || Below(g, id, k) || InfoOf(g, k).None? then None
               else Some(InfoOf(g, k).value.(kids := Minus(InfoOf(g, k).value.kids, id)))
    ensures InfoOf(Prune(f, id), k) ==
            if k == id || Below(f, id, k) || InfoOf(f, k).None? then None
            else Some(InfoOf(f, k).value.(kids := Minus(InfoOf(f, k).value.kids, id)))
  {
    hide Keys, Minus, Roots;
    var rest := Prune(f[1..], id);
    if f[0].key == id {
      assert Prune(f, id) == [] + rest == rest;
      BelowHead(f, id, k);
    } else {
      var h := f[0].(sub := Prune(f[0].sub, id));
      assert Prune(f, id) == [h] + rest && ([h] + rest)[1..] == rest;
      SubtreeKeys(f, id, k);
    }
  }

  lemma BelowHead(f: seq<Tree>, id: string, k: string)
    requires f != [] && f[0].key == id
    ensures Below(f, id, k) <==> k in Keys(f[0].sub)
  {
  }

  // What is below a node of one part is in that part.
  lemma SubtreeKeys(f: seq<Tree>, id: string, k: string)
    requires f != [] && f[0].key != id
    ensures Below(f, id, k) <==>
            if Node(f[0].sub, id).Some? then Below(f[0].sub, id, k) else Below(f[1..], id, k)
    ensures Below(f[0].sub, id, k) ==> k in Keys(f[0].sub)
    ensures Below(f[1..], id, k) ==> k in Keys(f[1..])
  {
    if Node(f[0].sub, id).Some? {
      SubKeysAreKeys(f[0].sub, id);
    }
    if Node(f[1..], id).Some? {
      SubKeysAreKeys(f[1..], id);
    }
  }

  ghost function KeyBag(f: seq<Tree>): multiset<string> {
    multiset(Keys(f))
  }

  lemma BagCons(h: Tree, r: seq<Tree>)
    ensures KeyBag([h] + r) == multiset{h.key} + KeyBag(h.sub) + KeyBag(r)
  {
    Cons(h, r, h.key);
    hide Keys;
  }

  // The bag of the removed menu and everything below it.
  ghost function Removed(f: seq<Tree>, id: string): multiset<string> {
    if Node(f, id).Some? then multiset{id} + KeyBag(Node(f, id).value.sub) else multiset{}
  }

  lemma RemovedCases(f: seq<Tree>, id: string)
    requires f != [] && UniqueKeys(f)
    ensures Removed(f, id) ==
            if f[0].key == id then multiset{id} + KeyBag(f[0].sub) else Removed(f[0].sub, id) + Removed(f[1..], id)
    ensures f[0].key == id ==> id !in Keys(f[1..])
  {
    UniqueParts(f);
    NodeIffKey(f[0].sub, id);
    NodeIffKey(f[1..], id);
    Cons(f[0], f[1..], id);
    assert f == [f[0]] + f[1..];
    hide UniqueKeys, Keys, Node, KeyBag;
  }

  lemma {:induction false} PruneKeys(f: seq<Tree>, id: string)
    requires UniqueKeys(f)
    ensures KeyBag(f) == KeyBag(Prune(f, id)) + Removed(f, id)
    decreases f
  {
    if f != [] {
      hide UniqueKeys, Keys, Prune, Node, KeyBag, Removed;
      UniqueParts(f);
      RemovedCases(f, id);
      PruneCases(f, id);
      BagCons(f[0], f[1..]);
      if f[0].key == id {
        PruneAbsent(f[1..], id);
      } else {
        PruneKeys(f[0].sub, id);
        PruneKeys(f[1..], id);
        BagCons(f[0].(sub := Prune(f[0].sub, id)), Prune(f[1..], id));
        Regroup(multiset{f[0].key}, KeyBag(Prune(f[0].sub, id)), Removed(f[0].sub, id),
                KeyBag(Prune(f[1..], id)), Removed(f[1..], id));
      }
    }
  }

  lemma Regroup(x: multiset<string>, a: multiset<string>, r: multiset<string>, b: multiset<string>, s: multiset<string>)
    ensures x + (a + r) + (b + s) == x + a + b + (r + s)
  {
  }

  lemma {:induction false} GraftInfo(f: seq<Tree>, p: string, t: Tree, k: string)
    requires t.sub == [] && t.key !in Keys(f)
    ensures Graft(f, p, t).Some? <==> p in Keys(f)
    ensures Graft(f, p, t).Some? ==>
              var g := Graft(f, p, t).value;
              && Roots(g) == Roots(f)
              && InfoOf(g, k) ==
                 if k == t.key then Some(Info(t.data, []))
                 else if k == p && InfoOf(f, k).Some? then Some(InfoOf(f, k).value.(kids := InfoOf(f, k).value.kids + [t.key]))
                 else InfoOf(f, k)
    decreases f
  {
    if f != [] {
      assert f == [f[0]] + f[1..];
      GraftHead(f, p, t);
      NodeAbsent(f, t.key);
      Cons(f[0], f[1..], k);
      KeysOfParts(f);
      NodeIffKey(f[0].sub, k);
      hide Graft, Node, Roots, Keys;
      GraftInfo(f[0].sub, p, t, k);
      GraftInfo(f[1..], p, t, k);
      if f[0].key == p {
        Cons(f[0].(sub := f[0].sub + [t]), f[1..], k);
        RootsAppend(f[0].sub, t);
        NodeAppend(f[0].sub, [t], k);
        NodeOfLeaf(t, k);
      } else if Graft(f[0].sub, p, t).Some? {
        Cons(f[0].(sub := Graft(f[0].sub, p, t).value), f[1..], k);
      } else if Graft(f[1..], p, t).Some? {
        Cons(f[0], Graft(f[1..], p, t).value, k);
      }
    }
  }

  lemma KeysOfParts(f: seq<Tree>)
    requires f != []
    ensures forall k :: k in Keys(f) <==> k == f[0].key || k in Keys(f[0].sub) || k in Keys(f[1..])
  {
  }

  lemma RootsAppend(f: seq<Tree>, t: Tree)
    ensures Roots(f + [t]) == Roots(f) + [t.key]
    ensures t.sub == [] ==> Roots(t.sub) == []
  {
  }

  lemma NodeAbsent(f: seq<Tree>, k: string)
    requires k !in Keys(f)
    ensures Node(f, k).None?
    ensures f != [] ==> f[0].key != k && Node(f[0].sub, k).None? && Node(f[1..], k).None?
  {
    NodeIffKey(f, k);
    if f != [] {
      NodeIffKey(f[0].sub, k);
      NodeIffKey(f[1..], k);
    }
  }

  lemma NodeOfLeaf(t: Tree, k: string)
    requires t.sub == []
    ensures Node([t], k) == if k == t.key then Some(t) else None
  {
    assert [t][1..] == [];
  }

  lemma {:induction false} GraftKeys(f: seq<Tree>, p: string, t: Tree)
    requires t.sub == [] && Graft(f, p, t).Some?
    ensures KeyBag(Graft(f, p, t).value) == KeyBag(f) + multiset{t.key}
    decreases f
  {
    hide Graft, KeyBag, Keys, Node;
    GraftNothing(p, t);
    assert f != [];
    assert f == [f[0]] + f[1..];
    GraftHead(f, p, t);
    BagCons(f[0], f[1..]);
    if f[0].key == p {
      BagCons(f[0].(sub := f[0].sub + [t]), f[1..]);
      BagSnoc(f[0].sub, t);
    } else if Graft(f[0].sub, p, t).Some? {
      GraftKeys(f[0].sub, p, t);
      BagCons(f[0].(sub := Graft(f[0].sub, p, t).value), f[1..]);
    } else {
      GraftKeys(f[1..], p, t);
      BagCons(f[0], Graft(f[1..], p, t).value);
    }
  }

  lemma BagSnoc(f: seq<Tree>, t: Tree)
    requires t.sub == []
    ensures KeyBag(f + [t]) == KeyBag(f) + multiset{t.key}
  {
    KeysAppend(f, [t]);
    KeysOfLeaf(t);
    hide Keys;
  }

  lemma KeysOfLeaf(t: Tree)
    requires t.sub == []
    ensures Keys([t]) == [t.key]
  {
    assert [t][1..] == [];
  }

  lemma {:induction false} KeysAppend(a: seq<Tree>, b: seq<Tree>)
    ensures Keys(a + b) == Keys(a) + Keys(b)
    decreases |a|
  {
    if a == [] {
      assert a + b == b;
    } else {
      hide Keys;
      KeysAppend(a[1..], b);
      assert a == [a[0]] + a[1..] && a + b == [a[0]] + (a[1..] + b);
      Cons(a[0], a[1..], "");
      Cons(a[0], a[1..] + b, "");
    }
  }

  // ----- the main results -----

  // The menu the walk remembers is the node with the key.
  lemma {:induction false} FoundIsNode(nodes: seq<Menu>, id: string)
    requires UniqueKeys(View(nodes))
    ensures Found(nodes, id).Some? <==> id in Keys(View(nodes))
    ensures Found(nodes, id).Some? ==> Node(View(nodes), id) == Some(ViewOne(Found(nodes, id).value)[0])
    decreases nodes
  {
    if nodes != [] {
      hide FoundOne, ViewOne;
      var here, rest := ViewOne(nodes[0]), View(nodes[1..]);
      KeysAppend(here, rest);
      NoRepeatsHalves(Keys(here), Keys(rest));
      NodeAppend(here, rest, id);
      NodeIffKey(here, id);
      NodeIffKey(rest, id);
      FoundOneIsNode(nodes[0], id);
      FoundIsNode(nodes[1..], id);
    }
  }

  lemma {:induction false} FoundOneIsNode(n: Menu, id: string)
    requires UniqueKeys(ViewOne(n))
    ensures FoundOne(n, id).Some? <==> id in Keys(ViewOne(n))
    ensures FoundOne(n, id).Some? ==> Node(ViewOne(n), id) == Some(ViewOne(FoundOne(n, id).value)[0])
    decreases n
  {
    if n.Menu? {
      var kids := if n.submenus != [] then n.submenus else n.children;
      var t := ViewOne(n)[0];
      assert ViewOne(n) == [t] + [];
      Cons(t, [], id);
      assert Keys([]) == [] && Keys(ViewOne(n)) == [t.key] + Keys(t.sub) + [];
      NoRepeatsParts(t.key, Keys(t.sub), []);
      NodeIffKey(View(kids), id);
      FoundIsNode(kids, id);
    }
  }

  lemma NoRepeatsHalves(a: seq<string>, b: seq<string>)
    requires NoRepeats(a + b)
    ensures NoRepeats(a) && NoRepeats(b) && forall k :: k in a ==> k !in b
  {
    var s := a + b;
    assert forall i :: 0 <= i < |a| ==> s[i] == a[i];
    assert forall i :: 0 <= i < |b| ==> s[|a| + i] == b[i];
  }

  ghost function Sent(f: seq<Tree>, id: string, pid: string, moved: Tree): Option<seq<Tree>> {
    var pruned := Prune(f, id);
    if pid == "" then Some(pruned + [moved]) else Graft(pruned, pid, moved)
  }

  // A destination is accepted exactly when it is the root or another menu
  // that is not below the moved one.
  lemma AcceptedExactly(f: seq<Tree>, id: string, pid: string, moved: Tree)
    requires UniqueKeys(f) && moved.key == id && moved.sub == []
    ensures Sent(f, id, pid, moved).Some? <==> pid == "" || (pid in Keys(f) && pid != id && !Below(f, id, pid))
  {
    hide UniqueKeys, Graft, Prune, Below;
    PruneInfo(f, id, pid);
    PruneInfo(f, id, id);
    NodeIffKey(Prune(f, id), pid);
    NodeIffKey(Prune(f, id), id);
    NodeIffKey(f, pid);
    GraftInfo(Prune(f, id), pid, moved, pid);
  }

  // The tree that is sent holds every menu once, except those below the moved
  // one; the moved menu is the last child of its new parent, and every other
  // menu keeps its data, its parent and its place among its siblings.
  lemma MoveKeepsTheRest(f: seq<Tree>, id: string, pid: string, moved: Tree)
    requires UniqueKeys(f) && Node(f, id).Some? && moved.key == id && moved.sub == []
    requires Sent(f, id, pid, moved).Some?
    ensures var g := Sent(f, id, pid, moved).value;
            && KeyBag(g) + KeyBag(Node(f, id).value.sub) == KeyBag(f)
            && InfoOf(g, id) == Some(Info(moved.data, []))
            && Roots(g) == Minus(Roots(f), id) + (if pid == "" then [id] else [])
            && forall k :: k in Keys(f) && k != id && !Below(f, id, k) ==>
                 && InfoOf(f, k).Some?
                 && InfoOf(g, k) == Some(Info(InfoOf(f, k).value.data,
                                              Minus(InfoOf(f, k).value.kids, id) + (if k == pid && pid != "" then [id] else [])))
  {
    hide UniqueKeys, Graft, Prune, Below, Keys, KeyBag, Roots, Node, Minus;
    var pruned := Prune(f, id);
    PruneKeys(f, id);
    PruneRoots(f, id);
    PruneInfo(f, id, id);
    NodeIffKey(pruned, id);
    forall k
      ensures k in Keys(f) && k != id && !Below(f, id, k) ==>
                InfoOf(f, k).Some? && InfoOf(pruned, k) == Some(InfoOf(f, k).value.(kids := Minus(InfoOf(f, k).value.kids, id)))
    {
      PruneInfo(f, id, k);
      NodeIffKey(f, k);
    }
    forall s: seq<string>
      ensures s + [] == s
    {
    }
    if pid == "" {
      RootMove(pruned, moved);
    } else {
      GraftKeys(pruned, pid, moved);
      forall k {
        GraftInfo(pruned, pid, moved, k);
      }
    }
  }

  lemma RootMove(pruned: seq<Tree>, moved: Tree)
    requires moved.sub == [] && moved.key !in Keys(pruned)
    ensures var g := pruned + [moved];
            && KeyBag(g) == KeyBag(pruned) + multiset{moved.key}
            && Roots(g) == Roots(pruned) + [moved.key]
            && forall k :: InfoOf(g, k) == if k == moved.key then Some(Info(moved.data, [])) else InfoOf(pruned, k)
  {
    BagSnoc(pruned, moved);
    RootsAppend(pruned, moved);
    NodeAbsent(pruned, moved.key);
    hide Keys, Node;
    forall k
      ensures InfoOf(pruned + [moved], k) == if k == moved.key then Some(Info(moved.data, [])) else InfoOf(pruned, k)
    {
      NodeAppend(pruned, [moved], k);
      NodeOfLeaf(moved, k);
    }
  }

  // With unique ids and a platform that keeps what it is sent, the move of a
  // present menu succeeds for every acceptable destination, the check reads
  // the new parent back, and any other destination is rejected.
  lemma MoveSucceedsExactly(menus: seq<Menu>, menuId: string, parentId: string, menuOrder: int)
    requires UniqueKeys(View(menus))
    requires Found(menus, menuId).Some?
    ensures var f, pid := View(menus), Group(parentId);
            var moved := Tree(menuId, Data(pid, menuOrder, Found(menus, menuId).value.rest), []);
            && Node(f, menuId).Some?
            && (Sent(f, menuId, pid, moved).Some? <==> pid == "" || (pid in Keys(f) && pid != menuId && !Below(f, menuId, pid)))
            && (Sent(f, menuId, pid, moved).Some? ==>
                  var g := Sent(f, menuId, pid, moved).value;
                  Node(g, menuId).Some? && Node(g, menuId).value.data.parentId == pid)
  {
    hide UniqueKeys, View, Keys, Sent, Below, Strip;
    FoundIsNode(menus, menuId);
    NodeIffKey(View(menus), menuId);
    var f, pid := View(menus), Group(parentId);
    var moved := Tree(menuId, Data(pid, menuOrder, Found(menus, menuId).value.rest), []);
    AcceptedExactly(f, menuId, pid, moved);
    if Sent(f, menuId, pid, moved).Some? {
      MoveKeepsTheRest(f, menuId, pid, moved);
    }
  }

  // ----- what the nodes mean -----

  // The key is the first of the two ids that is given.
  ghost predicate HasKey(n: Menu, k: string)
    requires n.Menu?
  {
    (n.id != "" && k == n.id) || (n.id == "" && k == n.menuId)
  }

  // Where the children of a delivered node are.
  ghost predicate HasKids(n: Menu, kids: seq<Menu>)
    requires n.Menu?
  {
    (n.submenus != [] && kids == n.submenus) || (n.submenus == [] && kids == n.children)
  }

  lemma {:induction false} ViewAppend(a: seq<Menu>, b: seq<Menu>)
    ensures View(a + b) == View(a) + View(b)
    decreases |a|
  {
    hide ViewOne;
    if a == [] {
      assert a + b == b;
    } else {
      ViewAppend(a[1..], b);
      assert (a + b)[1..] == a[1..] + b;
    }
  }

  // A delivered list means one tree a dictionary, in order, with the key, the
  // data and the children of the node; a posted one the same, with the children
  // read from `submenus` only.
  lemma ViewSays(a: seq<Menu>, n: Menu, kids: seq<Menu>, k: string)
    requires n.Menu? ==> HasKey(n, k) && HasKids(n, kids)
    ensures View([]) == [] && Posted([]) == []
    ensures n.NotADict? ==> View(a + [n]) == View(a) && Posted(a + [n]) == Posted(a)
    ensures n.Menu? ==>
              && View(a + [n]) == View(a) + [Tree(k, Data(n.parentId, n.menuOrder, n.rest), View(kids))]
              && Posted(a + [n]) == Posted(a) + [Tree(k, Data(n.parentId, n.menuOrder, n.rest), Posted(n.submenus))]
  {
    ViewAppend(a, [n]);
    PostedAppend(a, [n]);
    assert [n][1..] == [];
    assert View(a) + [] == View(a) && Posted(a) + [] == Posted(a);
  }

  // The menu that is remembered is the last match among siblings; inside a
  // match nothing is looked for.
  lemma FoundSays(a: seq<Menu>, n: Menu, kids: seq<Menu>, own: string, k: string)
    requires n.Menu? ==> HasKey(n, own) && HasKids(n, kids)
    ensures Found([], k).None?
    ensures n.NotADict? ==> Found(a + [n], k) == Found(a, k)
    ensures n.Menu? && own == k ==> Found(a + [n], k) == Some(n)
    ensures n.Menu? && own != k ==> Found(a + [n], k) == if Found(kids, k).Some? then Found(kids, k) else Found(a, k)
  {
    FoundAppend(a, [n], k);
    assert [n][1..] == [];
  }

  lemma MinusNothing(k: string)
    ensures Minus([], k) == []
  {
  }

  // `Minus` takes the key out and keeps the others in order.
  lemma {:induction false} MinusSays(a: seq<string>, b: seq<string>, k: string)
    ensures Minus(a + b, k) == Minus(a, k) + Minus(b, k)
    decreases |a|
  {
    hide Minus;
    MinusNothing(k);
    if a == [] {
      assert a + b == b;
    } else {
      MinusSays(a[1..], b, k);
      assert a == [a[0]] + a[1..] && a + b == [a[0]] + (a[1..] + b);
      MinusCons(a[0], a[1..], k);
      MinusCons(a[0], a[1..] + b, k);
    }
  }

  lemma MinusOne(x: string, k: string)
    ensures Minus([x], k) == if x == k then [] else [x]
  {
    assert [x][1..] == [];
  }

  // The group is the given id without the white space around it.
  lemma GroupSays(pre: string, pid: string, post: string)
    requires AllSpace(pre) && AllSpace(post) && Trimmed(pid)
    ensures Group(pre + pid + post) == pid
  {
    hide Strip;
    StripUnique(pre, pid, post);
  }
}
