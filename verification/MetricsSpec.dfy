/**
 The operator's metrics specification (metrics.go) and its compiler.

 A specification is a tree of nodes read from JSON.  The compiler decorates each
 node in place: its type, its fully qualified name, and maps from child name to
 child node, one over all children and one per node type.
 */
module MetricsSpec {
  import opened Common

  /** A specification tree as the operator wrote it. */
  datatype Spec = Spec(name: string, tag: bool, track: bool, fields: seq<Spec>)

  datatype NodeType = Sensor | Tag | Container

  const CONJOIN := "__"

  /** How an output handler rewrites names; the Influx handler keeps them as they are. */
  datatype Adapter = Adapter(sensor: string -> string, tag: string -> string)

  const IDENTITY := Adapter((s: string) => s, (s: string) => s)

  function TypeOf(s: Spec): NodeType {
    if s.tag then Tag else if s.fields != [] then Container else Sensor
  }

  /** The path of a node below `path`; an empty name adds nothing. */
  function Extend(path: string, name: string): string {
    if name == "" then path else if path == "" then name else path + CONJOIN + name
  }

  function FqName(a: Adapter, path: string, s: Spec): string {
    if s.tag then a.tag(path) else a.sensor(path)
  }

  /** The specification carries no 'Tag' node with children. */
  predicate Compilable(s: Spec)
    decreases s, |s.fields| + 1
  {
    if s.tag then s.fields == [] else CompilableFirst(s, |s.fields|)
  }

  predicate CompilableFirst(s: Spec, n: nat)
    requires n <= |s.fields|
    decreases s, n
  {
    n == 0 || (Compilable(s.fields[n - 1]) && CompilableFirst(s, n - 1))
  }

  lemma {:induction false} NotCompilable(s: Spec, i: nat, n: nat)
    requires i < n <= |s.fields| && !Compilable(s.fields[i])
    ensures !CompilableFirst(s, n)
  {
    if i < n - 1 {
      NotCompilable(s, i, n - 1);
    }
  }

  /**
   The child of type `t` called `name` among the first `n`.  Children that share a
   name are resolved in favour of the last one of the wanted type.
   */
  function Lookup(fields: seq<Spec>, n: nat, t: NodeType, name: string): (r: Option<nat>)
    requires n <= |fields|
    ensures r.Some? ==> r.value < n && TypeOf(fields[r.value]) == t && fields[r.value].name == name
  {
    if n == 0 then None
    else if TypeOf(fields[n - 1]) == t && fields[n - 1].name == name then Some(n - 1)
    else Lookup(fields, n - 1, t, name)
  }

  /** The child found is the last one of the name and the type, and none is found only when there is none. */
  lemma {:induction false} LookupIs(fields: seq<Spec>, n: nat, t: NodeType, name: string)
    requires n <= |fields|
    ensures var r := Lookup(fields, n, t, name);
            forall j | 0 <= j < n && TypeOf(fields[j]) == t && fields[j].name == name :: r.Some? && j <= r.value
  {
    if n > 0 {
      LookupIs(fields, n - 1, t, name);
    }
  }

  /** The node below `s` that is reached by taking these children in turn. */
  function NodeAt(s: Spec, path: seq<nat>): Option<Spec>
    decreases |path|
  {
    if path == [] then Some(s) else if path[0] < |s.fields| then NodeAt(s.fields[path[0]], path[1..]) else None
  }

  predicate TagWithChildren(s: Spec) {
    s.tag && s.fields != []
  }

  /** A specification cannot be compiled if and only if some node of it is a 'Tag' node with children. */
  lemma CompilableExactly(s: Spec)
    ensures Compilable(s) <==> forall path | NodeAt(s, path).Some? :: !TagWithChildren(NodeAt(s, path).value)
  {
    if Compilable(s) {
      forall path | NodeAt(s, path).Some? ensures !TagWithChildren(NodeAt(s, path).value) {
        NoBadNode(s, path);
      }
    } else {
      var path := BadNode(s);
    }
  }

  lemma {:induction false} CompilableChild(s: Spec, i: nat, n: nat)
    requires i < n <= |s.fields| && CompilableFirst(s, n)
    ensures Compilable(s.fields[i])
  {
    if i < n - 1 {
      CompilableChild(s, i, n - 1);
    }
  }

  lemma {:induction false} NoBadNode(s: Spec, path: seq<nat>)
    requires Compilable(s) && NodeAt(s, path).Some?
    ensures !TagWithChildren(NodeAt(s, path).value)
    decreases |path|
  {
    if path != [] {
      CompilableChild(s, path[0], |s.fields|);
      NoBadNode(s.fields[path[0]], path[1..]);
    }
  }

  lemma {:induction false} BadNode(s: Spec) returns (path: seq<nat>)
    requires !Compilable(s)
    ensures NodeAt(s, path).Some? && TagWithChildren(NodeAt(s, path).value)
    decreases s, |s.fields| + 1
  {
    if s.tag {
      path := [];
    } else {
      path := BadBelow(s, |s.fields|);
    }
  }

  lemma {:induction false} BadBelow(s: Spec, n: nat) returns (path: seq<nat>)
    requires n <= |s.fields| && !CompilableFirst(s, n)
    ensures NodeAt(s, path).Some? && TagWithChildren(NodeAt(s, path).value)
    decreases s, n
  {
    if Compilable(s.fields[n - 1]) {
      path := BadBelow(s, n - 1);
    } else {
      var below := BadNode(s.fields[n - 1]);
      path := [n - 1] + below;
      assert path[1..] == below;
    }
  }

  ghost function NamesOfType(fields: seq<Spec>, n: nat, t: NodeType): set<string>
    requires n <= |fields|
  {
    if n == 0 then {}
    else NamesOfType(fields, n - 1, t) + if TypeOf(fields[n - 1]) == t then {fields[n - 1].name} else {}
  }

  lemma {:induction false} LookupNames(fields: seq<Spec>, n: nat, t: NodeType, name: string)
    requires n <= |fields|
    ensures Lookup(fields, n, t, name).Some? <==> name in NamesOfType(fields, n, t)
  {
    if n > 0 {
      LookupNames(fields, n - 1, t, name);
    }
  }

  /** One map per node type. */
  datatype TypeMaps = TypeMaps(tags: map<string, SpecNode>, sensors: map<string, SpecNode>, containers: map<string, SpecNode>) {
    function At(t: NodeType): map<string, SpecNode> {
      if t == Tag then tags else if t == Sensor then sensors else containers
    }

    function Put(t: NodeType, name: string, n: SpecNode): TypeMaps {
      match t
      case Tag => this.(tags := tags[name := n])
      case Sensor => this.(sensors := sensors[name := n])
      case Container => this.(containers := containers[name := n])
    }
  }

  /**
   A specification node: the operator's content, then what the compiler derives.
   The ghost constants record where the node stands: the specification below it,
   its path from the root, and the nodes of its subtree.
   */
  class SpecNode {
    const name: string
    const tag: bool
    const track: bool
    const fields: seq<SpecNode>
    ghost const spec: Spec
    ghost const at: string
    ghost const repr: set<SpecNode>

    var nodeType: NodeType
    var fqName: string
    var fieldsMap: map<string, SpecNode>
    var byType: TypeMaps

    constructor (name: string, tag: bool, track: bool, fields: seq<SpecNode>, ghost at: string)
      requires forall i | 0 <= i < |fields| :: Tree(fields[i]) && fields[i].at == Extend(at, fields[i].name)
      requires forall i, j | 0 <= i < j < |fields| :: fields[i].repr !! fields[j].repr
      ensures this.name == name && this.tag == tag && this.track == track && this.fields == fields && this.at == at
      ensures Tree(this)
    {
      this.name, this.tag, this.track, this.fields, this.at := name, tag, track, fields, at;
      this.spec := Spec(name, tag, track, SpecsOf(fields));
      this.repr := {this} + Below(fields, |fields|);
      nodeType, fqName, fieldsMap, byType := Sensor, "", map[], TypeMaps(map[], map[], map[]);
      new;
      NewTree(this);
    }
  }

  lemma NewTree(n: SpecNode)
    requires n.spec == Spec(n.name, n.tag, n.track, SpecsOf(n.fields)) && n.repr == {n} + Below(n.fields, |n.fields|)
    requires forall i | 0 <= i < |n.fields| :: Tree(n.fields[i]) && n.fields[i].at == Extend(n.at, n.fields[i].name)
    requires forall i | 0 <= i < |n.fields| :: n !in n.fields[i].repr
    requires forall i, j | 0 <= i < j < |n.fields| :: n.fields[i].repr !! n.fields[j].repr
    ensures Tree(n)
  {
    forall i | 0 <= i < |n.fields| ensures TreeChild(n, n.fields[i]) && n.fields[i].spec == n.spec.fields[i] {
      TreeRoot(n.fields[i]);
      forall m | m in n.fields[i].repr ensures m in n.repr {
        BelowHas(n.fields, |n.fields|, m);
      }
    }
    assert forall now :: TreeHere(n, now);
  }

  ghost function SpecsOf(ns: seq<SpecNode>): (r: seq<Spec>) {
    seq(|ns|, i requires 0 <= i < |ns| => ns[i].spec)
  }

  /**
   `n` is the root of a finite tree that carries `n.spec`, and no node occurs in it
   twice.  The definition stands behind a quantifier so that it is unfolded only
   where a proof asks for it.
   */
  ghost predicate Tree(n: SpecNode)
    decreases n.spec, 1
  {
    forall now :: TreeHere(n, now)
  }

  ghost predicate TreeHere(n: SpecNode, now: bool)
    decreases n.spec, 0
  {
    now ==>
      && n.name == n.spec.name && n.tag == n.spec.tag && n.track == n.spec.track
      && n.spec.fields == SpecsOf(n.fields)
      && (forall i | 0 <= i < |n.fields| :: TreeChild(n, n.fields[i]) && n.fields[i].spec == n.spec.fields[i] && Tree(n.fields[i]))
      && (forall i, j | 0 <= i < j < |n.fields| :: n.fields[i].repr !! n.fields[j].repr)
      && n.repr == {n} + Below(n.fields, |n.fields|)
  }

  ghost predicate TreeChild(n: SpecNode, c: SpecNode) {
    c.at == Extend(n.at, c.name) && c.repr <= n.repr && n !in c.repr && c in c.repr
  }

  /** The nodes below the first `i` of the given nodes. */
  ghost function Below(ns: seq<SpecNode>, i: nat): set<SpecNode>
    requires i <= |ns|
  {
    if i == 0 then {} else Below(ns, i - 1) + ns[i - 1].repr
  }

  lemma {:induction false} BelowHas(ns: seq<SpecNode>, i: nat, m: SpecNode)
    requires i <= |ns|
    ensures m in Below(ns, i) <==> exists j :: 0 <= j < i && m in ns[j].repr
  {
    if i > 0 {
      BelowHas(ns, i - 1, m);
    }
  }

  lemma BelowApart(ns: seq<SpecNode>, i: nat, n: SpecNode)
    requires i <= |ns| && forall j | 0 <= j < i :: ns[j].repr !! n.repr
    ensures Below(ns, i) !! n.repr
  {
    forall m | m in Below(ns, i) ensures m !in n.repr {
      BelowHas(ns, i, m);
    }
  }

  lemma TreeRoot(n: SpecNode)
    requires Tree(n)
    ensures n.name == n.spec.name && n.tag == n.spec.tag && n.track == n.spec.track
    ensures |n.fields| == |n.spec.fields| && n.spec.fields == SpecsOf(n.fields)
    ensures n.repr == {n} + Below(n.fields, |n.fields|) && n !in Below(n.fields, |n.fields|)
  {
    assert TreeHere(n, true);
    BelowHas(n.fields, |n.fields|, n);
  }

  lemma TreeBelow(n: SpecNode, i: nat)
    requires Tree(n) && i < |n.fields|
    ensures i < |n.spec.fields| && n.fields[i].spec == n.spec.fields[i]
    ensures Tree(n.fields[i]) && TreeChild(n, n.fields[i])
    ensures Below(n.fields, i) !! n.fields[i].repr && n !in Below(n.fields, i)
    ensures Below(n.fields, i) <= n.repr && Below(n.fields, i + 1) <= n.repr
  {
    assert TreeHere(n, true);
    forall m | m in Below(n.fields, i) ensures m in n.repr {
      BelowHas(n.fields, i, m);
    }
    BelowApart(n.fields, i, n.fields[i]);
    BelowHas(n.fields, i, n);
  }

  /** The map over the first `n` nodes of type `t`; a repeated name keeps the last. */
  ghost function MapOfType(ns: seq<SpecNode>, n: nat, t: NodeType): map<string, SpecNode>
    requires n <= |ns|
  {
    if n == 0 then map[]
    else if TypeOf(ns[n - 1].spec) == t then MapOfType(ns, n - 1, t)[ns[n - 1].name := ns[n - 1]]
    else MapOfType(ns, n - 1, t)
  }

  ghost function MapOfAll(ns: seq<SpecNode>, n: nat): map<string, SpecNode>
    requires n <= |ns|
  {
    if n == 0 then map[] else MapOfAll(ns, n - 1)[ns[n - 1].name := ns[n - 1]]
  }

  ghost function MapsByType(ns: seq<SpecNode>, n: nat): TypeMaps
    requires n <= |ns|
  {
    TypeMaps(MapOfType(ns, n, Tag), MapOfType(ns, n, Sensor), MapOfType(ns, n, Container))
  }

  /** What the compiler leaves behind at one node. */
  ghost predicate Decorated(n: SpecNode, a: Adapter)
    reads n
  {
    && n.nodeType == TypeOf(n.spec)
    && (n.nodeType != Container ==> n.fqName == FqName(a, n.at, n.spec))
    && n.fieldsMap == MapOfAll(n.fields, |n.fields|)
    && n.byType == MapsByType(n.fields, |n.fields|)
  }

  ghost predicate Compiled(n: SpecNode, a: Adapter)
    reads n.repr
  {
    Raw(n.repr, a) == {}
  }

  /** The nodes that are not yet as the compiler leaves them. */
  ghost function Raw(ms: set<SpecNode>, a: Adapter): set<SpecNode>
    reads ms
  {
    set m | m in ms && !Decorated(m, a)
  }

  lemma CompiledNode(n: SpecNode, a: Adapter, m: SpecNode)
    requires Compiled(n, a) && m in n.repr
    ensures Decorated(m, a)
  {
    assert m !in Raw(n.repr, a);
  }

  lemma RawUnion(ms: set<SpecNode>, ns: set<SpecNode>, a: Adapter)
    ensures Raw(ms + ns, a) == Raw(ms, a) + Raw(ns, a)
  {
  }

  /** The map of a type holds exactly the names of the children of that type, each with the child `Lookup` finds. */
  lemma {:induction false} MapResolves(n: SpecNode, k: nat, t: NodeType, name: string)
    requires Tree(n) && k <= |n.fields| == |n.spec.fields|
    ensures var i := Lookup(n.spec.fields, k, t, name);
            && (name in MapOfType(n.fields, k, t) <==> i.Some?)
            && (i.Some? ==> MapOfType(n.fields, k, t)[name] == n.fields[i.value])
  {
    if k > 0 {
      TreeBelow(n, k - 1);
      TreeRoot(n.fields[k - 1]);
      MapResolves(n, k - 1, t, name);
    }
  }

  /**
   Decorates the tree below `node` in place.  It stops with an error at the first
   'Tag' node that has children, and otherwise leaves every node compiled.
   */
  method BuildSubtree(node: SpecNode, a: Adapter, path: string) returns (ok: bool)
    requires Tree(node) && node.at == Extend(path, node.name)
    modifies node.repr
    ensures ok <==> Compilable(node.spec)
    ensures ok ==> Compiled(node, a)
    decreases node.spec, 2
  {
    var p := Extend(path, node.name);
    TreeRoot(node);
    node.fieldsMap := map[];
    node.byType := TypeMaps(map[], map[], map[]);
    if node.tag {
      if node.fields != [] {
        return false;
      }
      node.nodeType := Tag;
      node.fqName := a.tag(p);
    } else if node.fields != [] {
      node.nodeType := Container;
      assert forall now :: BuiltHere(node, a, 0, now);
      ok := BuildChildren(node, a, p);
      assert ok ==> BuiltHere(node, a, |node.fields|, true);
      RawUnion({node}, Below(node.fields, |node.fields|), a);
      return;
    } else {
      node.nodeType := Sensor;
      node.fqName := a.sensor(p);
    }
    ok := true;
  }

  /** The first `i` children are compiled and entered in the maps; unfolded only where a proof asks for it. */
  ghost predicate Built(n: SpecNode, a: Adapter, i: nat)
    requires i <= |n.fields|
    reads n, Below(n.fields, i)
  {
    forall now :: BuiltHere(n, a, i, now)
  }

  ghost predicate BuiltHere(n: SpecNode, a: Adapter, i: nat, now: bool)
    requires i <= |n.fields|
    reads n, Below(n.fields, i)
  {
    now ==>
      && n.fieldsMap == MapOfAll(n.fields, i)
      && n.byType == MapsByType(n.fields, i)
      && Raw(Below(n.fields, i), a) == {}
  }

  method BuildChildren(node: SpecNode, a: Adapter, p: string) returns (ok: bool)
    requires Tree(node) && node.at == p && !node.tag && Built(node, a, 0)
    modifies node.repr
    ensures node.nodeType == old(node.nodeType)
    ensures ok <==> Compilable(node.spec)
    ensures ok ==> Built(node, a, |node.fields|)
    decreases node.spec, 1
  {
    TreeRoot(node);
    for i := 0 to |node.fields|
      invariant node.nodeType == old(node.nodeType)
      invariant CompilableFirst(node.spec, i)
      invariant Built(node, a, i)
    {
      TreeBelow(node, i);
      ok := BuildChild(node, a, p, i);
      if !ok {
        NotCompilable(node.spec, i, |node.fields|);
        return;
      }
    }
    ok := true;
  }

  method BuildChild(node: SpecNode, a: Adapter, p: string, i: nat) returns (ok: bool)
    requires Tree(node) && node.at == p && i < |node.fields| == |node.spec.fields|
    requires Built(node, a, i)
    modifies node`fieldsMap, node`byType, node.fields[i].repr
    ensures node.nodeType == old(node.nodeType)
    ensures ok <==> Compilable(node.spec.fields[i])
    ensures ok ==> Built(node, a, i + 1)
    decreases node.spec, 0
  {
    var child := node.fields[i];
    TreeBelow(node, i);
    TreeRoot(child);
    assert BuiltHere(node, a, i, true);
    node.fieldsMap := node.fieldsMap[child.name := child];
    ok := BuildSubtree(child, a, p);
    if ok {
      CompiledNode(child, a, child);
      node.byType := node.byType.Put(child.nodeType, child.name, child);
      BuiltNext(node, a, i);
    }
  }

  /** With one more child compiled and entered in the maps. */
  lemma BuiltNext(n: SpecNode, a: Adapter, i: nat)
    requires i < |n.fields| && Raw(Below(n.fields, i), a) == {} && Compiled(n.fields[i], a)
    requires var c := n.fields[i];
             && n.fieldsMap == MapOfAll(n.fields, i)[c.name := c]
             && n.byType == MapsByType(n.fields, i).Put(TypeOf(c.spec), c.name, c)
    ensures Built(n, a, i + 1)
  {
    var next := i + 1;
    RawUnion(Below(n.fields, i), n.fields[i].repr, a);
    assert forall now :: BuiltHere(n, a, next, now);
  }

  /** The index by base path of the first `n` specifications; a repeated base path keeps the last. */
  function Index(paths: seq<string>, roots: seq<SpecNode>, n: nat): map<string, SpecNode>
    requires n <= |paths| == |roots|
  {
    if n == 0 then map[] else Index(paths, roots, n - 1)[paths[n - 1] := roots[n - 1]]
  }

  /** `i` is the last of the first `n` positions that holds `p`. */
  predicate LastAt(names: seq<string>, n: nat, i: int, p: string)
    requires n <= |names|
  {
    0 <= i < n && names[i] == p && forall j | i < j < n :: names[j] != p
  }

  /** Every path given leads to the last root given for it, and no other path leads anywhere. */
  ghost predicate IsIndex(db: map<string, SpecNode>, paths: seq<string>, roots: seq<SpecNode>, n: nat)
    requires n <= |paths| == |roots|
  {
    && (forall i | 0 <= i < n :: paths[i] in db)
    && (forall p | p in db :: exists i :: LastAt(paths, n, i, p) && db[p] == roots[i])
  }

  lemma {:induction false} IndexIs(paths: seq<string>, roots: seq<SpecNode>, n: nat)
    requires n <= |paths| == |roots|
    ensures IsIndex(Index(paths, roots, n), paths, roots, n)
  {
    if n > 0 {
      IndexIs(paths, roots, n - 1);
      var before, db := Index(paths, roots, n - 1), Index(paths, roots, n);
      forall p | p in db ensures exists i :: LastAt(paths, n, i, p) && db[p] == roots[i] {
        if p == paths[n - 1] {
          assert LastAt(paths, n, n - 1, p);
        } else {
          var i :| LastAt(paths, n - 1, i, p) && before[p] == roots[i];
          assert LastAt(paths, n, i, p);
        }
      }
    }
  }

  /** Compiles every specification of the set, or reports an error when one of them cannot be compiled. */
  method BuildSpecDB(paths: seq<string>, roots: seq<SpecNode>, a: Adapter) returns (ok: bool, db: map<string, SpecNode>)
    requires |paths| == |roots|
    requires forall i | 0 <= i < |roots| :: Tree(roots[i]) && roots[i].at == roots[i].name
    requires forall i, j | 0 <= i < j < |roots| :: roots[i].repr !! roots[j].repr
    modifies set i, m | 0 <= i < |roots| && m in roots[i].repr :: m
    ensures ok <==> forall i | 0 <= i < |roots| :: Compilable(roots[i].spec)
    ensures ok ==> db == Index(paths, roots, |roots|) && IsIndex(db, paths, roots, |roots|)
    ensures ok ==> forall i | 0 <= i < |roots| :: Compiled(roots[i], a)
  {
    db := map[];
    for i := 0 to |roots|
      invariant db == Index(paths, roots, i)
      invariant forall j | 0 <= j < i :: Compilable(roots[j].spec)
      invariant forall j | 0 <= j < i :: Compiled(roots[j], a)
    {
      ok := BuildSubtree(roots[i], a, "");
      if !ok {
        return;
      }
      db := db[paths[i] := roots[i]];
    }
    IndexIs(paths, roots, |roots|);
    ok := true;
  }

  // ---------------------------------------------------------------------------
  // Fully qualified names are unambiguous

  predicate HasConjoin(s: string) {
    exists i :: 0 <= i < |s| - 1 && s[i] == '_' && s[i + 1] == '_'
  }

  /** A name that "__" can separate without ambiguity.  It may start with an underscore. */
  predicate SafeName(s: string) {
    s != "" && s[|s| - 1] != '_' && !HasConjoin(s)
  }

  predicate SafeBelow(s: Spec) {
    forall i | 0 <= i < |s.fields| :: SafeName(s.fields[i].name) && SafeBelow(s.fields[i])
  }

  predicate DistinctSiblings(s: Spec) {
    && (forall i, j | 0 <= i < j < |s.fields| :: s.fields[i].name != s.fields[j].name)
    && (forall i | 0 <= i < |s.fields| :: DistinctSiblings(s.fields[i]))
  }

  /** What may follow a node's path in the path of a node below it. */
  predicate Tail(r: string) {
    r == "" || (|r| >= 2 && r[0] == '_' && r[1] == '_')
  }

  /** A safe name followed by a separator is not the beginning of a longer safe name. */
  lemma LongerComponentUnsafe(a: string, r: string, b: string, q: string)
    requires Tail(r) && |a| < |b| && a + r == b + q
    ensures !SafeName(b)
  {
    assert (a + r)[|a|] == b[|a|];
    assert r[0] == '_' && r[1] == '_';
    if |b| > |a| + 1 {
      assert (a + r)[|a| + 1] == b[|a| + 1];
    }
  }

  lemma ComponentDetermined(a: string, r: string, b: string, q: string)
    requires SafeName(a) && SafeName(b) && Tail(r) && Tail(q)
    ensures a + r == b + q ==> a == b
  {
    if a + r == b + q {
      if |a| < |b| {
        LongerComponentUnsafe(a, r, b, q);
      } else if |b| < |a| {
        LongerComponentUnsafe(b, q, a, r);
      } else {
        assert a == (a + r)[..|a|];
        assert b == (b + q)[..|b|];
      }
    }
  }

  lemma ChildHolding(n: SpecNode, m: SpecNode) returns (i: nat)
    requires Tree(n) && m in n.repr && m != n
    ensures i < |n.fields| && m in n.fields[i].repr
    ensures Tree(n.fields[i]) && n.fields[i].at == Extend(n.at, n.fields[i].name)
    ensures i < |n.spec.fields| && n.fields[i].spec == n.spec.fields[i] && n.fields[i].name == n.spec.fields[i].name
  {
    TreeRoot(n);
    BelowHas(n.fields, |n.fields|, m);
    i :| 0 <= i < |n.fields| && m in n.fields[i].repr;
    TreeBelow(n, i);
    TreeRoot(n.fields[i]);
  }

  lemma Reassociate(a: string, b: string, c: string, d: string)
    ensures (a + b + c) + d == a + (b + c + d)
  {
  }

  /** The path of a node is a prefix of the path of every node below it, cut at a separator. */
  lemma {:induction false} PathBelow(n: SpecNode, m: SpecNode) returns (r: string)
    requires Tree(n) && m in n.repr && SafeBelow(n.spec) && n.at != ""
    ensures Tail(r) && m.at == n.at + r
    decreases n.spec
  {
    if m == n {
      r := "";
    } else {
      var i := ChildHolding(n, m);
      var q := PathBelow(n.fields[i], m);
      r := CONJOIN + n.fields[i].name + q;
      Reassociate(n.at, CONJOIN, n.fields[i].name, q);
    }
  }

  lemma {:induction false} PathsInjective(n: SpecNode, m1: SpecNode, m2: SpecNode)
    requires Tree(n) && SafeBelow(n.spec) && DistinctSiblings(n.spec)
    requires m1 in n.repr && m2 in n.repr && m1 != m2
    ensures m1.at != m2.at
    decreases n.spec
  {
    if m1 == n {
      DeeperPathLonger(n, m2);
    } else if m2 == n {
      DeeperPathLonger(n, m1);
    } else {
      var i := ChildHolding(n, m1);
      var j := ChildHolding(n, m2);
      if i == j {
        PathsInjective(n.fields[i], m1, m2);
      } else {
        var r := PathBelow(n.fields[i], m1);
        var q := PathBelow(n.fields[j], m2);
        SiblingPathsDiffer(n.at, n.fields[i].name, r, n.fields[j].name, q);
      }
    }
  }

  lemma SiblingPathsDiffer(at: string, a: string, r: string, b: string, q: string)
    requires SafeName(a) && SafeName(b) && a != b && Tail(r) && Tail(q)
    ensures Extend(at, a) + r != Extend(at, b) + q
  {
    ComponentDetermined(a, r, b, q);
    ExtendParts(at, a, r);
    ExtendParts(at, b, q);
    var pre := if at == "" then "" else at + CONJOIN;
    assert (pre + (a + r))[|pre|..] == a + r;
    assert (pre + (b + q))[|pre|..] == b + q;
  }

  lemma ExtendParts(at: string, a: string, r: string)
    requires a != ""
    ensures Extend(at, a) + r == (if at == "" then "" else at + CONJOIN) + (a + r)
  {
  }

  lemma DeeperPathLonger(n: SpecNode, m: SpecNode)
    requires Tree(n) && SafeBelow(n.spec) && m in n.repr && m != n
    ensures |n.at| < |m.at|
  {
    var i := ChildHolding(n, m);
    var r := PathBelow(n.fields[i], m);
  }

  /** Under the Influx handler no two tags or sensors of a specification share a name. */
  lemma FqNamesInjective(root: SpecNode, m1: SpecNode, m2: SpecNode)
    requires Tree(root) && Compiled(root, IDENTITY)
    requires SafeBelow(root.spec) && DistinctSiblings(root.spec)
    requires m1 in root.repr && m2 in root.repr
    requires m1.nodeType != Container && m2.nodeType != Container
    ensures m1.fqName == m2.fqName <==> m1 == m2
  {
    CompiledNode(root, IDENTITY, m1);
    CompiledNode(root, IDENTITY, m2);
    if m1 != m2 {
      PathsInjective(root, m1, m2);
    }
  }

  /** Three ways a name can be unsafe: it is empty, it contains the separator, or it ends in an underscore. */
  datatype Unsafe = EmptyName | HasSeparator | EndsInUnderscore

  function Leaf(name: string): Spec {
    Spec(name, false, false, [])
  }

  function Node(name: string, child: string): Spec {
    Spec(name, false, false, [Leaf(child)])
  }

  /** A specification with one such name. */
  function UnsafeSpec(u: Unsafe): Spec {
    Spec("", false, false,
         match u
         case EmptyName => [Leaf("b"), Node("", "b")]
         case HasSeparator => [Leaf("a__b"), Node("a", "b")]
         case EndsInUnderscore => [Node("a_", "b"), Node("a", "_b")])
  }

  lemma LeafBelow(root: SpecNode, i: nat)
    requires Tree(root) && i < |root.fields| == |root.spec.fields| && root.at == "" && TypeOf(root.spec.fields[i]) == Sensor && Compiled(root, IDENTITY)
    ensures var m := root.fields[i];
            m in root.repr && m in root.fields[i].repr && m.nodeType == Sensor && m.fqName == root.spec.fields[i].name
  {
    TreeBelow(root, i);
    TreeRoot(root.fields[i]);
    CompiledNode(root, IDENTITY, root.fields[i]);
  }

  lemma LeafDeeper(root: SpecNode, i: nat)
    requires Tree(root) && i < |root.fields| == |root.spec.fields| && root.at == "" && Compiled(root, IDENTITY)
    requires var c := root.spec.fields[i]; |c.fields| == 1 && c == Node(c.name, c.fields[0].name)
    ensures |root.fields[i].fields| == 1
    ensures var m, c := root.fields[i].fields[0], root.spec.fields[i];
            m in root.repr && m in root.fields[i].repr && m.nodeType == Sensor && m.fqName == Extend(c.name, c.fields[0].name)
  {
    var c := root.fields[i];
    TreeBelow(root, i);
    TreeRoot(c);
    TreeBelow(c, 0);
    TreeRoot(c.fields[0]);
    CompiledNode(root, IDENTITY, c.fields[0]);
  }

  lemma UnsafePaths()
    ensures Extend("", "b") == "b" && Extend("a", "b") == "a__b" && Extend("a_", "b") == Extend("a", "_b")
  {
    assert "a" + CONJOIN + "b" == "a__b";
    assert "a" + CONJOIN + "_b" == "a___b" == "a_" + CONJOIN + "b";
  }

  /**
   Each condition on names is needed: a specification with distinct siblings and one
   name of any of these kinds compiles to two sensors that share a name.
   */
  lemma UnsafeNamesCollide(u: Unsafe, root: SpecNode) returns (m1: SpecNode, m2: SpecNode)
    requires Tree(root) && root.at == "" && root.spec == UnsafeSpec(u) && Compiled(root, IDENTITY)
    ensures DistinctSiblings(root.spec)
    ensures m1 in root.repr && m2 in root.repr && m1 != m2 && m1.nodeType == m2.nodeType == Sensor && m1.fqName == m2.fqName
  {
    TreeRoot(root);
    UnsafePaths();
    LeafDeeper(root, 1);
    m2 := root.fields[1].fields[0];
    if u.EndsInUnderscore? {
      LeafDeeper(root, 0);
      m1 := root.fields[0].fields[0];
    } else {
      LeafBelow(root, 0);
      m1 := root.fields[0];
    }
    FirstTwoApart(root, m1, m2);
  }

  lemma FirstTwoApart(root: SpecNode, m1: SpecNode, m2: SpecNode)
    requires Tree(root) && |root.fields| == 2 && m1 in root.fields[0].repr && m2 in root.fields[1].repr
    ensures m1 != m2
  {
    assert TreeHere(root, true);
    assert root.fields[0].repr !! root.fields[1].repr;
  }

  /** `m` is the part of `all` whose nodes have type `t`. */
  ghost predicate PartOfType(m: map<string, SpecNode>, all: map<string, SpecNode>, t: NodeType) {
    && (forall name | name in m :: name in all && m[name] == all[name] && TypeOf(all[name].spec) == t)
    && (forall name | name in all :: TypeOf(all[name].spec) == t ==> name in m)
  }

  lemma {:induction false} AllNames(ns: seq<SpecNode>, n: nat, name: string)
    requires n <= |ns|
    ensures name in MapOfAll(ns, n) ==> exists j :: 0 <= j < n && ns[j].name == name
  {
    if n > 0 {
      AllNames(ns, n - 1, name);
    }
  }

  /** With distinct names the map of a type is a part of the map over all nodes. */
  lemma {:induction false} MapsAgree(ns: seq<SpecNode>, n: nat, t: NodeType)
    requires n <= |ns| && forall j, k | 0 <= j < k < n :: ns[j].name != ns[k].name
    ensures PartOfType(MapOfType(ns, n, t), MapOfAll(ns, n), t)
  {
    if n > 0 {
      MapsAgree(ns, n - 1, t);
      AllNames(ns, n - 1, ns[n - 1].name);
    }
  }

  lemma PartsPartition(all: map<string, SpecNode>, tags: map<string, SpecNode>,
                       sensors: map<string, SpecNode>, containers: map<string, SpecNode>)
    requires PartOfType(tags, all, Tag) && PartOfType(sensors, all, Sensor) && PartOfType(containers, all, Container)
    ensures tags.Keys !! sensors.Keys !! containers.Keys
    ensures all == tags + sensors + containers
  {
    forall name | name in all ensures name in tags || name in sensors || name in containers {
      var t := TypeOf(all[name].spec);
      assert t == Tag || t == Sensor || t == Container;
    }
  }

  /** With distinct sibling names the maps per type partition the map over all children. */
  lemma MapsPartition(n: SpecNode, a: Adapter)
    requires Tree(n) && Compiled(n, a) && DistinctSiblings(n.spec)
    ensures n.byType.tags.Keys !! n.byType.sensors.Keys !! n.byType.containers.Keys
    ensures n.fieldsMap == n.byType.tags + n.byType.sensors + n.byType.containers
  {
    TreeRoot(n);
    CompiledNode(n, a, n);
    var k := |n.fields|;
    forall i, j | 0 <= i < j < k ensures n.fields[i].name != n.fields[j].name {
      TreeBelow(n, i);
      TreeBelow(n, j);
      TreeRoot(n.fields[i]);
      TreeRoot(n.fields[j]);
      assert n.spec.fields[i].name != n.spec.fields[j].name;
    }
    MapsAgree(n.fields, k, Tag);
    MapsAgree(n.fields, k, Sensor);
    MapsAgree(n.fields, k, Container);
    PartsPartition(n.fieldsMap, n.byType.tags, n.byType.sensors, n.byType.containers);
  }
}
