/** A workflow document and `applyRenames` (fix_workflows.js), written as a
    pipeline of pure steps over an immutable document. */
module Workflows {
  import opened Json
  import opened Renames
  import opened Expressions

  /** One edge end inside a connection group: `{node, type, index}`. */
  datatype Target = Target(node: string, kind: string, index: int)

  /** The outputs of one node, by port label (`main`, ...); each port holds
      a sequence of output slots and each slot the targets it feeds. */
  datatype ConnGroup = ConnGroup(ports: seq<(string, seq<seq<Target>>)>)

  /** A node: the members of its JSON object (`id`, `name`, `parameters`, ...). */
  datatype Node = Node(fields: seq<(string, Json)>)

  /** A workflow document: its nodes, its connection graph keyed by source
      node name, its pinned data keyed by node name when present, and every
      other top-level member (name, settings, ...). */
  datatype Workflow = Workflow(
    nodes: seq<Node>,
    connections: seq<(string, ConnGroup)>,
    pinData: Option<seq<(string, Json)>>,
    rest: seq<(string, Json)>)

  /** The rename maps the model reads as the source does: a JavaScript
      object has no repeated key, and a new name without a dollar sign is
      inserted literally by `String.prototype.replace`. */
  predicate LiteralMap(m: RenameMap) {
    DistinctKeys(m) && forall i :: 0 <= i < |m| ==> '$' !in m[i].1
  }

  /** The objects of the document have no repeated keys, as after `JSON.parse`. */
  predicate WellFormed(d: Workflow) {
    && DistinctKeys(d.connections)
    && (d.pinData.Some? ==> DistinctKeys(d.pinData.value))
  }

  /** The node's `name`, when it is a string. */
  function NameOf(n: Node): (r: Option<string>) {
    match Lookup<Json>(n.fields, "name")
    case Some(JString(s)) => Some(s)
    case _ => None
  }

  /** Reading a member just written gives the written value. */
  lemma {:induction false} LookupObjSet(fields: seq<(string, Json)>, k: string, v: Json)
    ensures Lookup(ObjSet(fields, k, v), k) == Some(v)
    decreases |fields|
  {
    if fields != [] {
      ObjSetCons(fields, k, v);
      if fields[0].0 != k {
        LookupObjSet(fields[1..], k, v);
      }
    }
  }

  lemma WalkFieldsCons(x: (string, Json), rest: seq<(string, Json)>, f: string -> string)
    ensures WalkFields([x] + rest, f) == [(x.0, Walk(x.1, f))] + WalkFields(rest, f)
  {
    var l, r := WalkFields([x] + rest, f), [(x.0, Walk(x.1, f))] + WalkFields(rest, f);
    assert |l| == |r|;
    forall i | 0 <= i < |l| ensures l[i] == r[i] {
      if i > 0 {
        assert ([x] + rest)[i] == rest[i - 1];
      }
    }
  }

  /** Writing a member commutes with walking the object. */
  lemma {:induction false} WalkFieldsObjSet(fields: seq<(string, Json)>, k: string, v: Json, f: string -> string)
    ensures WalkFields(ObjSet(fields, k, v), f) == ObjSet(WalkFields(fields, f), k, Walk(v, f))
    decreases |fields|
  {
    var w := WalkFields(fields, f);
    if fields == [] {
      WalkFieldsCons((k, v), [], f);
      assert [(k, v)] + [] == [(k, v)];
    } else {
      var x, tail := fields[0], fields[1..];
      assert fields == [x] + tail;
      WalkFieldsCons(x, tail, f);
      assert w == [(x.0, Walk(x.1, f))] + WalkFields(tail, f);
      assert w[0].0 == x.0 && w[1..] == WalkFields(tail, f);
      ObjSetCons(fields, k, v);
      ObjSetCons(w, k, Walk(v, f));
      if x.0 == k {
        assert ObjSet(fields, k, v) == [(k, v)] + tail;
        WalkFieldsCons((k, v), tail, f);
      } else {
        assert ObjSet(fields, k, v) == [x] + ObjSet(tail, k, v);
        WalkFieldsCons(x, ObjSet(tail, k, v), f);
        WalkFieldsObjSet(tail, k, v, f);
      }
    }
  }

  // Step 1: expressions in every string of every node.

  /** `walkAndTransformStrings(node, transformExpressions)`. */
  function RewriteNode(n: Node, m: RenameMap): (r: Node)
    ensures Keys(r.fields) == Keys(n.fields)
  {
    Node(WalkFields(n.fields, Rewriter(m)))
  }

  /** The pinned data: keys renamed, values rewritten like the nodes. */
  function RewritePinData(p: Option<seq<(string, Json)>>, m: RenameMap): (r: Option<seq<(string, Json)>>)
    ensures r.Some? <==> p.Some?
  {
    match p
    case None => None
    case Some(entries) => Some(RenameEntries(entries, m, v => Walk(v, Rewriter(m))))
  }

  // Step 2 is `RenameEntries` with the identity on values.

  /** The identity on connection groups: they are moved, not changed. */
  function Same(g: ConnGroup): (r: ConnGroup) { g }

  // Step 3: connection targets under `main`.

  /** `if (target.node && renameMap[target.node]) target.node = renameMap[target.node]`. */
  function RenameTarget(t: Target, m: RenameMap): (r: Target)
    ensures r.kind == t.kind && r.index == t.index
    ensures r.node == (if t.node == [] then t.node else RenameName(m, t.node))
  {
    match Lookup(m, t.node)
    case Some(v) => if t.node != [] && v != [] then t.(node := v) else t
    case None => t
  }

  /** Every target of every output slot of one port. The slots keep their
      shape; a target keeps its kind and index, keeps an empty or unmapped
      node name, and takes the new name of a mapped one. */
  function RenameSlots(slots: seq<seq<Target>>, m: RenameMap): (r: seq<seq<Target>>)
    ensures |r| == |slots|
    ensures forall i :: 0 <= i < |slots| ==> |r[i]| == |slots[i]|
    ensures forall i, j :: 0 <= i < |slots| && 0 <= j < |slots[i]| ==>
      r[i][j].kind == slots[i][j].kind && r[i][j].index == slots[i][j].index
    ensures forall i, j ::
      0 <= i < |slots| && 0 <= j < |slots[i]| && (slots[i][j].node == [] || slots[i][j].node !in Keys(m))
      ==> r[i][j] == slots[i][j]
    ensures forall i, j, v ::
      0 <= i < |slots| && 0 <= j < |slots[i]| && slots[i][j].node != [] && Lookup(m, slots[i][j].node) == Some(v) && v != []
      ==> r[i][j].node == v
  {
    seq(|slots|, i requires 0 <= i < |slots| =>
      seq(|slots[i]|, j requires 0 <= j < |slots[i]| => RenameTarget(slots[i][j], m)))
  }

  /** The `main` port of a group has its targets renamed; other ports are
      kept, and every port keeps its name and its number of slots. */
  function RenameGroup(g: ConnGroup, m: RenameMap): (r: ConnGroup)
    ensures |r.ports| == |g.ports|
    ensures forall i :: 0 <= i < |g.ports| ==> r.ports[i].0 == g.ports[i].0 && |r.ports[i].1| == |g.ports[i].1|
    ensures forall i :: 0 <= i < |g.ports| && g.ports[i].0 != "main" ==> r.ports[i] == g.ports[i]
  {
    ConnGroup(seq(|g.ports|, i requires 0 <= i < |g.ports| =>
      if g.ports[i].0 == "main" then (g.ports[i].0, RenameSlots(g.ports[i].1, m)) else g.ports[i]))
  }

  /** Step 3 over every group. The keys are kept, each group keeps its
      ports, and only `main` ports can change. */
  function RenameTargets(conns: seq<(string, ConnGroup)>, m: RenameMap): (r: seq<(string, ConnGroup)>)
    ensures Keys(r) == Keys(conns)
    ensures forall i :: 0 <= i < |conns| ==> |r[i].1.ports| == |conns[i].1.ports|
    ensures forall i, p :: 0 <= i < |conns| && 0 <= p < |conns[i].1.ports| && conns[i].1.ports[p].0 != "main" ==>
      r[i].1.ports[p] == conns[i].1.ports[p]
  {
    seq(|conns|, i requires 0 <= i < |conns| => (conns[i].0, RenameGroup(conns[i].1, m)))
  }

  // Step 4: node names.

  /** `if (renameMap[node.name]) node.name = renameMap[node.name]`. */
  function RenameNode(n: Node, m: RenameMap): (r: Node)
    ensures Keys(r.fields) == Keys(n.fields)
    ensures NameOf(r) == match NameOf(n)
      case Some(s) => Some(RenameName(m, s))
      case None => None
    ensures forall i :: 0 <= i < |n.fields| && n.fields[i].0 != "name" ==> r.fields[i] == n.fields[i]
  {
    match NameOf(n)
    case Some(s) =>
      (match Lookup(m, s)
       case Some(v) =>
         if v != [] then
           LookupObjSet(n.fields, "name", JString(v));
           Node(ObjSet(n.fields, "name", JString(v)))
         else n
       case None => n)
    case None => n
  }

  /** `applyRenames(workflow, renameMap)`: the four steps in the source's order. */
  function ApplyRenames(d: Workflow, m: RenameMap): (r: Workflow)
    requires LiteralMap(m)
    ensures |r.nodes| == |d.nodes|
    ensures forall i :: 0 <= i < |d.nodes| ==> Keys(r.nodes[i].fields) == Keys(d.nodes[i].fields)
    ensures r.pinData.Some? <==> d.pinData.Some?
    ensures r.rest == d.rest
  {
    var nodes := seq(|d.nodes|, i requires 0 <= i < |d.nodes| => RewriteNode(d.nodes[i], m));
    var pinData := RewritePinData(d.pinData, m);
    var connections := RenameTargets(RenameEntries(d.connections, m, Same), m);
    var renamed := seq(|nodes|, i requires 0 <= i < |nodes| => RenameNode(nodes[i], m));
    Workflow(renamed, connections, pinData, d.rest)
  }
}
