/** What `applyRenames` guarantees about a whole document: each reference
    site is renamed, unmapped names pass through, the empty map changes
    nothing, and a second application with the same map changes nothing. */
module WorkflowProperties {
  import opened Json
  import opened Substitution
  import opened Renames
  import opened Expressions
  import opened Workflows

  /** Walking an object walks the member found under any key. */
  lemma {:induction false} LookupWalk(fields: seq<(string, Json)>, k: string, f: string -> string)
    ensures Lookup(WalkFields(fields, f), k) ==
      match Lookup(fields, k)
      case Some(x) => Some(Walk(x, f))
      case None => None
    decreases |fields|
  {
    if fields != [] {
      WalkFieldsCons(fields[0], fields[1..], f);
      assert fields == [fields[0]] + fields[1..];
      assert WalkFields(fields, f)[1..] == WalkFields(fields[1..], f);
      LookupWalk(fields[1..], k, f);
    }
  }

  /** A node keeps a name without dollar signs through the expression rewrite. */
  lemma RewriteNodeKeepsName(n: Node, m: RenameMap, name: string)
    requires NameOf(n) == Some(name) && '$' !in name
    ensures NameOf(RewriteNode(n, m)) == Some(name)
  {
    LookupWalk(n.fields, "name", Rewriter(m));
    DollarFreeUnchanged(name, m);
  }

  /** Each node of the result. Its name is the rename of its name after
      the expression rewrite, because the source rewrites every string of a
      node, `name` included, before it looks the name up. So a dollar-free
      name mapped to a non-empty name ends with that name, and an unmapped
      dollar-free name is kept. Every other member is the
      expression-rewritten member. */
  lemma ApplyRenamesNode(d: Workflow, m: RenameMap, i: nat, name: string)
    requires LiteralMap(m)
    requires i < |d.nodes|
    requires NameOf(d.nodes[i]) == Some(name)
    ensures NameOf(ApplyRenames(d, m).nodes[i]) == Some(RenameName(m, RewriteRefs(name, m)))
    ensures '$' !in name ==> forall v :: (name, v) in m && v != [] ==> NameOf(ApplyRenames(d, m).nodes[i]) == Some(v)
    ensures '$' !in name && name !in Keys(m) ==> NameOf(ApplyRenames(d, m).nodes[i]) == Some(name)
    ensures forall j :: 0 <= j < |d.nodes[i].fields| && d.nodes[i].fields[j].0 != "name" ==>
      ApplyRenames(d, m).nodes[i].fields[j] == (d.nodes[i].fields[j].0, Walk(d.nodes[i].fields[j].1, Rewriter(m)))
  {
    LookupWalk(d.nodes[i].fields, "name", Rewriter(m));
    if '$' !in name {
      RewriteNodeKeepsName(d.nodes[i], m, name);
      forall v | (name, v) in m && v != [] ensures NameOf(ApplyRenames(d, m).nodes[i]) == Some(v) {
        RenameNameMapped(m, name, v);
      }
    }
  }

  /** With a single entry, a node named by the old name ends named by the
      new one, whatever characters the old name holds: a reference to a
      name is longer than the name, so the rewrite cannot touch it. */
  lemma SingleEntryNode(d: Workflow, from: string, to: string, i: nat)
    requires to != [] && '$' !in to
    requires i < |d.nodes|
    requires NameOf(d.nodes[i]) == Some(from)
    ensures NameOf(ApplyRenames(d, [(from, to)]).nodes[i]) == Some(to)
  {
    var m := [(from, to)];
    ContainsLength(from, Ref(SingleQuote, from));
    ContainsLength(from, Ref(DoubleQuote, from));
    assert RewriteRefs(from, m) == RenameRef(from, from, to);
    ApplyRenamesNode(d, m, i, from);
  }

  /** Without key collisions the pinned data keeps one member per member, in
      order: the renamed key with the expression-rewritten value. */
  lemma ApplyRenamesPinData(d: Workflow, m: RenameMap)
    requires LiteralMap(m)
    requires d.pinData.Some? && NoCollision(d.pinData.value, m)
    ensures |ApplyRenames(d, m).pinData.value| == |d.pinData.value|
    ensures forall i :: 0 <= i < |d.pinData.value| ==>
      ApplyRenames(d, m).pinData.value[i] ==
        (RenameName(m, d.pinData.value[i].0), Walk(d.pinData.value[i].1, Rewriter(m)))
  {
    RenameEntriesPointwise(d.pinData.value, m, v => Walk(v, Rewriter(m)));
  }

  /** Without key collisions the connection groups keep their order; each
      is filed under its renamed key and has its `main` targets renamed. */
  lemma ApplyRenamesConnections(d: Workflow, m: RenameMap)
    requires LiteralMap(m)
    requires NoCollision(d.connections, m)
    ensures |ApplyRenames(d, m).connections| == |d.connections|
    ensures forall i :: 0 <= i < |d.connections| ==>
      ApplyRenames(d, m).connections[i] ==
        (RenameName(m, d.connections[i].0), RenameGroup(d.connections[i].1, m))
  {
    RenameEntriesPointwise(d.connections, m, Same);
    var e := RenameEntries(d.connections, m, Same);
    var c := ApplyRenames(d, m).connections;
    forall i | 0 <= i < |d.connections|
      ensures c[i] == (RenameName(m, d.connections[i].0), RenameGroup(d.connections[i].1, m))
    {
      assert Keys(c)[i] == Keys(e)[i];
    }
  }

  /** A target whose node is mapped to a non-empty name is renamed to it; a
      target whose node is not mapped is left as it was. */
  lemma RenameTargetMapped(t: Target, m: RenameMap)
    requires DistinctKeys(m)
    ensures forall v :: (t.node, v) in m && v != [] && t.node != [] ==> RenameTarget(t, m).node == v
    ensures t.node !in Keys(m) ==> RenameTarget(t, m) == t
  {
    forall v | (t.node, v) in m && v != [] && t.node != [] ensures RenameTarget(t, m).node == v {
      RenameNameMapped(m, t.node, v);
    }
  }

  /** Slots whose every target the rename fixes are left as they were. */
  lemma RenameSlotsFixed(slots: seq<seq<Target>>, m: RenameMap)
    requires forall a, b :: 0 <= a < |slots| && 0 <= b < |slots[a]| ==> RenameTarget(slots[a][b], m) == slots[a][b]
    ensures RenameSlots(slots, m) == slots
  {
    var r := RenameSlots(slots, m);
    forall a | 0 <= a < |slots| ensures r[a] == slots[a] {
      assert |r[a]| == |slots[a]|;
    }
  }

  /** With an empty map the expression rewrite fixes every value. */
  lemma EmptyMapRewriteFixes(x: Json)
    ensures Walk(x, Rewriter([])) == x
  {
    var f := Rewriter([]);
    assert forall s :: f(s) == s;
    WalkFixes(x, f);
  }

  /** With an empty map both node steps give the node back. */
  lemma EmptyMapNodeFixed(n: Node)
    ensures RenameNode(RewriteNode(n, []), []) == n
  {
    var fs := n.fields;
    forall j | 0 <= j < |fs| ensures WalkFields(fs, Rewriter([]))[j] == fs[j] {
      EmptyMapRewriteFixes(fs[j].1);
    }
  }

  /** With an empty map both connection steps give the graph back. */
  lemma EmptyMapConnectionsFixed(c: seq<(string, ConnGroup)>)
    requires DistinctKeys(c)
    ensures RenameTargets(RenameEntries(c, [], Same), []) == c
  {
    forall g: ConnGroup ensures RenameGroup(g, []) == g {
      forall p | 0 <= p < |g.ports| ensures RenameGroup(g, []).ports[p] == g.ports[p] {
        RenameSlotsFixed(g.ports[p].1, []);
      }
    }
    RenameEntriesEmptyMap(c, Same);
  }

  /** With an empty map the document comes back unchanged. */
  lemma ApplyRenamesEmptyMap(d: Workflow)
    requires WellFormed(d)
    ensures ApplyRenames(d, []) == d
  {
    var r := ApplyRenames(d, []);
    forall i | 0 <= i < |d.nodes| ensures r.nodes[i] == d.nodes[i] {
      EmptyMapNodeFixed(d.nodes[i]);
    }
    EmptyMapConnectionsFixed(d.connections);
    if d.pinData.Some? {
      forall x ensures Walk(x, Rewriter([])) == x {
        EmptyMapRewriteFixes(x);
      }
      RenameEntriesEmptyMap(d.pinData.value, v => Walk(v, Rewriter([])));
    }
  }

  lemma RenameTargetIdempotent(t: Target, m: RenameMap)
    requires ValuesAreNotKeys(m)
    ensures RenameTarget(RenameTarget(t, m), m) == RenameTarget(t, m)
  {
    RenameNameIdempotent(m, t.node);
  }

  lemma RenameGroupIdempotent(g: ConnGroup, m: RenameMap)
    requires ValuesAreNotKeys(m)
    ensures RenameGroup(RenameGroup(g, m), m) == RenameGroup(g, m)
  {
    var g1 := RenameGroup(g, m);
    forall p | 0 <= p < |g.ports| ensures RenameGroup(g1, m).ports[p] == g1.ports[p] {
      if g.ports[p].0 == "main" {
        var s1 := g1.ports[p].1;
        forall a, b | 0 <= a < |s1| && 0 <= b < |s1[a]| ensures RenameTarget(s1[a][b], m) == s1[a][b] {
          RenameTargetIdempotent(g.ports[p].1[a][b], m);
        }
        RenameSlotsFixed(s1, m);
      }
    }
  }

  lemma RenameNodeIdempotent(n: Node, m: RenameMap)
    requires ValuesAreNotKeys(m)
    ensures RenameNode(RenameNode(n, m), m) == RenameNode(n, m)
  {
    match NameOf(n)
    case Some(s) =>
      RenameNameIdempotent(m, s);
      if RenameName(m, s) != s {
        assert Lookup(m, RenameName(m, s)).None?;
      }
    case None =>
  }

  /** The expression rewrite of a plain map is idempotent on any value. */
  lemma RewriterIdempotent(m: RenameMap)
    requires PlainMap(m)
    ensures forall s :: Rewriter(m)(Rewriter(m)(s)) == Rewriter(m)(s)
    ensures forall x :: Walk(Walk(x, Rewriter(m)), Rewriter(m)) == Walk(x, Rewriter(m))
  {
    forall s ensures Rewriter(m)(Rewriter(m)(s)) == Rewriter(m)(s) {
      RewriteRefsIdempotent(s, m);
    }
    forall x ensures Walk(Walk(x, Rewriter(m)), Rewriter(m)) == Walk(x, Rewriter(m)) {
      WalkIdempotent(x, Rewriter(m));
    }
  }

  /** A node that went through both node steps is left alone by both. */
  lemma NodeStepsIdempotent(n: Node, m: RenameMap)
    requires PlainMap(m)
    ensures RenameNode(RewriteNode(RenameNode(RewriteNode(n, m), m), m), m) == RenameNode(RewriteNode(n, m), m)
  {
    var f := Rewriter(m);
    var n1 := RewriteNode(n, m);
    var n2 := RenameNode(n1, m);
    RewriterIdempotent(m);
    assert WalkFields(n1.fields, f) == n1.fields;
    if n2 != n1 {
      var s := NameOf(n1).value;
      var v := Lookup(m, s).value;
      assert n2.fields == ObjSet(n1.fields, "name", JString(v));
      var i :| 0 <= i < |m| && m[i] == (s, v);
      DollarFreeUnchanged(v, m);
      WalkFieldsObjSet(n1.fields, "name", JString(v), f);
    }
    assert RewriteNode(n2, m) == n2;
    RenameNodeIdempotent(n1, m);
  }

  /** The connection steps (key renaming, then target renaming) are
      idempotent for a map whose new names are never old names. */
  lemma ConnectionStepsIdempotent(conns: seq<(string, ConnGroup)>, m: RenameMap)
    requires ValuesAreNotKeys(m)
    ensures
      var once := RenameTargets(RenameEntries(conns, m, Same), m);
      RenameTargets(RenameEntries(once, m, Same), m) == once
  {
    var e := RenameEntries(conns, m, Same);
    var once := RenameTargets(e, m);
    RenameEntriesKeysFixed(conns, m, Same);
    RenameEntriesFixed(once, m, Same);
    forall i | 0 <= i < |e| ensures RenameTargets(once, m)[i] == once[i] {
      RenameGroupIdempotent(e[i].1, m);
      assert Keys(once)[i] == Keys(e)[i];
    }
  }

  /** The pinned-data step is idempotent for a plain map. */
  lemma PinDataStepIdempotent(p: Option<seq<(string, Json)>>, m: RenameMap)
    requires PlainMap(m)
    ensures RewritePinData(RewritePinData(p, m), m) == RewritePinData(p, m)
  {
    if p.Some? {
      RewriterIdempotent(m);
      RenameEntriesIdempotent(p.value, m, v => Walk(v, Rewriter(m)));
    }
  }

  /** Applying the same plain map twice is applying it once: after the first
      pass no old name is left anywhere for the second pass to find. */
  lemma ApplyRenamesIdempotent(d: Workflow, m: RenameMap)
    requires PlainMap(m)
    ensures ApplyRenames(ApplyRenames(d, m), m) == ApplyRenames(d, m)
  {
    var r := ApplyRenames(d, m);
    var r2 := ApplyRenames(r, m);
    forall i | 0 <= i < |d.nodes| ensures r2.nodes[i] == r.nodes[i] {
      NodeStepsIdempotent(d.nodes[i], m);
    }
    PinDataStepIdempotent(d.pinData, m);
    ConnectionStepsIdempotent(d.connections, m);
  }
}
