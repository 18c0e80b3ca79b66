/** After `applyRenames` with a plain map whose new names are non-empty,
    none of the places the function rewrites still holds an old name: not
    a node's `name`, not a key of the pinned data or of the connection
    graph, not a `main` target, and no string of a node or of the pinned
    data refers to one in the `$('...')` or `$("...")` form. Places the
    function does not visit are outside this guarantee: targets under
    other ports, the other top-level members, and references written in
    another syntax. */
module Completeness {
  import opened Json
  import opened Renames
  import opened Expressions
  import opened Workflows
  import opened WorkflowProperties

  /** The node's name, if it is a string, is not an old name, and none of
      its strings refers to an old name. */
  predicate NodeFree(n: Node, m: RenameMap) {
    && (NameOf(n).Some? ==> NameOf(n).value !in Keys(m))
    && AllStrings(JObject(n.fields), OldRefFree(m))
  }

  /** No key of the pinned data is an old name, and none of its strings
      refers to one. */
  predicate PinFree(p: Option<seq<(string, Json)>>, m: RenameMap) {
    p.Some? ==> forall i :: 0 <= i < |p.value| ==>
      p.value[i].0 !in Keys(m) && AllStrings(p.value[i].1, OldRefFree(m))
  }

  /** No target under the `main` port names an old name. Targets with an
      empty node name are left out: the source skips them. */
  predicate GroupFree(g: ConnGroup, m: RenameMap) {
    forall p, a, b ::
      0 <= p < |g.ports| && g.ports[p].0 == "main" &&
      0 <= a < |g.ports[p].1| && 0 <= b < |g.ports[p].1[a]| &&
      g.ports[p].1[a][b].node != [] ==>
        g.ports[p].1[a][b].node !in Keys(m)
  }

  /** No key of the connection graph and no `main` target is an old name. */
  predicate ConnectionsFree(c: seq<(string, ConnGroup)>, m: RenameMap) {
    forall i :: 0 <= i < |c| ==> c[i].0 !in Keys(m) && GroupFree(c[i].1, m)
  }

  /** No place that `applyRenames` rewrites mentions an old name. */
  predicate RenamedSitesFree(d: Workflow, m: RenameMap) {
    && (forall i :: 0 <= i < |d.nodes| ==> NodeFree(d.nodes[i], m))
    && PinFree(d.pinData, m)
    && ConnectionsFree(d.connections, m)
  }

  /** Both node steps leave no old name in a node. */
  lemma NodeStepsRemove(n: Node, m: RenameMap)
    requires PlainMap(m) && NonEmptyValues(m)
    ensures NodeFree(RenameNode(RewriteNode(n, m), m), m)
  {
    var f, P := Rewriter(m), OldRefFree(m);
    var n1 := RewriteNode(n, m);
    var n2 := RenameNode(n1, m);
    RewriteOutputsFree(m);
    WalkAllStrings(JObject(n.fields), f, P);
    assert Walk(JObject(n.fields), f) == JObject(n1.fields);
    assert forall i :: 0 <= i < |n1.fields| ==> AllStrings(n1.fields[i].1, P);
    if n2 != n1 {
      var s := NameOf(n1).value;
      var v := Lookup(m, s).value;
      assert n2.fields == ObjSet(n1.fields, "name", JString(v));
      var b :| 0 <= b < |m| && m[b] == (s, v);
      assert P(v);
      forall i | 0 <= i < |n2.fields| ensures AllStrings(n2.fields[i].1, P) {
        if n2.fields[i] != ("name", JString(v)) {
          assert n2.fields[i] == n1.fields[i];
        }
      }
    }
    if NameOf(n1).Some? {
      RenameNameAvoidsKeys(m, NameOf(n1).value);
    }
  }

  /** Every key made by the renaming loop is a renamed key, hence not an
      old name. */
  lemma RenamedKeysAvoidOldNames<V>(entries: seq<(string, V)>, m: RenameMap, g: V -> V)
    requires ValuesAreNotKeys(m) && NonEmptyValues(m)
    ensures forall i :: 0 <= i < |RenameEntries(entries, m, g)| ==>
      RenameEntries(entries, m, g)[i].0 !in Keys(m)
  {
    var r := RenameEntries(entries, m, g);
    forall i | 0 <= i < |r| ensures r[i].0 !in Keys(m) {
      assert r[i].0 in Keys(r) by { assert Keys(r)[i] == r[i].0; }
      var j :| 0 <= j < |entries| && RenameName(m, entries[j].0) == r[i].0;
      RenameNameAvoidsKeys(m, entries[j].0);
    }
  }

  /** The pinned-data step leaves no old name in the pinned data. */
  lemma PinDataStepRemoves(p: Option<seq<(string, Json)>>, m: RenameMap)
    requires PlainMap(m) && NonEmptyValues(m)
    ensures PinFree(RewritePinData(p, m), m)
  {
    if p.Some? {
      var f, P := Rewriter(m), OldRefFree(m);
      var g := v => Walk(v, f);
      var r := RenameEntries(p.value, m, g);
      RewriterIdempotent(m);
      RewriteOutputsFree(m);
      RenameEntriesValues(p.value, m, g);
      RenamedKeysAvoidOldNames(p.value, m, g);
      forall i | 0 <= i < |r| ensures AllStrings(r[i].1, P) {
        WalkAllStrings(r[i].1, f, P);
      }
    }
  }

  /** Renaming the targets of a group leaves no old name among its `main`
      targets. */
  lemma RenameGroupRemoves(g: ConnGroup, m: RenameMap)
    requires ValuesAreNotKeys(m) && NonEmptyValues(m)
    ensures GroupFree(RenameGroup(g, m), m)
  {
    var r := RenameGroup(g, m);
    forall p, a, b |
      0 <= p < |r.ports| && r.ports[p].0 == "main" &&
      0 <= a < |r.ports[p].1| && 0 <= b < |r.ports[p].1[a]| &&
      r.ports[p].1[a][b].node != []
      ensures r.ports[p].1[a][b].node !in Keys(m)
    {
      var t := g.ports[p].1[a][b];
      assert r.ports[p].1[a][b] == RenameTarget(t, m);
      RenameNameAvoidsKeys(m, t.node);
    }
  }

  /** The two connection steps leave no old name in the graph. */
  lemma ConnectionStepsRemove(c: seq<(string, ConnGroup)>, m: RenameMap)
    requires ValuesAreNotKeys(m) && NonEmptyValues(m)
    ensures ConnectionsFree(RenameTargets(RenameEntries(c, m, Same), m), m)
  {
    var e := RenameEntries(c, m, Same);
    var r := RenameTargets(e, m);
    RenamedKeysAvoidOldNames(c, m, Same);
    forall i | 0 <= i < |r| ensures r[i].0 !in Keys(m) && GroupFree(r[i].1, m) {
      assert Keys(r)[i] == Keys(e)[i];
      RenameGroupRemoves(e[i].1, m);
    }
  }

  /** After one pass of a plain map with non-empty new names, no rewritten
      place mentions an old name: every node name, every pinned-data key,
      every connection key and every `main` target has been renamed, and
      every `$('...')` or `$("...")` reference in the nodes and the pinned
      data has been rewritten. */
  lemma ApplyRenamesRemovesOldNames(d: Workflow, m: RenameMap)
    requires PlainMap(m) && NonEmptyValues(m)
    ensures RenamedSitesFree(ApplyRenames(d, m), m)
  {
    var r := ApplyRenames(d, m);
    forall i | 0 <= i < |r.nodes| ensures NodeFree(r.nodes[i], m) {
      NodeStepsRemove(d.nodes[i], m);
    }
    PinDataStepRemoves(d.pinData, m);
    ConnectionStepsRemove(d.connections, m);
  }
}
