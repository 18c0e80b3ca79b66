/** What the model gives on small concrete documents, and the input that
    shows why the "no old reference remains" guarantee needs plain names. */
module Scenarios {
  import opened Json
  import opened Substitution
  import opened Renames
  import opened Expressions
  import opened Workflows
  import opened WorkflowProperties
  import opened Completeness

  /** The expression of the first scenario, before and after, split
      around its one reference. */
  lemma ExpressionParts()
    ensures "={{ $('If').item.json.x }}" == "={{ " + Ref(SingleQuote, "If") + ".item.json.x }}"
    ensures "={{ " + Ref(SingleQuote, "Checked") + ".item.json.x }}" == "={{ $('Checked').item.json.x }}"
  {
  }

  /** A reference in an expression is renamed in place. */
  lemma ExpressionRenamed()
    ensures RewriteRefs("={{ $('If').item.json.x }}", [("If", "Checked")]) == "={{ $('Checked').item.json.x }}"
  {
    ExpressionParts();
    RenameRefInContext("={{ ", SingleQuote, "If", ".item.json.x }}", "If", "Checked");
  }

  /** A reference to a node whose name merely starts with the old name is kept. */
  lemma LongerNameKept()
    ensures RewriteRefs("={{ $('If5').item.json }}", [("If", "Checked")]) == "={{ $('If5').item.json }}"
  {
    var head, tail := "={{ ", ".item.json }}";
    assert "={{ $('If5').item.json }}" == head + Ref(SingleQuote, "If5") + tail;
    RenameRefInContext(head, SingleQuote, "If5", tail, "If", "Checked");
  }

  /** An old name that holds a quote can be rebuilt by its own replacement:
      renaming `A')B` to `A` leaves a reference to `A')B` behind. */
  lemma QuotedNameSurvives()
    ensures HasRef(RenameRef("$('A')B')B')", "A')B", "A"), "A')B")
  {
    var p1, r1 := Ref(SingleQuote, "A')B"), Ref(SingleQuote, "A");
    var p2, r2 := Ref(DoubleQuote, "A')B"), Ref(DoubleQuote, "A");
    var tail := "B')";
    assert "$('A')B')B')" == p1 + tail;
    assert p1[..|p1|] == p1;
    assert (p1 + tail)[|p1|..] == tail;
    ReplaceSkipsDollarFree(tail, [], p1, r1);
    assert tail + [] == tail;
    assert ReplaceAll(p1 + tail, p1, r1) == r1 + tail;
    var once := r1 + tail;
    assert once == p1;
    assert !IsPrefix(p2, once) by { assert once[2] != p2[2]; }
    ReplaceSkipsDollarFree(once[1..], [], p2, r2);
    assert once[1..] + [] == once[1..];
    assert once == [once[0]] + once[1..];
    assert ReplaceAll(once, p2, r2) == once;
    assert IsPrefix(p1, once);
  }

  /** An edge `If -> Loop` with both ends renamed: the group moves to the
      new key and its target names the new node. */
  lemma EdgeRenamed()
    ensures
      var m := [("If", "Checked"), ("Loop", "Batch")];
      var conns := [("If", ConnGroup([("main", [[Target("Loop", "main", 0)]])]))];
      RenameTargets(RenameEntries(conns, m, Same), m) ==
        [("Checked", ConnGroup([("main", [[Target("Batch", "main", 0)]])]))]
  {
    var m := [("If", "Checked"), ("Loop", "Batch")];
    var g := ConnGroup([("main", [[Target("Loop", "main", 0)]])]);
    assert RenameName(m, "If") == "Checked";
    assert RenameEntries([("If", g)], m, Same) == [("Checked", g)];
    var t := RenameTarget(Target("Loop", "main", 0), m);
    assert t == Target("Batch", "main", 0);
    var slots := RenameSlots(g.ports[0].1, m);
    assert |slots| == 1 && |slots[0]| == 1 && slots[0][0] == t;
    assert slots[0] == [t];
    assert slots == [[t]];
    var g' := RenameGroup(g, m);
    assert |g'.ports| == 1 && g'.ports[0] == ("main", slots);
    assert g' == ConnGroup([("main", [[t]])]);
    var r := RenameTargets([("Checked", g)], m);
    assert |r| == 1 && r[0] == ("Checked", g');
  }

  /** Entries are applied one after the other, so a chain `A -> B, B -> C`
      carries an expression reference to `A` on to `C`, while the node
      named `A` is renamed once, to `B`: the map must not chain. */
  lemma ChainedEntriesCompose()
    ensures RewriteRefs("$('A')", [("A", "B"), ("B", "C")]) == "$('C')"
    ensures RenameName([("A", "B"), ("B", "C")], "A") == "B"
  {
    assert "$('A')" == [] + Ref(SingleQuote, "A") + [];
    assert [] + Ref(SingleQuote, "B") + [] == Ref(SingleQuote, "B");
    assert [] + Ref(SingleQuote, "C") + [] == "$('C')";
    RenameRefInContext([], SingleQuote, "A", [], "A", "B");
    RenameRefInContext([], SingleQuote, "B", [], "B", "C");
  }

  /** A node name is itself a string of the node, so it is rewritten as an
      expression before it is looked up: with `A -> C` and `$('A') -> B`,
      the node named `$('A')` ends named `$('C')`, not `B`. */
  lemma NameRewrittenBeforeLookup()
    ensures
      var m := [("A", "C"), ("$('A')", "B")];
      var d := Workflow([Node([("name", JString("$('A')"))])], [], None, []);
      LiteralMap(m) && NameOf(ApplyRenames(d, m).nodes[0]) == Some("$('C')")
  {
    var m := [("A", "C"), ("$('A')", "B")];
    var d := Workflow([Node([("name", JString("$('A')"))])], [], None, []);
    assert "$('A')" == [] + Ref(SingleQuote, "A") + [];
    assert [] + Ref(SingleQuote, "C") + [] == "$('C')";
    RenameRefInContext([], SingleQuote, "A", [], "A", "C");
    var once := "$('C')";
    assert |once| < |Ref(SingleQuote, "$('A')")| && |once| < |Ref(DoubleQuote, "$('A')")|;
    assert RenameRef(once, "$('A')", "B") == once;
    assert RewriteRefs("$('A')", m) == once;
    assert Lookup(m, once) == None;
    assert NameOf(d.nodes[0]) == Some("$('A')");
    ApplyRenamesNode(d, m, 0, "$('A')");
  }

  /** The first scenario on a whole node: the node named `If` ends named
      `Checked`, and its expression now refers to `Checked`. */
  lemma NodeRenamed()
    ensures
      var m := [("If", "Checked")];
      var d := Workflow([Node([("name", JString("If")), ("value", JString("={{ $('If').item.json.x }}"))])], [], None, []);
      var n := ApplyRenames(d, m).nodes[0];
      NameOf(n) == Some("Checked") && n.fields[1] == ("value", JString("={{ $('Checked').item.json.x }}"))
  {
    var m := [("If", "Checked")];
    var d := Workflow([Node([("name", JString("If")), ("value", JString("={{ $('If').item.json.x }}"))])], [], None, []);
    assert NameOf(d.nodes[0]) == Some("If");
    SingleEntryNode(d, "If", "Checked", 0);
    ApplyRenamesNode(d, m, 0, "If");
    ExpressionRenamed();
    assert Walk(JString("={{ $('If').item.json.x }}"), Rewriter(m)) == JString("={{ $('Checked').item.json.x }}");
  }

  /** The map `If -> Checked` meets the conditions of the removal property. */
  lemma IfMapPlain()
    ensures PlainMap([("If", "Checked")]) && NonEmptyValues([("If", "Checked")])
  {
    assert Keys([("If", "Checked")]) == ["If"];
  }

  /** Only `main` targets are renamed: a target under another port keeps
      an old name, and the renamed places are still free of old names. */
  lemma OtherPortKept()
    ensures
      var m := [("If", "Checked")];
      var g := ConnGroup([("ai_tool", [[Target("If", "ai_tool", 0)]])]);
      var d := Workflow([], [("Agent", g)], None, []);
      ApplyRenames(d, m).connections == [("Agent", g)] && RenamedSitesFree(ApplyRenames(d, m), m)
  {
    var m := [("If", "Checked")];
    var g := ConnGroup([("ai_tool", [[Target("If", "ai_tool", 0)]])]);
    var d := Workflow([], [("Agent", g)], None, []);
    IfMapPlain();
    ApplyRenamesRemovesOldNames(d, m);
    assert RenameGroup(g, m) == g;
    assert RenameEntries([("Agent", g)], m, Same) == [("Agent", g)];
  }
}
