/** The rewrite of node references inside expression strings:
    `transformExpressions` inside `applyRenames` (fix_workflows.js). A
    reference to node `n` is the text `$('n')` or `$("n")`. */
module Expressions {
  import opened Json
  import opened Substitution
  import opened Renames

  const SingleQuote: char := '\''
  const DoubleQuote: char := '"'

  /** The characters that have a meaning of their own in a JavaScript
      regular expression outside a character class, and that the source
      escapes with a backslash before building its pattern. */
  predicate IsSyntaxChar(c: char) {
    c in ".*+?^${}()|[]\\"
  }

  /** `oldName.replace(/[.*+?^${}()|[\]\\]/g, '\\$&')`: a backslash before
      every syntax character. */
  function EscapeRegex(s: string): (r: string)
    ensures |s| <= |r| <= 2 * |s|
  {
    if s == [] then []
    else (if IsSyntaxChar(s[0]) then ['\\', s[0]] else [s[0]]) + EscapeRegex(s[1..])
  }

  /** The one string a regular-expression source made only of plain
      characters and escaped syntax characters matches, or None when the
      source holds anything with a meaning of its own. */
  function RegexLiteral(r: string): (t: Option<string>)
    decreases |r|
  {
    if r == [] then Some([])
    else if r[0] == '\\' then
      if |r| >= 2 && IsSyntaxChar(r[1]) then
        match RegexLiteral(r[2..])
        case Some(t) => Some([r[1]] + t)
        case None => None
      else None
    else if IsSyntaxChar(r[0]) then None
    else
      match RegexLiteral(r[1..])
      case Some(t) => Some([r[0]] + t)
      case None => None
  }

  /** Escaping distributes over concatenation. */
  lemma {:induction false} EscapeConcat(a: string, b: string)
    ensures EscapeRegex(a + b) == EscapeRegex(a) + EscapeRegex(b)
    decreases |a|
  {
    if a != [] {
      assert (a + b)[1..] == a[1..] + b;
      EscapeConcat(a[1..], b);
    } else {
      assert a + b == b;
    }
  }

  lemma EscapeSingle(c: char)
    ensures EscapeRegex([c]) == if IsSyntaxChar(c) then ['\\', c] else [c]
  {
    assert [c][1..] == [];
  }

  /** Escaping makes any name match literally: the escaped source reads as
      exactly the name. */
  lemma {:induction false} EscapeIsLiteral(s: string)
    ensures RegexLiteral(EscapeRegex(s)) == Some(s)
    decreases |s|
  {
    if s != [] {
      var c := s[0];
      var x := EscapeRegex(s[1..]);
      var r := EscapeRegex(s);
      EscapeIsLiteral(s[1..]);
      if IsSyntaxChar(c) {
        assert r == ['\\', c] + x;
        assert r[0] == '\\' && r[1] == c && r[2..] == x;
      } else {
        assert r == [c] + x;
        assert r[0] == c && c != '\\' && r[1..] == x;
      }
      assert [c] + s[1..] == s;
    }
  }

  /** A reference to node `name` with quote character `q`. */
  function Ref(q: char, name: string): (r: string)
    ensures |r| == |name| + 5 && r[0] == '$'
  {
    "$(" + [q] + name + [q] + ")"
  }

  /** The regular-expression source built for `$('from')` (`q` a single
      quote) or `$("from")` (`q` a double quote). */
  function PatternSource(q: char, from: string): (r: string) {
    "\\$\\(" + [q] + EscapeRegex(from) + [q] + "\\)"
  }

  /** The fixed parts of the pattern are the escaped fixed parts of a
      reference. */
  lemma EscapeRefEnds(q: char)
    requires q == SingleQuote || q == DoubleQuote
    ensures EscapeRegex("$(" + [q]) == "\\$\\(" + [q]
    ensures EscapeRegex([q] + ")") == [q] + "\\)"
  {
    EscapeSingle('$'); EscapeSingle('('); EscapeSingle(q); EscapeSingle(')');
    assert "$(" + [q] == ['$'] + (['('] + [q]);
    EscapeConcat(['('], [q]);
    EscapeConcat(['$'], ['('] + [q]);
    assert [q] + ")" == [q] + [')'];
    EscapeConcat([q], [')']);
  }

  /** The pattern source is the escaped reference text. */
  lemma PatternIsEscapedRef(q: char, from: string)
    requires q == SingleQuote || q == DoubleQuote
    ensures PatternSource(q, from) == EscapeRegex(Ref(q, from))
  {
    EscapeRefEnds(q);
    var head, tail := "$(" + [q], [q] + ")";
    assert Ref(q, from) == (head + from) + tail;
    EscapeConcat(head, from);
    EscapeConcat(head + from, tail);
    assert PatternSource(q, from) == EscapeRegex(head) + EscapeRegex(from) + EscapeRegex(tail);
  }

  /** The pattern built from an escaped name matches exactly the reference
      text, whatever characters the name holds. */
  lemma PatternMatchesReference(q: char, from: string)
    requires q == SingleQuote || q == DoubleQuote
    ensures RegexLiteral(PatternSource(q, from)) == Some(Ref(q, from))
  {
    PatternIsEscapedRef(q, from);
    EscapeIsLiteral(Ref(q, from));
  }

  /** Names free of dollar signs and quote characters: the names whose
      references cannot overlap each other's. */
  predicate PlainName(n: string) {
    '$' !in n && SingleQuote !in n && DoubleQuote !in n
  }

  /** Every name in the map is plain, and no new name is also an old one. */
  predicate PlainMap(m: RenameMap) {
    && DistinctKeys(m)
    && (forall i :: 0 <= i < |m| ==> PlainName(m[i].0) && PlainName(m[i].1))
    && ValuesAreNotKeys(m)
  }

  /** Replaces `$('from')` by `$('to')`, then `$("from")` by `$("to")`. */
  function RenameRef(s: string, from: string, to: string): (r: string)
    ensures !HasRef(s, from) ==> r == s
  {
    var once := ReplaceAll(s, Ref(SingleQuote, from), Ref(SingleQuote, to));
    ReplaceAll(once, Ref(DoubleQuote, from), Ref(DoubleQuote, to))
  }

  /** `transformExpressions`: every entry of the map applied in turn, in
      the map's order. */
  function RewriteRefs(s: string, m: RenameMap): (r: string)
    decreases |m|
  {
    if m == [] then s
    else RewriteRefs(RenameRef(s, m[0].0, m[0].1), m[1..])
  }

  /** `transformExpressions` as the transform handed to the walk. */
  function Rewriter(m: RenameMap): (f: string -> string) {
    s => RewriteRefs(s, m)
  }

  /** `s` holds a reference to node `n`, in either quoting. */
  predicate HasRef(s: string, n: string) {
    Contains(s, Ref(SingleQuote, n)) || Contains(s, Ref(DoubleQuote, n))
  }

  lemma RefDollarLed(q: char, n: string)
    requires q == SingleQuote || q == DoubleQuote
    requires '$' !in n
    ensures DollarLed(Ref(q, n))
  {
    assert Ref(q, n)[1..] == "(" + [q] + n + [q] + ")";
  }

  /** The characters of a reference at the places the proofs look at. */
  lemma RefShape(q: char, n: string, i: nat)
    ensures |Ref(q, n)| == |n| + 5
    ensures Ref(q, n)[2] == q && Ref(q, n)[3 + |n|] == q
    ensures i < |n| ==> Ref(q, n)[3 + i] == n[i]
  {
  }

  /** A prefix agrees with the whole string at each of its positions. */
  lemma PrefixAt(x: string, y: string, i: nat)
    ensures IsPrefix(x, y) && i < |x| ==> y[i] == x[i]
  {
    if IsPrefix(x, y) && i < |x| {
      assert y[..|x|][i] == y[i];
    }
  }

  /** A reference to a plain name cannot be a prefix of a different
      reference: the closing quote ends the name. */
  lemma RefPrefix(q1: char, a: string, q2: char, b: string)
    requires q1 == SingleQuote || q1 == DoubleQuote
    requires q2 == SingleQuote || q2 == DoubleQuote
    requires PlainName(a) && PlainName(b)
    requires IsPrefix(Ref(q1, a), Ref(q2, b))
    ensures q1 == q2 && a == b
  {
    var ra, rb := Ref(q1, a), Ref(q2, b);
    RefShape(q1, a, 0);
    RefShape(q2, b, |a|);
    PrefixAt(ra, rb, 2);
    PrefixAt(ra, rb, 3 + |a|);
    forall i | 0 <= i < |a| ensures a[i] == b[i] {
      RefShape(q1, a, i);
      RefShape(q2, b, i);
      PrefixAt(ra, rb, 3 + i);
    }
  }

  /** References to two different plain names, or in two different
      quotings, can never start at the same place. */
  lemma RefsIncompatible(q1: char, a: string, q2: char, b: string)
    requires q1 == SingleQuote || q1 == DoubleQuote
    requires q2 == SingleQuote || q2 == DoubleQuote
    requires PlainName(a) && PlainName(b)
    requires q1 != q2 || a != b
    ensures !Compatible(Ref(q1, a), Ref(q2, b))
  {
    if IsPrefix(Ref(q1, a), Ref(q2, b)) {
      RefPrefix(q1, a, q2, b);
    }
    if IsPrefix(Ref(q2, b), Ref(q1, a)) {
      RefPrefix(q2, b, q1, a);
    }
  }

  /** A reference to a plain name starts a text only where that very
      reference stands: whatever follows the closing quote does not matter. */
  lemma RefAt(q1: char, a: string, q2: char, b: string, tail: string)
    requires q1 == SingleQuote || q1 == DoubleQuote
    requires q2 == SingleQuote || q2 == DoubleQuote
    requires PlainName(a) && PlainName(b)
    ensures IsPrefix(Ref(q1, a), Ref(q2, b) + tail) ==> q1 == q2 && a == b
  {
    var ra, rb := Ref(q1, a), Ref(q2, b);
    var x := rb + tail;
    if IsPrefix(ra, x) {
      RefShape(q1, a, 0);
      RefShape(q2, b, 0);
      if |a| <= |b| {
        assert x[..|ra|] == rb[..|ra|];
        RefPrefix(q1, a, q2, b);
      } else {
        assert ra[..|rb|] == x[..|ra|][..|rb|] == rb;
        RefPrefix(q2, b, q1, a);
      }
    }
  }

  /** Replacing one reference in a text that starts with a reference and
      has no other dollar sign: the leading reference is replaced exactly
      when it is the one sought, and the rest is copied. */
  lemma RefReplaceStep(q: char, n: string, tail: string, q': char, from: string, rep: string)
    requires q == SingleQuote || q == DoubleQuote
    requires q' == SingleQuote || q' == DoubleQuote
    requires PlainName(n) && PlainName(from) && '$' !in tail
    ensures ReplaceAll(Ref(q, n) + tail, Ref(q', from), rep) ==
      (if q == q' && n == from then rep else Ref(q, n)) + tail
  {
    var x, p := Ref(q, n) + tail, Ref(q', from);
    RefAt(q', from, q, n, tail);
    RefDollarLed(q, n);
    RefDollarLed(q', from);
    if q == q' && n == from {
      assert x[|p|..] == tail;
      ReplaceSkipsDollarFree(tail, [], p, rep);
      assert tail + [] == tail;
    } else {
      assert x[1..] == Ref(q, n)[1..] + tail;
      ReplaceSkipsDollarFree(x[1..], [], p, rep);
      assert x[1..] + [] == x[1..];
      if |x| < |p| {
      } else {
        assert x == [x[0]] + x[1..];
      }
    }
  }

  /** One entry on an expression holding a single reference between
      dollar-free text: the reference is renamed exactly when it names the
      old name, and everything around it is kept. */
  lemma RenameRefInContext(head: string, q: char, n: string, tail: string, from: string, to: string)
    requires q == SingleQuote || q == DoubleQuote
    requires '$' !in head && '$' !in tail
    requires PlainName(n) && PlainName(from) && PlainName(to)
    ensures RenameRef(head + Ref(q, n) + tail, from, to) ==
      head + Ref(q, if n == from then to else n) + tail
  {
    var n1 := if q == SingleQuote && n == from then to else n;
    var p1, r1 := Ref(SingleQuote, from), Ref(SingleQuote, to);
    var p2, r2 := Ref(DoubleQuote, from), Ref(DoubleQuote, to);
    RefDollarLed(SingleQuote, from);
    RefDollarLed(DoubleQuote, from);
    assert head + Ref(q, n) + tail == head + (Ref(q, n) + tail);
    ReplaceSkipsDollarFree(head, Ref(q, n) + tail, p1, r1);
    RefReplaceStep(q, n, tail, SingleQuote, from, r1);
    assert ReplaceAll(head + Ref(q, n) + tail, p1, r1) == head + (Ref(q, n1) + tail);
    ReplaceSkipsDollarFree(head, Ref(q, n1) + tail, p2, r2);
    RefReplaceStep(q, n1, tail, DoubleQuote, from, r2);
  }

  /** One entry removes every reference to its old name. */
  lemma RenameRefRemoves(s: string, from: string, to: string)
    requires PlainName(from) && PlainName(to) && from != to
    ensures !HasRef(RenameRef(s, from, to), from)
  {
    var sq, dq := Ref(SingleQuote, from), Ref(DoubleQuote, from);
    var sq', dq' := Ref(SingleQuote, to), Ref(DoubleQuote, to);
    RefDollarLed(SingleQuote, from); RefDollarLed(DoubleQuote, from);
    RefDollarLed(SingleQuote, to); RefDollarLed(DoubleQuote, to);
    RefsIncompatible(SingleQuote, to, SingleQuote, from);
    RefsIncompatible(DoubleQuote, to, SingleQuote, from);
    RefsIncompatible(DoubleQuote, to, DoubleQuote, from);
    var once := ReplaceAll(s, sq, sq');
    ReplaceAvoids(s, sq, sq', sq);
    ReplaceAvoids(once, dq, dq', sq);
    ReplaceAvoids(once, dq, dq', dq);
  }

  /** One entry never creates a reference to a plain name other than its
      new name. */
  lemma RenameRefPreservesAbsence(s: string, from: string, to: string, n: string)
    requires PlainName(from) && PlainName(to) && PlainName(n) && n != to
    requires !HasRef(s, n)
    ensures !HasRef(RenameRef(s, from, to), n)
  {
    var sq', dq' := Ref(SingleQuote, to), Ref(DoubleQuote, to);
    RefDollarLed(SingleQuote, n); RefDollarLed(DoubleQuote, n);
    RefDollarLed(SingleQuote, to); RefDollarLed(DoubleQuote, to);
    RefsIncompatible(SingleQuote, to, SingleQuote, n);
    RefsIncompatible(SingleQuote, to, DoubleQuote, n);
    RefsIncompatible(DoubleQuote, to, SingleQuote, n);
    RefsIncompatible(DoubleQuote, to, DoubleQuote, n);
    var once := ReplaceAll(s, Ref(SingleQuote, from), sq');
    ReplaceAvoids(s, Ref(SingleQuote, from), sq', Ref(SingleQuote, n));
    ReplaceAvoids(s, Ref(SingleQuote, from), sq', Ref(DoubleQuote, n));
    ReplaceAvoids(once, Ref(DoubleQuote, from), dq', Ref(SingleQuote, n));
    ReplaceAvoids(once, Ref(DoubleQuote, from), dq', Ref(DoubleQuote, n));
  }

  /** One entry keeps every reference, in either quoting, to a plain name
      other than its old name: renaming `If` leaves `$('If5')` alone. */
  lemma RenameRefKeeps(s: string, from: string, to: string, q: char, n: string)
    requires PlainName(from) && PlainName(n) && n != from
    requires q == SingleQuote || q == DoubleQuote
    requires Contains(s, Ref(q, n))
    ensures Contains(RenameRef(s, from, to), Ref(q, n))
  {
    RefDollarLed(q, n);
    RefDollarLed(SingleQuote, from); RefDollarLed(DoubleQuote, from);
    RefsIncompatible(SingleQuote, from, q, n);
    RefsIncompatible(DoubleQuote, from, q, n);
    var once := ReplaceAll(s, Ref(SingleQuote, from), Ref(SingleQuote, to));
    ReplaceKeeps(s, Ref(SingleQuote, from), Ref(SingleQuote, to), Ref(q, n));
    ReplaceKeeps(once, Ref(DoubleQuote, from), Ref(DoubleQuote, to), Ref(q, n));
  }

  /** One entry turns references to its old name into references to its
      new name, in the same quoting. */
  lemma RenameRefIntroduces(s: string, from: string, to: string, q: char)
    requires PlainName(from) && PlainName(to) && from != to
    requires q == SingleQuote || q == DoubleQuote
    requires Contains(s, Ref(q, from))
    ensures Contains(RenameRef(s, from, to), Ref(q, to))
  {
    var once := ReplaceAll(s, Ref(SingleQuote, from), Ref(SingleQuote, to));
    if q == SingleQuote {
      ReplaceIntroduces(s, Ref(SingleQuote, from), Ref(SingleQuote, to));
      RefDollarLed(SingleQuote, to);
      RefDollarLed(DoubleQuote, from);
      RefsIncompatible(DoubleQuote, from, SingleQuote, to);
      ReplaceKeeps(once, Ref(DoubleQuote, from), Ref(DoubleQuote, to), Ref(SingleQuote, to));
    } else {
      RefDollarLed(SingleQuote, from);
      RefDollarLed(DoubleQuote, from);
      RefsIncompatible(SingleQuote, from, DoubleQuote, from);
      ReplaceKeeps(s, Ref(SingleQuote, from), Ref(SingleQuote, to), Ref(DoubleQuote, from));
      ReplaceIntroduces(once, Ref(DoubleQuote, from), Ref(DoubleQuote, to));
    }
  }

  /** One entry keeps every character outside the references it
      replaces: renaming back restores the string, provided the string
      held no reference to the new name of its own. */
  lemma RenameRefRoundTrip(s: string, from: string, to: string)
    requires PlainName(from) && PlainName(to) && from != to
    requires !HasRef(s, to)
    ensures RenameRef(RenameRef(s, from, to), to, from) == s
  {
    var sf, st := Ref(SingleQuote, from), Ref(SingleQuote, to);
    var df, dt := Ref(DoubleQuote, from), Ref(DoubleQuote, to);
    RefDollarLed(SingleQuote, from); RefDollarLed(DoubleQuote, from);
    RefDollarLed(SingleQuote, to); RefDollarLed(DoubleQuote, to);
    RefsIncompatible(DoubleQuote, from, SingleQuote, to);
    RefsIncompatible(DoubleQuote, to, SingleQuote, to);
    RefsIncompatible(SingleQuote, from, DoubleQuote, from);
    var t1 := ReplaceAll(s, sf, st);
    ReplaceCommute(t1, df, dt, st, sf);
    ReplaceRoundTrip(s, sf, st);
    ReplaceRoundTrip(s, df, dt);
  }

  /** A string with no reference to any old name of the map comes back
      unchanged: unmapped text passes through. */
  lemma {:induction false} RewriteRefsUnmapped(s: string, m: RenameMap)
    requires forall i :: 0 <= i < |m| ==> !HasRef(s, m[i].0)
    ensures RewriteRefs(s, m) == s
    decreases |m|
  {
    if m != [] {
      assert RenameRef(s, m[0].0, m[0].1) == s;
      RewriteRefsUnmapped(s, m[1..]);
    }
  }

  /** The whole map never creates a reference to a plain name that is not
      one of its new names. */
  lemma {:induction false} RewriteRefsPreservesAbsence(s: string, m: RenameMap, n: string)
    requires forall i :: 0 <= i < |m| ==> PlainName(m[i].0) && PlainName(m[i].1) && m[i].1 != n
    requires PlainName(n) && !HasRef(s, n)
    ensures !HasRef(RewriteRefs(s, m), n)
    decreases |m|
  {
    if m != [] {
      RenameRefPreservesAbsence(s, m[0].0, m[0].1, n);
      RewriteRefsPreservesAbsence(RenameRef(s, m[0].0, m[0].1), m[1..], n);
    }
  }

  /** After the rewrite no reference to any old name of a plain map is
      left, whatever the input. */
  lemma {:induction false} RewriteRefsRemoves(s: string, m: RenameMap)
    requires PlainMap(m)
    ensures forall i :: 0 <= i < |m| ==> !HasRef(RewriteRefs(s, m), m[i].0)
    decreases |m|
  {
    if m != [] {
      var t := RenameRef(s, m[0].0, m[0].1);
      var tail := m[1..];
      assert PlainMap(tail) by {
        forall i, j | 0 <= i < j < |tail| ensures tail[i].0 != tail[j].0 {
          assert tail[i] == m[i + 1] && tail[j] == m[j + 1];
        }
        forall i, j | 0 <= i < |tail| && 0 <= j < |tail| ensures tail[i].1 != tail[j].0 {
          assert tail[i] == m[i + 1] && tail[j] == m[j + 1];
        }
      }
      RewriteRefsRemoves(t, tail);
      assert m[0].1 != m[0].0;
      RenameRefRemoves(s, m[0].0, m[0].1);
      assert forall i :: 0 <= i < |tail| ==> tail[i].1 != m[0].0 by {
        forall i | 0 <= i < |tail| ensures tail[i].1 != m[0].0 {
          assert tail[i] == m[i + 1];
        }
      }
      RewriteRefsPreservesAbsence(t, tail, m[0].0);
      forall i | 0 <= i < |m| ensures !HasRef(RewriteRefs(s, m), m[i].0) {
        if i > 0 {
          assert m[i] == tail[i - 1];
        }
      }
    }
  }

  /** The rewrite is idempotent for a plain map. */
  lemma RewriteRefsIdempotent(s: string, m: RenameMap)
    requires PlainMap(m)
    ensures RewriteRefs(RewriteRefs(s, m), m) == RewriteRefs(s, m)
  {
    RewriteRefsRemoves(s, m);
    RewriteRefsUnmapped(RewriteRefs(s, m), m);
  }

  /** A name without dollar signs holds no reference at all. */
  lemma {:induction false} DollarFreeHasNoRef(s: string, n: string)
    requires '$' !in s
    ensures !HasRef(s, n)
  {
    ContainsSkipsDollarFree(s, [], Ref(SingleQuote, n));
    ContainsSkipsDollarFree(s, [], Ref(DoubleQuote, n));
    assert s + [] == s;
  }

  /** A name without dollar signs is untouched by the rewrite. */
  lemma DollarFreeUnchanged(s: string, m: RenameMap)
    requires '$' !in s
    ensures RewriteRefs(s, m) == s
  {
    forall i | 0 <= i < |m| ensures !HasRef(s, m[i].0) {
      DollarFreeHasNoRef(s, m[i].0);
    }
    RewriteRefsUnmapped(s, m);
  }

  /** `s` holds no reference to any old name of the map. */
  predicate NoOldRef(s: string, m: RenameMap) {
    forall a :: 0 <= a < |m| ==> !HasRef(s, m[a].0)
  }

  /** `NoOldRef` as a test on string leaves. */
  function OldRefFree(m: RenameMap): (P: string -> bool) {
    s => NoOldRef(s, m)
  }

  /** With a plain map every rewritten string, and every new name, is free
      of references to old names. */
  lemma RewriteOutputsFree(m: RenameMap)
    requires PlainMap(m)
    ensures forall s :: OldRefFree(m)(Rewriter(m)(s))
    ensures forall b :: 0 <= b < |m| ==> OldRefFree(m)(m[b].1)
  {
    forall s ensures OldRefFree(m)(Rewriter(m)(s)) {
      RewriteRefsRemoves(s, m);
    }
    forall b, a | 0 <= b < |m| && 0 <= a < |m| ensures !HasRef(m[b].1, m[a].0) {
      DollarFreeHasNoRef(m[b].1, m[a].0);
    }
  }
}
