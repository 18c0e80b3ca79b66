/** Global replacement of a literal pattern, as `String.prototype.replace`
    does with a global regular expression that matches one fixed string:
    the string is scanned left to right, each match is replaced and the
    scan resumes after it, so matches never overlap. */
module Substitution {

  /** `p` is a prefix of `s`. */
  predicate IsPrefix(p: string, s: string) {
    |p| <= |s| && s[..|p|] == p
  }

  /** An occurrence is never longer than the text it occurs in. */
  lemma {:induction false} ContainsLength(s: string, p: string)
    ensures Contains(s, p) ==> |p| <= |s|
    decreases |s|
  {
    if |s| >= |p| && !IsPrefix(p, s) {
      ContainsLength(s[1..], p);
    }
  }

  /** `p` occurs somewhere in `s`. */
  predicate Contains(s: string, p: string): (b: bool)
    decreases |s|
  {
    if |s| < |p| then false
    else IsPrefix(p, s) || Contains(s[1..], p)
  }

  /** One of the two strings is a prefix of the other, so a text starting
      with one could also start with the other. */
  predicate Compatible(a: string, b: string) {
    IsPrefix(a, b) || IsPrefix(b, a)
  }

  /** `x` starts with a dollar sign and has no other: the shape of every
      `$('...')` reference whose name is free of dollar signs. */
  predicate DollarLed(x: string) {
    |x| > 0 && x[0] == '$' && '$' !in x[1..]
  }

  /** Replaces every non-overlapping occurrence of `pat` in `s`, scanning
      from the left, by `rep`. */
  function ReplaceAll(s: string, pat: string, rep: string): (r: string)
    requires pat != []
    ensures !Contains(s, pat) ==> r == s
    decreases |s|
  {
    if |s| < |pat| then s
    else if IsPrefix(pat, s) then rep + ReplaceAll(s[|pat|..], pat, rep)
    else [s[0]] + ReplaceAll(s[1..], pat, rep)
  }

  /** An occurrence in a suffix is an occurrence in the whole string. */
  lemma {:induction false} ContainsSuffix(s: string, p: string, i: nat)
    requires i <= |s|
    ensures Contains(s[i..], p) ==> Contains(s, p)
    decreases i
  {
    if i > 0 && Contains(s[i..], p) {
      assert s[1..][i - 1..] == s[i..];
      ContainsSuffix(s[1..], p, i - 1);
    }
  }

  /** A dollar-free head is copied unchanged by the replacement of a
      dollar-led pattern, and the scan resumes right after it. */
  lemma {:induction false} ReplaceSkipsDollarFree(x: string, y: string, pat: string, rep: string)
    requires |pat| > 0 && pat[0] == '$'
    requires '$' !in x
    ensures ReplaceAll(x + y, pat, rep) == x + ReplaceAll(y, pat, rep)
    decreases |x|
  {
    if x != [] {
      assert (x + y)[0] == x[0];
      assert (x + y)[1..] == x[1..] + y;
      ReplaceSkipsDollarFree(x[1..], y, pat, rep);
      if |x + y| < |pat| {
        assert ReplaceAll(y, pat, rep) == y;
      }
    } else {
      assert x + y == y;
    }
  }

  /** An occurrence of a dollar-led pattern cannot start inside a text that
      has no dollar sign. */
  lemma {:induction false} ContainsSkipsDollarFree(x: string, y: string, p: string)
    requires |p| > 0 && p[0] == '$'
    requires '$' !in x
    ensures Contains(x + y, p) ==> Contains(y, p)
    decreases |x|
  {
    if x != [] && Contains(x + y, p) {
      assert (x + y)[0] == x[0];
      assert (x + y)[1..] == x[1..] + y;
      ContainsSkipsDollarFree(x[1..], y, p);
    } else if x == [] {
      assert x + y == y;
    }
  }

  /** Before its first dollar sign the output of a replacement whose
      replacement text starts with a dollar sign agrees with the input. */
  lemma {:induction false} OutputPrefixBeforeDollar(t: string, pat: string, rep: string, m: nat)
    requires pat != [] && rep != [] && rep[0] == '$'
    ensures m <= |ReplaceAll(t, pat, rep)| && '$' !in ReplaceAll(t, pat, rep)[..m] ==>
              m <= |t| && ReplaceAll(t, pat, rep)[..m] == t[..m]
    decreases |t|
  {
    var r := ReplaceAll(t, pat, rep);
    if |t| < |pat| {
    } else if IsPrefix(pat, t) {
      if 0 < m <= |r| {
        assert r[..m][0] == rep[0];
      }
    } else if 0 < m <= |r| {
      var r' := ReplaceAll(t[1..], pat, rep);
      assert r[..m] == [t[0]] + r'[..m - 1];
      assert r'[..m - 1] == r[..m][1..];
      OutputPrefixBeforeDollar(t[1..], pat, rep, m - 1);
    }
  }

  /** Conversely, a dollar-free prefix of the input is copied to the
      output when the pattern starts with a dollar sign. */
  lemma {:induction false} InputPrefixBeforeDollar(t: string, pat: string, rep: string, m: nat)
    requires |pat| > 0 && pat[0] == '$'
    requires m <= |t| && '$' !in t[..m]
    ensures m <= |ReplaceAll(t, pat, rep)| && ReplaceAll(t, pat, rep)[..m] == t[..m]
    decreases |t|
  {
    if |t| < |pat| {
    } else if IsPrefix(pat, t) {
    } else if m > 0 {
      assert t[1..][..m - 1] == t[..m][1..];
      InputPrefixBeforeDollar(t[1..], pat, rep, m - 1);
    }
  }

  /** The replacement leaves no occurrence of a dollar-led pattern `p`
      that is not already in the input, provided the replacement text
      cannot start one; taking `p := pat` this says that every occurrence
      of `pat` is gone. */
  lemma {:induction false} ReplaceAvoids(s: string, pat: string, rep: string, p: string)
    requires pat != []
    requires DollarLed(rep) && DollarLed(p)
    requires !Compatible(rep, p)
    requires p == pat || !Contains(s, p)
    ensures !Contains(ReplaceAll(s, pat, rep), p)
    decreases |s|
  {
    if |s| < |pat| {
    } else if IsPrefix(pat, s) {
      var rest := s[|pat|..];
      ContainsSuffix(s, p, |pat|);
      ReplaceAvoids(rest, pat, rep, p);
      var r' := ReplaceAll(rest, pat, rep);
      if Contains(rep + r', p) {
        assert (rep + r')[1..] == rep[1..] + r';
        ContainsSkipsDollarFree(rep[1..], r', p);
      }
    } else {
      ContainsSuffix(s, p, 1);
      ReplaceAvoids(s[1..], pat, rep, p);
      var r' := ReplaceAll(s[1..], pat, rep);
      var r := [s[0]] + r';
      if Contains(r, p) {
        assert r[1..] == r';
        if IsPrefix(p, r) {
          assert r'[..|p| - 1] == p[1..];
          OutputPrefixBeforeDollar(s[1..], pat, rep, |p| - 1);
        }
      }
    }
  }

  /** An occurrence of a dollar-led pattern that cannot overlap the
      replaced one survives the replacement. */
  lemma {:induction false} ReplaceKeeps(s: string, pat: string, rep: string, p: string)
    requires DollarLed(pat) && DollarLed(p)
    requires !Compatible(pat, p)
    requires Contains(s, p)
    ensures Contains(ReplaceAll(s, pat, rep), p)
    decreases |s|
  {
    if |s| < |pat| {
    } else if IsPrefix(pat, s) {
      var rest := s[|pat|..];
      assert s[1..] == pat[1..] + rest;
      ContainsSkipsDollarFree(pat[1..], rest, p);
      ReplaceKeeps(rest, pat, rep, p);
      var r' := ReplaceAll(rest, pat, rep);
      assert (rep + r')[|rep|..] == r';
      ContainsSuffix(rep + r', p, |rep|);
    } else {
      var r' := ReplaceAll(s[1..], pat, rep);
      var r := [s[0]] + r';
      assert r[1..] == r';
      if IsPrefix(p, s) {
        assert s[1..][..|p| - 1] == p[1..];
        InputPrefixBeforeDollar(s[1..], pat, rep, |p| - 1);
        assert r[..|p|] == [s[0]] + r'[..|p| - 1];
        assert IsPrefix(p, r);
      } else {
        ReplaceKeeps(s[1..], pat, rep, p);
      }
    }
  }

  /** Where the pattern occurs, the replacement text occurs afterwards. */
  lemma {:induction false} ReplaceIntroduces(s: string, pat: string, rep: string)
    requires pat != []
    requires Contains(s, pat)
    ensures Contains(ReplaceAll(s, pat, rep), rep)
    decreases |s|
  {
    if IsPrefix(pat, s) {
      var r' := ReplaceAll(s[|pat|..], pat, rep);
      assert (rep + r')[..|rep|] == rep;
    } else {
      ReplaceIntroduces(s[1..], pat, rep);
      var r' := ReplaceAll(s[1..], pat, rep);
      assert ([s[0]] + r')[1..] == r';
    }
  }

  /** Replacing back restores the input: every occurrence was replaced by
      exactly `rep` and every other character was kept in place. It needs
      the input to contain no `rep` of its own. */
  lemma {:induction false} ReplaceRoundTrip(s: string, pat: string, rep: string)
    requires pat != []
    requires DollarLed(rep)
    requires !Contains(s, rep)
    ensures ReplaceAll(ReplaceAll(s, pat, rep), rep, pat) == s
    decreases |s|
  {
    if |s| < |pat| {
    } else if IsPrefix(pat, s) {
      var rest := s[|pat|..];
      ContainsSuffix(s, rep, |pat|);
      ReplaceRoundTrip(rest, pat, rep);
      var r' := ReplaceAll(rest, pat, rep);
      assert IsPrefix(rep, rep + r');
      assert (rep + r')[|rep|..] == r';
      assert s == pat + rest;
    } else {
      ContainsSuffix(s, rep, 1);
      ReplaceRoundTrip(s[1..], pat, rep);
      var r' := ReplaceAll(s[1..], pat, rep);
      var r := [s[0]] + r';
      assert s == [s[0]] + s[1..];
      ReplaceStep(s, pat, rep);
      ReplaceNoNewLead(s[1..], s[0], pat, rep, rep);
      ReplaceStep(r, rep, pat);
      assert r[1..] == r';
    }
  }

  /** Where the pattern does not start, the first character is copied and
      the scan moves on by one. */
  lemma ReplaceStep(s: string, pat: string, rep: string)
    requires pat != [] && s != []
    requires !IsPrefix(pat, s)
    ensures ReplaceAll(s, pat, rep) == [s[0]] + ReplaceAll(s[1..], pat, rep)
  {
    if |s| < |pat| {
      assert ReplaceAll(s[1..], pat, rep) == s[1..];
      assert s == [s[0]] + s[1..];
    }
  }

  /** A pattern that cannot overlap `b` does not start a text that
      starts with `b`. */
  lemma IncompatibleNotPrefix(b: string, x: string, pat: string)
    requires !Compatible(b, pat)
    ensures !IsPrefix(pat, b + x)
  {
  }

  /** A dollar-led text that cannot overlap the pattern is copied whole,
      and the scan resumes right after it. */
  lemma ReplaceSkipsLed(b: string, x: string, pat: string, rep: string)
    requires DollarLed(b) && DollarLed(pat)
    requires !Compatible(b, pat)
    ensures ReplaceAll(b + x, pat, rep) == b + ReplaceAll(x, pat, rep)
  {
    var y := b + x;
    IncompatibleNotPrefix(b, x, pat);
    ReplaceStep(y, pat, rep);
    assert y[1..] == b[1..] + x;
    ReplaceSkipsDollarFree(b[1..], x, pat, rep);
    assert b == [b[0]] + b[1..];
  }

  /** Replacing a pattern whose replacement is dollar-led does not make a
      dollar-led text `c` start right after a leading character where it
      did not start before. */
  lemma ReplaceNoNewLead(t: string, x: char, pat: string, rep: string, c: string)
    requires pat != [] && DollarLed(rep) && DollarLed(c)
    requires !IsPrefix(c, [x] + t)
    ensures !IsPrefix(c, [x] + ReplaceAll(t, pat, rep))
  {
    var r := ReplaceAll(t, pat, rep);
    if IsPrefix(c, [x] + r) {
      var k := |c| - 1;
      assert r[..k] == ([x] + r)[..|c|][1..] == c[1..];
      OutputPrefixBeforeDollar(t, pat, rep, k);
    }
  }

  /** Two replacements commute when neither pattern can overlap the other
      or the other's replacement text. */
  lemma {:induction false} ReplaceCommute(s: string, a: string, b: string, c: string, d: string)
    requires DollarLed(a) && DollarLed(b) && DollarLed(c) && DollarLed(d)
    requires !Compatible(a, c) && !Compatible(b, c) && !Compatible(d, a)
    ensures ReplaceAll(ReplaceAll(s, a, b), c, d) == ReplaceAll(ReplaceAll(s, c, d), a, b)
    decreases |s|
  {
    if s == [] {
    } else if IsPrefix(a, s) {
      var t := s[|a|..];
      assert s == a + t;
      ReplaceCommute(t, a, b, c, d);
      ReplaceSkipsLed(b, ReplaceAll(t, a, b), c, d);
      ReplaceSkipsLed(a, t, c, d);
    } else if IsPrefix(c, s) {
      var t := s[|c|..];
      assert s == c + t;
      ReplaceCommute(t, a, b, c, d);
      ReplaceSkipsLed(c, t, a, b);
      ReplaceSkipsLed(d, ReplaceAll(t, c, d), a, b);
    } else {
      var x, t := s[0], s[1..];
      assert s == [x] + t;
      ReplaceCommute(t, a, b, c, d);
      ReplaceStep(s, a, b);
      ReplaceStep(s, c, d);
      ReplaceNoNewLead(t, x, a, b, c);
      ReplaceNoNewLead(t, x, c, d, a);
      ReplaceStep([x] + ReplaceAll(t, a, b), c, d);
      ReplaceStep([x] + ReplaceAll(t, c, d), a, b);
      assert ([x] + ReplaceAll(t, a, b))[1..] == ReplaceAll(t, a, b);
      assert ([x] + ReplaceAll(t, c, d))[1..] == ReplaceAll(t, c, d);
    }
  }
}
