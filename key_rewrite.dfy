/** Parameter-name rewriting for checkpoints: Python's `str.replace` and the
    ordered rewrite rules applied to checkpoint keys before restoring an
    encoder (src/biom3d/models/unet3d_vgg_deep.py, lines 97-110). */
module KeyRewrite {

  /** `s.replace(pat, rep)`: every non-overlapping occurrence of `pat`,
      scanning left to right, is replaced by `rep`. For an empty `pat`,
      Python inserts `rep` before every character and at the end. */
  function ReplaceAll(s: string, pat: string, rep: string): (r: string)
    ensures pat != [] && rep == pat ==> r == s
    decreases |s|
  {
    if pat == [] then
      (if s == [] then rep else rep + [s[0]] + ReplaceAll(s[1..], pat, rep))
    else if |s| < |pat| then s
    else if s[..|pat|] == pat then rep + ReplaceAll(s[|pat|..], pat, rep)
    else [s[0]] + ReplaceAll(s[1..], pat, rep)
  }

  /** `pat` occurs in `s` starting at index `i`. */
  predicate OccursAt(s: string, pat: string, i: int)
  {
    0 <= i && i + |pat| <= |s| && s[i..i + |pat|] == pat
  }

  /** `pat in s`. */
  ghost predicate Contains(s: string, pat: string)
  {
    exists i :: OccursAt(s, pat, i)
  }

  /** A name in which the first character of `pat` never appears cannot hold `pat`. */
  lemma {:induction false} AbsentFirstChar(s: string, pat: string)
    requires pat != [] && pat[0] !in s
    ensures !Contains(s, pat)
  {
    forall i | 0 <= i && i + |pat| <= |s| ensures !OccursAt(s, pat, i) {
      assert s[i..i + |pat|][0] == s[i];
      assert s[i] in s;
    }
  }

  /** An occurrence in a suffix is an occurrence in the whole string. */
  lemma {:induction false} ContainsSuffix(s: string, k: nat, pat: string)
    requires k <= |s| && Contains(s[k..], pat)
    ensures Contains(s, pat)
  {
    var i :| OccursAt(s[k..], pat, i);
    assert s[k..][i..i + |pat|] == s[k + i..k + i + |pat|];
    assert OccursAt(s, pat, k + i);
  }

  /** A string without an occurrence of `pat` is left as it is. */
  lemma {:induction false} ReplaceAllAbsent(s: string, pat: string, rep: string)
    requires pat != [] && !Contains(s, pat)
    ensures ReplaceAll(s, pat, rep) == s
    decreases |s|
  {
    if |pat| <= |s| {
      assert s[0..|pat|] == s[..|pat|];
      assert !OccursAt(s, pat, 0);
      if Contains(s[1..], pat) {
        ContainsSuffix(s, 1, pat);
      }
      ReplaceAllAbsent(s[1..], pat, rep);
    }
  }

  /** A leading occurrence is replaced and the scan resumes right after it. */
  lemma {:induction false} ReplaceAllLeading(pat: string, s: string, rep: string)
    requires pat != []
    ensures ReplaceAll(pat + s, pat, rep) == rep + ReplaceAll(s, pat, rep)
  {
    assert (pat + s)[..|pat|] == pat;
    assert (pat + s)[|pat|..] == s;
  }

  /** A character that cannot start the pattern is copied and the scan moves on. */
  lemma {:induction false} ReplaceAllStep(c: char, s: string, pat: string, rep: string)
    requires pat != [] && c != pat[0]
    ensures ReplaceAll([c] + s, pat, rep) == [c] + ReplaceAll(s, pat, rep)
  {
    var t := [c] + s;
    if |pat| <= |t| {
      assert t[..|pat|][0] == c;
    }
    assert t[1..] == s;
  }

  lemma {:induction false} ConsAppend(c: char, rest: string, s: string)
    ensures [c] + rest + s == [c] + (rest + s)
  {
  }

  /** A prefix that holds no copy of the pattern's first character is
      copied unchanged: no occurrence can start inside it. */
  lemma {:induction false} ReplaceAllSkip(a: string, s: string, pat: string, rep: string)
    requires pat != [] && pat[0] !in a
    ensures ReplaceAll(a + s, pat, rep) == a + ReplaceAll(s, pat, rep)
    decreases |a|
  {
    if a == [] {
      assert a + s == s;
    } else {
      var c, rest := a[0], a[1..];
      assert a == [c] + rest;
      ConsAppend(c, rest, s);
      ConsAppend(c, rest, ReplaceAll(s, pat, rep));
      ReplaceAllStep(c, rest + s, pat, rep);
      ReplaceAllSkip(rest, s, pat, rep);
    }
  }

  /** When the replacement is shorter than the pattern, every replacement
      shortens the string, so the string stays unchanged exactly when it
      holds no occurrence. */
  lemma {:induction false} ReplaceAllShrinks(s: string, pat: string, rep: string)
    requires |rep| < |pat|
    ensures |ReplaceAll(s, pat, rep)| <= |s|
    ensures Contains(s, pat) ==> |ReplaceAll(s, pat, rep)| < |s|
    decreases |s|
  {
    if |s| < |pat| {
      forall i | OccursAt(s, pat, i) ensures false { }
    } else if s[..|pat|] == pat {
      ReplaceAllShrinks(s[|pat|..], pat, rep);
    } else {
      ReplaceAllShrinks(s[1..], pat, rep);
      if Contains(s, pat) {
        var i :| OccursAt(s, pat, i);
        assert i != 0 by { assert s[0..|pat|] == s[..|pat|]; }
        assert s[1..][i - 1..i - 1 + |pat|] == s[i..i + |pat|];
        assert OccursAt(s[1..], pat, i - 1);
      }
    }
  }

  lemma {:induction false} ReplaceAllFixedPoint(s: string, pat: string, rep: string)
    requires |rep| < |pat|
    ensures ReplaceAll(s, pat, rep) == s <==> !Contains(s, pat)
  {
    ReplaceAllShrinks(s, pat, rep);
    if !Contains(s, pat) {
      ReplaceAllAbsent(s, pat, rep);
    }
  }

  /** One `(pattern, replacement)` rewrite: `k.replace(pattern, replacement)`. */
  datatype Rule = Rule(pattern: string, replacement: string)

  function Apply(rule: Rule, key: string): string
  {
    ReplaceAll(key, rule.pattern, rule.replacement)
  }

  /** A rule as a renaming of keys. */
  function Renaming(rule: Rule): string -> string
  {
    k => Apply(rule, k)
  }

  /** The passes applied in order to one key. */
  function ApplyRules(key: string, rules: seq<Rule>): string
    decreases |rules|
  {
    if rules == [] then key else ApplyRules(Apply(rules[0], key), rules[1..])
  }

  /** A whole convention as a renaming of keys. */
  function Rewriting(rules: seq<Rule>): string -> string
  {
    k => ApplyRules(k, rules)
  }

  /** The three passes for a checkpoint saved under `'model'` (lines 98-103):
      the multi-GPU `module.` wrapper, the sequential wrapper's `0.`, the
      pretraining wrapper's `backbone.`. */
  const ModelRules: seq<Rule> :=
    [Rule("module.", ""), Rule("0.layers", "layers"), Rule("backbone.", "")]

  /** The two passes for a checkpoint saved under `'teacher'` (lines 106-109). */
  const TeacherRules: seq<Rule> :=
    [Rule("module.", ""), Rule("backbone.", "")]

  /** A name that holds none of the wrapper markers, as the encoder's own
      parameter names do. */
  ghost predicate Plain(name: string)
  {
    !Contains(name, "module.") && !Contains(name, "0.layers") && !Contains(name, "backbone.")
  }

  /** A plain name is a fixed point of both conventions: a checkpoint saved
      from the bare encoder loads under its own names. */
  lemma {:induction false} PlainNamesUnchanged(name: string)
    requires Plain(name)
    ensures ApplyRules(name, ModelRules) == name
    ensures ApplyRules(name, TeacherRules) == name
  {
    ReplaceAllAbsent(name, "module.", "");
    ReplaceAllAbsent(name, "0.layers", "layers");
    ReplaceAllAbsent(name, "backbone.", "");
  }

  /** Removing a leading wrapper `pat + a` from a name: the leading `pat` is
      replaced, `a` cannot start an occurrence, and the name holds none. */
  lemma {:induction false} StripLeading(pat: string, a: string, name: string, rep: string)
    requires pat != [] && pat[0] !in a && !Contains(name, pat)
    ensures ReplaceAll(pat + (a + name), pat, rep) == rep + (a + name)
  {
    ReplaceAllLeading(pat, a + name, rep);
    ReplaceAllSkip(a, name, pat, rep);
    ReplaceAllAbsent(name, pat, rep);
  }

  /** A name with no occurrence left after a leading `pat` loses just that
      `pat`. */
  lemma {:induction false} StripOnly(pat: string, name: string, rep: string)
    requires pat != [] && !Contains(name, pat)
    ensures ReplaceAll(pat + name, pat, rep) == rep + name
  {
    ReplaceAllLeading(pat, name, rep);
    ReplaceAllAbsent(name, pat, rep);
  }

  /** Three passes applied to one key, written out. */
  lemma {:induction false} ApplyThreeRules(key: string, rules: seq<Rule>)
    requires |rules| == 3
    ensures ApplyRules(key, rules) == Apply(rules[2], Apply(rules[1], Apply(rules[0], key)))
  {
    var k1 := Apply(rules[0], key);
    var k2 := Apply(rules[1], k1);
    assert rules[1..][0] == rules[1] && rules[1..][1..] == rules[2..];
    assert rules[2..][0] == rules[2] && rules[2..][1..] == [];
    calc {
      ApplyRules(key, rules);
      ApplyRules(k1, rules[1..]);
      ApplyRules(k2, rules[2..]);
      ApplyRules(Apply(rules[2], k2), []);
    }
  }

  /** Two passes applied to one key, written out. */
  lemma {:induction false} ApplyTwoRules(key: string, rules: seq<Rule>)
    requires |rules| == 2
    ensures ApplyRules(key, rules) == Apply(rules[1], Apply(rules[0], key))
  {
    var k1 := Apply(rules[0], key);
    assert rules[1..][0] == rules[1] && rules[1..][1..] == [];
    calc {
      ApplyRules(key, rules);
      ApplyRules(k1, rules[1..]);
      ApplyRules(Apply(rules[1], k1), []);
    }
  }

  /** The sequential wrapper's `0.` in front of `layers` is dropped. */
  lemma {:induction false} StripSequentialIndex(name: string)
    requires Plain(name) && |name| >= 6 && name[..6] == "layers"
    ensures Apply(ModelRules[1], "0." + name) == name
  {
    var rest := name[6..];
    assert name == "layers" + rest;
    if Contains(rest, "0.layers") {
      ContainsSuffix(name, 6, "0.layers");
    }
    assert "0." + name == "0.layers" + rest by {
      assert "0." + ("layers" + rest) == ("0." + "layers") + rest;
    }
    StripOnly("0.layers", rest, "layers");
  }

  lemma {:induction false} ModelPrefix(name: string)
    ensures "module.0." + name == "module." + ("0." + name)
  {
    assert "module.0." == "module." + "0.";
  }

  lemma {:induction false} TeacherPrefix(name: string)
    ensures "module.backbone." + name == "module." + ("backbone." + name)
  {
    assert "module.backbone." == "module." + "backbone.";
  }

  /** Under `'model'`, a name saved through the multi-GPU wrapper and the
      sequential wrapper (`module.0.layers…`) comes back as the encoder's
      own `layers…` name. */
  lemma {:induction false} ModelConventionStripsWrappers(name: string)
    requires Plain(name) && |name| >= 6 && name[..6] == "layers"
    ensures ApplyRules("module.0." + name, ModelRules) == name
  {
    var k0 := "module.0." + name;
    var k1 := "0." + name;
    assert Apply(ModelRules[0], k0) == k1 by {
      ModelPrefix(name);
      StripLeading("module.", "0.", name, "");
      assert "" + k1 == k1;
    }
    assert Apply(ModelRules[1], k1) == name by {
      StripSequentialIndex(name);
    }
    assert Apply(ModelRules[2], name) == name by {
      ReplaceAllAbsent(name, "backbone.", "");
    }
    ApplyThreeRules(k0, ModelRules);
  }

  /** Under `'teacher'`, a name saved through the multi-GPU wrapper and the
      multi-crop wrapper (`module.backbone.…`) comes back as the bare name. */
  lemma {:induction false} TeacherConventionStripsWrappers(name: string)
    requires Plain(name)
    ensures ApplyRules("module.backbone." + name, TeacherRules) == name
  {
    var k0 := "module.backbone." + name;
    var k1 := "backbone." + name;
    assert Apply(TeacherRules[0], k0) == k1 by {
      TeacherPrefix(name);
      StripLeading("module.", "backbone.", name, "");
      assert "" + k1 == k1;
    }
    assert Apply(TeacherRules[1], k1) == name by {
      StripOnly("backbone.", name, "");
      assert "" + name == name;
    }
    ApplyTwoRules(k0, TeacherRules);
  }

  /** The encoder weight `layers.conv1.weight` holds no wrapper marker. */
  lemma {:induction false} ExampleNameIsPlain(name: string)
    requires name == "layers.conv1.weight"
    ensures Plain(name)
  {
    assert forall i :: 0 <= i < |name| ==> name[i] !in "m0b";
    AbsentFirstChar(name, "module.");
    AbsentFirstChar(name, "0.layers");
    AbsentFirstChar(name, "backbone.");
  }

  /** The two worked examples of the rewriting, for the encoder weight
      `layers.conv1.weight`. */
  lemma {:induction false} ConventionExamples(name: string)
    requires name == "layers.conv1.weight"
    ensures ApplyRules("module.0." + name, ModelRules) == name
    ensures ApplyRules("module.backbone." + name, TeacherRules) == name
  {
    ExampleNameIsPlain(name);
    assert |name| >= 6 && name[..6] == "layers";
    ModelConventionStripsWrappers(name);
    TeacherConventionStripsWrappers(name);
  }

  /** The middle pass rewrites an inner `0.layers` when nothing before it
      can start the pattern. */
  lemma {:induction false} StripInnerSequentialIndex(head: string, tail: string)
    requires '0' !in head && '0' !in tail
    ensures Apply(ModelRules[1], head + "0.layers" + tail) == head + "layers" + tail
  {
    assert head + "0.layers" + tail == head + ("0.layers" + tail);
    ReplaceAllSkip(head, "0.layers" + tail, "0.layers", "layers");
    AbsentFirstChar(tail, "0.layers");
    StripOnly("0.layers", tail, "layers");
    assert head + ("layers" + tail) == head + "layers" + tail;
  }

  /** The rewrite is not anchored at the start of a name: a `0.layers` inside
      a name is shortened too, as after a module index ending in 0. */
  lemma {:induction false} RewriteIsNotAnchored(head: string, tail: string)
    requires head == "layers.1" && tail == ".weight"
    ensures ApplyRules(head + "0.layers" + tail, ModelRules) == head + "layers" + tail
  {
    var k0 := head + "0.layers" + tail;
    var k2 := head + "layers" + tail;
    assert Apply(ModelRules[0], k0) == k0 by {
      assert 'm' !in head && 'm' !in "0.layers" && 'm' !in tail;
      AbsentFirstChar(k0, "module.");
      ReplaceAllAbsent(k0, "module.", "");
    }
    assert Apply(ModelRules[1], k0) == k2 by {
      StripInnerSequentialIndex(head, tail);
    }
    assert Apply(ModelRules[2], k2) == k2 by {
      assert 'b' !in head && 'b' !in "layers" && 'b' !in tail;
      AbsentFirstChar(k2, "backbone.");
      ReplaceAllAbsent(k2, "backbone.", "");
    }
    ApplyThreeRules(k0, ModelRules);
  }
}
