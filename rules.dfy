/**
 * `TagProcessor::ApplyRules`: every rule of a table is tried on every tag,
 * in tag order and then table order, with no early exit. A rule fires when
 * the tag's key equals the rule's key and the value fits the rule's
 * pattern. The callback of a fired rule may rewrite or clear the tag it was
 * given, and later rules of the same table see the rewritten tag. Callbacks
 * are modelled as one effect function on the tag and on a value `S`
 * standing for whatever the callbacks update (local flags or the output
 * record).
 */
module Rules {
  import opened OsmElements

  datatype Rule<A> = Rule(key: string, pattern: string, action: A)

  /** The values the rule patterns "!" and "~" treat as negative. */
  const NegativeWords: seq<string> := ["no", "none", "false"]

  predicate IsNegative(v: string) {
    v in NegativeWords
  }

  /** A pattern's first character selects "*", "!" or "~"; any pattern also matches itself literally. */
  predicate Takes(pattern: string, v: string) {
    var take :=
      if |pattern| > 0 && pattern[0] == '*' then true
      else if |pattern| > 0 && pattern[0] == '!' then IsNegative(v)
      else if |pattern| > 0 && pattern[0] == '~' then !IsNegative(v)
      else false;
    take || v == pattern
  }

  predicate Fires<A>(r: Rule<A>, t: Tag) {
    t.key == r.key && Takes(r.pattern, t.value)
  }

  /**
   * When a rule fires, stated per pattern. Note that "!" also fires on the
   * value "!" itself, because the literal comparison is tried after the
   * negative test.
   */
  lemma FiresCases<A>(k: string, a: A, t: Tag)
    ensures Fires(Rule(k, "*", a), t) <==> t.key == k
    ensures Fires(Rule(k, "!", a), t) <==>
      t.key == k && (t.value in {"no", "none", "false"} || t.value == "!")
    ensures Fires(Rule(k, "~", a), t) <==> t.key == k && t.value !in {"no", "none", "false"}
    ensures forall p :: p != [] && p[0] !in {'*', '!', '~'} ==>
      (Fires(Rule(k, p, a), t) <==> t.key == k && t.value == p)
  {
  }

  /** A consumed tag has an empty key, so a table whose keys are non-empty never fires on it. */
  lemma ConsumedNeverFires<A>(r: Rule<A>)
    requires r.key != ""
    ensures !Fires(r, Consumed)
  {
  }

  /** One rule tried on one tag. */
  function Step<A, S>(r: Rule<A>, eff: (A, Tag, S) -> (Tag, S), t: Tag, s: S): (Tag, S) {
    if Fires(r, t) then eff(r.action, t, s) else (t, s)
  }

  /** The whole table tried on one tag, each rule seeing the tag as the earlier ones left it. */
  function ApplyToTag<A, S>(rules: seq<Rule<A>>, eff: (A, Tag, S) -> (Tag, S), t: Tag, s: S): (Tag, S)
    decreases |rules|
  {
    if rules == [] then (t, s)
    else
      var (t1, s1) := ApplyToTag(rules[..|rules| - 1], eff, t, s);
      Step(rules[|rules| - 1], eff, t1, s1)
  }

  /** The whole table tried on every tag in order, the state threaded through. */
  function RunRules<A, S>(tags: seq<Tag>, rules: seq<Rule<A>>, eff: (A, Tag, S) -> (Tag, S), s: S): (r: (seq<Tag>, S))
    ensures |r.0| == |tags|
    decreases |tags|
  {
    if tags == [] then ([], s)
    else
      var (done, s1) := RunRules(tags[..|tags| - 1], rules, eff, s);
      var (t, s2) := ApplyToTag(rules, eff, tags[|tags| - 1], s1);
      (done + [t], s2)
  }

  /** The rule engine, run in place on an element's tags. */
  method ApplyRules<A, S>(e: OsmElement, rules: seq<Rule<A>>, eff: (A, Tag, S) -> (Tag, S), s0: S)
    returns (s: S)
    modifies e
    ensures (e.tags, s) == RunRules(old(e.tags), rules, eff, s0)
  {
    ghost var tags0 := e.tags;
    s := s0;
    var i := 0;
    while i < |e.tags|
      invariant |e.tags| == |tags0| && 0 <= i <= |tags0|
      invariant (e.tags[..i], s) == RunRules(tags0[..i], rules, eff, s0)
      invariant e.tags[i..] == tags0[i..]
    {
      ghost var sBefore := s;
      ghost var prefix := e.tags[..i];
      var j := 0;
      while j < |rules|
        invariant 0 <= j <= |rules| && |e.tags| == |tags0|
        invariant (e.tags[i], s) == ApplyToTag(rules[..j], eff, tags0[i], sBefore)
        invariant e.tags[..i] == prefix && e.tags[i + 1..] == tags0[i + 1..]
      {
        var rule := rules[j];
        var t := e.tags[i];
        if Fires(rule, t) {
          var (t', s') := eff(rule.action, t, s);
          e.tags := e.tags[i := t'];
          s := s';
        }
        assert rules[..j + 1][..j] == rules[..j];
        j := j + 1;
      }
      assert rules[..j] == rules;
      assert tags0[..i + 1][..i] == tags0[..i];
      assert e.tags[..i + 1] == prefix + [e.tags[i]];
      i := i + 1;
    }
    assert e.tags[..i] == e.tags && tags0[..i] == tags0;
  }

  /** The output tag at position i is what the table made of tags[i], from the state the earlier tags left. */
  lemma {:induction false} RunRulesAt<A, S>(tags: seq<Tag>, rules: seq<Rule<A>>, eff: (A, Tag, S) -> (Tag, S), s: S, i: nat)
    returns (si: S)
    requires i < |tags|
    ensures RunRules(tags, rules, eff, s).0[i] == ApplyToTag(rules, eff, tags[i], si).0
    decreases |tags|
  {
    if i == |tags| - 1 {
      si := RunRules(tags[..|tags| - 1], rules, eff, s).1;
    } else {
      si := RunRulesAt(tags[..|tags| - 1], rules, eff, s, i);
    }
  }

  /** A tag no rule fires on comes out of the table as it went in, and changes nothing. */
  lemma {:induction false} NoneFires<A, S>(rules: seq<Rule<A>>, eff: (A, Tag, S) -> (Tag, S), t: Tag, s: S)
    requires forall j :: 0 <= j < |rules| ==> !Fires(rules[j], t)
    ensures ApplyToTag(rules, eff, t, s) == (t, s)
    decreases |rules|
  {
    if rules != [] {
      NoneFires(rules[..|rules| - 1], eff, t, s);
    }
  }

  /** A table may be run as two consecutive tables. */
  lemma {:induction false} ApplyToTagSplit<A, S>(r1: seq<Rule<A>>, r2: seq<Rule<A>>, eff: (A, Tag, S) -> (Tag, S), t: Tag, s: S)
    ensures ApplyToTag(r1 + r2, eff, t, s) ==
      (var (t1, s1) := ApplyToTag(r1, eff, t, s); ApplyToTag(r2, eff, t1, s1))
    decreases |r2|
  {
    if r2 == [] {
      assert r1 + r2 == r1;
    } else {
      assert (r1 + r2)[..|r1 + r2| - 1] == r1 + r2[..|r2| - 1];
      ApplyToTagSplit(r1, r2[..|r2| - 1], eff, t, s);
    }
  }

  /**
   * When exactly rule `k` fires on the tag, and the tag it leaves behind
   * fires none of the later rules, the table does what that one rule does.
   */
  lemma OnlyOneFires<A, S>(rules: seq<Rule<A>>, k: nat, eff: (A, Tag, S) -> (Tag, S), t: Tag, s: S)
    requires k < |rules|
    requires forall j :: 0 <= j < k ==> !Fires(rules[j], t)
    requires Fires(rules[k], t)
    requires forall j :: k < j < |rules| ==> !Fires(rules[j], eff(rules[k].action, t, s).0)
    ensures ApplyToTag(rules, eff, t, s) == eff(rules[k].action, t, s)
  {
    var before, after := rules[..k], rules[k + 1..];
    assert rules == (before + [rules[k]]) + after;
    NoneFires(before, eff, t, s);
    assert (before + [rules[k]])[..k] == before;
    var (t1, s1) := eff(rules[k].action, t, s);
    NoneFires(after, eff, t1, s1);
    ApplyToTagSplit(before + [rules[k]], after, eff, t, s);
  }

  /** Running a table over two consecutive runs of tags. */
  lemma {:induction false} RunRulesSplit<A, S>(t1: seq<Tag>, t2: seq<Tag>, rules: seq<Rule<A>>, eff: (A, Tag, S) -> (Tag, S), s: S)
    ensures RunRules(t1 + t2, rules, eff, s) ==
      (var (d1, s1) := RunRules(t1, rules, eff, s);
       var (d2, s2) := RunRules(t2, rules, eff, s1);
       (d1 + d2, s2))
    decreases |t2|
  {
    if t2 == [] {
      assert t1 + t2 == t1;
      assert RunRules(t1, rules, eff, s).0 + [] == RunRules(t1, rules, eff, s).0;
    } else {
      assert (t1 + t2)[..|t1 + t2| - 1] == t1 + t2[..|t2| - 1];
      assert (t1 + t2)[|t1 + t2| - 1] == t2[|t2| - 1];
      RunRulesSplit(t1, t2[..|t2| - 1], rules, eff, s);
      var (d1, s1) := RunRules(t1, rules, eff, s);
      var (d2, s2) := RunRules(t2[..|t2| - 1], rules, eff, s1);
      assert d1 + (d2 + [ApplyToTag(rules, eff, t2[|t2| - 1], s2).0]) ==
        (d1 + d2) + [ApplyToTag(rules, eff, t2[|t2| - 1], s2).0];
    }
  }

  /**
   * A property of the state that every firing keeps holds after the whole
   * pass, whatever the tags.
   */
  lemma {:induction false} RunRulesInvariant<A, S>(tags: seq<Tag>, rules: seq<Rule<A>>, eff: (A, Tag, S) -> (Tag, S), s: S, P: S -> bool)
    requires P(s)
    requires forall r, t, s' :: r in rules && Fires(r, t) && P(s') ==> P(eff(r.action, t, s').1)
    ensures P(RunRules(tags, rules, eff, s).1)
    decreases |tags|
  {
    if tags != [] {
      RunRulesInvariant(tags[..|tags| - 1], rules, eff, s, P);
      var s1 := RunRules(tags[..|tags| - 1], rules, eff, s).1;
      ApplyToTagInvariant(rules, eff, tags[|tags| - 1], s1, P);
    }
  }

  lemma {:induction false} ApplyToTagInvariant<A, S>(rules: seq<Rule<A>>, eff: (A, Tag, S) -> (Tag, S), t: Tag, s: S, P: S -> bool)
    requires P(s)
    requires forall r, t', s' :: r in rules && Fires(r, t') && P(s') ==> P(eff(r.action, t', s').1)
    ensures P(ApplyToTag(rules, eff, t, s).1)
    decreases |rules|
  {
    if rules != [] {
      var init := rules[..|rules| - 1];
      assert forall r :: r in init ==> r in rules;
      ApplyToTagInvariant(init, eff, t, s, P);
      var (t1, s1) := ApplyToTag(init, eff, t, s);
      var r := rules[|rules| - 1];
      assert r in rules;
      if Fires(r, t1) {
        assert P(eff(r.action, t1, s1).1);
      }
    }
  }

  /** An effect that hands every tag back unchanged: a callback that takes no arguments. */
  ghost predicate KeepsTags<A(!new), S(!new)>(eff: (A, Tag, S) -> (Tag, S)) {
    forall a, t, s :: eff(a, t, s).0 == t
  }

  /** Such a table leaves the tags alone. */
  lemma {:induction false} RunRulesKeepsTags<A(!new), S(!new)>(tags: seq<Tag>, rules: seq<Rule<A>>, eff: (A, Tag, S) -> (Tag, S), s: S)
    requires KeepsTags(eff)
    ensures RunRules(tags, rules, eff, s).0 == tags
    decreases |tags|
  {
    if tags != [] {
      RunRulesKeepsTags(tags[..|tags| - 1], rules, eff, s);
      var s1 := RunRules(tags[..|tags| - 1], rules, eff, s).1;
      ApplyToTagKeepsTag(rules, eff, tags[|tags| - 1], s1);
      assert tags == tags[..|tags| - 1] + [tags[|tags| - 1]];
    }
  }

  lemma {:induction false} ApplyToTagKeepsTag<A(!new), S(!new)>(rules: seq<Rule<A>>, eff: (A, Tag, S) -> (Tag, S), t: Tag, s: S)
    requires KeepsTags(eff)
    ensures ApplyToTag(rules, eff, t, s).0 == t
    decreases |rules|
  {
    if rules != [] {
      ApplyToTagKeepsTag(rules[..|rules| - 1], eff, t, s);
    }
  }

  /**
   * With such a table, a property of the state that can only be broken by a
   * rule firing on one of the given tags survives when each such firing
   * keeps it.
   */
  lemma {:induction false} RunRulesStable<A(!new), S(!new)>(tags: seq<Tag>, rules: seq<Rule<A>>, eff: (A, Tag, S) -> (Tag, S), s: S, P: S -> bool)
    requires KeepsTags(eff) && P(s)
    requires forall r, j, s' :: r in rules && 0 <= j < |tags| && Fires(r, tags[j]) && P(s') ==>
      P(eff(r.action, tags[j], s').1)
    ensures P(RunRules(tags, rules, eff, s).1)
    decreases |tags|
  {
    if tags != [] {
      var init := tags[..|tags| - 1];
      assert forall j :: 0 <= j < |init| ==> init[j] == tags[j];
      RunRulesStable(init, rules, eff, s, P);
      var s1 := RunRules(init, rules, eff, s).1;
      var t := tags[|tags| - 1];
      ApplyToTagStable(rules, eff, t, s1, P);
    }
  }

  lemma {:induction false} ApplyToTagStable<A(!new), S(!new)>(rules: seq<Rule<A>>, eff: (A, Tag, S) -> (Tag, S), t: Tag, s: S, P: S -> bool)
    requires KeepsTags(eff) && P(s)
    requires forall r, s' :: r in rules && Fires(r, t) && P(s') ==> P(eff(r.action, t, s').1)
    ensures P(ApplyToTag(rules, eff, t, s).1)
    decreases |rules|
  {
    if rules != [] {
      var init := rules[..|rules| - 1];
      assert forall r :: r in init ==> r in rules;
      ApplyToTagStable(init, eff, t, s, P);
      ApplyToTagKeepsTag(init, eff, t, s);
    }
  }
}
