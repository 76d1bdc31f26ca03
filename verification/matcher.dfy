/** The filter mini-language of the command line: every criterion is stringified;
    one starting with `-` is a veto (stored without its dash), any other is a
    positive criterion. `Matches` compares whole strings: the value must equal one of
    the positives (if there are any) and none of the vetoes. `PatternMatches` is the
    substring variant, with the two quirks of the code: it asks whether the VALUE
    occurs inside the criterion, and it decides on the FIRST positive criterion alone. */
module Matcher {
  import opened Text
  import opened Values

  datatype Matcher = Matcher(values: seq<string>, antivalues: seq<string>)

  predicate IsVeto(s: string) {
    StartsWith(s, "-")
  }

  /** One constructor step: file the stringified criterion under vetoes or positives. */
  function AddCriterion(m: Matcher, s: string): Matcher {
    if IsVeto(s) then m.(antivalues := m.antivalues + [s[1..]])
    else m.(values := m.values + [s])
  }

  /** The constructor, folding the criteria left to right. */
  function Build(criteria: seq<Value>): (m: Matcher)
    ensures |m.values| + |m.antivalues| == |criteria|
    decreases |criteria|
  {
    if |criteria| == 0 then Matcher([], [])
    else AddCriterion(Build(criteria[..|criteria|-1]), Show(criteria[|criteria|-1]))
  }

  /** Building from a concatenation appends the two builds field by field, so
      construction keeps the order of the criteria within each list. */
  lemma {:induction false} BuildAppend(a: seq<Value>, b: seq<Value>)
    ensures Build(a + b).values == Build(a).values + Build(b).values
    ensures Build(a + b).antivalues == Build(a).antivalues + Build(b).antivalues
    decreases |b|
  {
    if |b| == 0 {
      assert a + b == a;
    } else {
      var b' := b[..|b|-1];
      var s := Show(b[|b|-1]);
      assert (a + b)[..|a + b|-1] == a + b';
      assert (a + b)[|a + b|-1] == b[|b|-1];
      BuildAppend(a, b');
      assert Build(a + b) == AddCriterion(Build(a + b'), s);
      AddAfter(Build(a), Build(b'), Build(a + b'), s);
    }
  }

  /** Filing a criterion after two concatenated builds files it after the second. */
  lemma AddAfter(x: Matcher, y: Matcher, z: Matcher, s: string)
    requires z.values == x.values + y.values && z.antivalues == x.antivalues + y.antivalues
    ensures AddCriterion(z, s).values == x.values + AddCriterion(y, s).values
    ensures AddCriterion(z, s).antivalues == x.antivalues + AddCriterion(y, s).antivalues
  {
  }

  /** A single criterion lands in exactly one list, a veto without its dash. */
  lemma BuildOne(v: Value)
    ensures IsVeto(Show(v)) ==> Build([v]) == Matcher([], [Show(v)[1..]])
    ensures !IsVeto(Show(v)) ==> Build([v]) == Matcher([Show(v)], [])
  {
    assert [v][..0] == [];
  }

  /** Every criterion is a veto. */
  predicate AllVetoes(cs: seq<Value>) {
    forall i :: 0 <= i < |cs| ==> IsVeto(Show(cs[i]))
  }

  /** Some positive criterion reads exactly `s`. */
  predicate NamesPositive(cs: seq<Value>, s: string) {
    exists i :: 0 <= i < |cs| && !IsVeto(Show(cs[i])) && Show(cs[i]) == s
  }

  /** Some veto criterion reads exactly `-` followed by `s`. */
  predicate NamesVeto(cs: seq<Value>, s: string) {
    exists i :: 0 <= i < |cs| && IsVeto(Show(cs[i])) && Show(cs[i])[1..] == s
  }

  /** The positives are exactly the non-veto criteria and the vetoes exactly the
      dash criteria with the dash removed. */
  lemma {:induction false} BuildMembers(cs: seq<Value>)
    ensures forall s :: s in Build(cs).values <==> NamesPositive(cs, s)
    ensures forall s :: s in Build(cs).antivalues <==> NamesVeto(cs, s)
    decreases |cs|
  {
    if |cs| > 0 {
      var init := cs[..|cs|-1];
      BuildMembers(init);
      assert forall i :: 0 <= i < |init| ==> init[i] == cs[i];
    }
  }

  /** There are no positives exactly when every criterion is a veto. */
  lemma NoPositivesIff(cs: seq<Value>)
    ensures Build(cs).values == [] <==> AllVetoes(cs)
  {
    BuildMembers(cs);
    var m := Build(cs);
    if m.values != [] {
      assert NamesPositive(cs, m.values[0]);
    } else if !AllVetoes(cs) {
      var i :| 0 <= i < |cs| && !IsVeto(Show(cs[i]));
      assert NamesPositive(cs, Show(cs[i]));
    }
  }

  /** When criterion `i` is the first that is not a veto, it is the first positive. */
  lemma BuildFirstPositive(cs: seq<Value>, i: int)
    requires 0 <= i < |cs| && !IsVeto(Show(cs[i]))
    requires forall j :: 0 <= j < i ==> IsVeto(Show(cs[j]))
    ensures |Build(cs).values| > 0 && Build(cs).values[0] == Show(cs[i])
  {
    var pre := cs[..i];
    var post := cs[i+1..];
    assert cs == pre + [cs[i]] + post;
    BuildAppend(pre + [cs[i]], post);
    BuildAppend(pre, [cs[i]]);
    BuildOne(cs[i]);
    NoPositives(pre);
  }

  lemma {:induction false} NoPositives(cs: seq<Value>)
    requires forall j :: 0 <= j < |cs| ==> IsVeto(Show(cs[j]))
    ensures Build(cs).values == []
    decreases |cs|
  {
    if |cs| > 0 {
      NoPositives(cs[..|cs|-1]);
    }
  }

  /** `matches`: the value's text must be one of the positives when there are any,
      and must not be a veto. */
  function Matches(m: Matcher, v: Value): bool {
    if |m.values| > 0 && Show(v) !in m.values then false
    else if |m.antivalues| > 0 && Show(v) in m.antivalues then false
    else true
  }

  /** Whether no veto string contains `s`. */
  function NoVetoContains(antivalues: seq<string>, s: string): (r: bool)
    ensures r <==> forall k :: 0 <= k < |antivalues| ==> !Contains(antivalues[k], s)
  {
    if |antivalues| == 0 then true
    else if Contains(antivalues[0], s) then false
    else
      assert forall k :: 1 <= k < |antivalues| ==> antivalues[1..][k-1] == antivalues[k];
      NoVetoContains(antivalues[1..], s)
  }

  /** `pattern_matches`: the loop over the positives returns after the first one,
      passing only when that criterion contains the value's text; then any veto
      containing the value's text rejects it. */
  function PatternMatches(m: Matcher, v: Value): (r: bool)
    ensures r ==> forall k :: 0 <= k < |m.antivalues| ==> !Contains(m.antivalues[k], Show(v))
  {
    var s := Show(v);
    if |m.values| > 0 && !Contains(m.values[0], s) then false
    else NoVetoContains(m.antivalues, s)
  }

  // ---------------------------------------------------------------------------
  // properties of the matchers, stated over the raw criteria

  /** A filter with no criteria admits every value. */
  lemma EmptyMatchesAll(v: Value)
    ensures Matches(Build([]), v) && PatternMatches(Build([]), v)
  {
  }

  /** What `Matches(Build(cs), v)` decides, in terms of the criteria: OR over the
      positives (vacuous when there are none), and no veto naming the value. */
  predicate Accepts(cs: seq<Value>, v: Value) {
    (AllVetoes(cs) || NamesPositive(cs, Show(v))) && !NamesVeto(cs, Show(v))
  }

  lemma MatchesAccepts(cs: seq<Value>, v: Value)
    ensures Matches(Build(cs), v) <==> Accepts(cs, v)
  {
    BuildMembers(cs);
    NoPositivesIff(cs);
  }

  /** A veto wins over a positive naming the same value. */
  lemma VetoWins(cs: seq<Value>, v: Value, i: int)
    requires 0 <= i < |cs| && Show(cs[i]) == "-" + Show(v)
    ensures !Matches(Build(cs), v)
  {
    MatchesAccepts(cs, v);
    assert Show(cs[i])[..1] == "-";
    assert Show(cs[i])[1..] == Show(v);
  }

  /** Positives are OR'd: naming the value in any one positive criterion admits it
      unless a veto names it too. */
  lemma PositiveOr(cs: seq<Value>, v: Value, i: int)
    requires 0 <= i < |cs| && Show(cs[i]) == Show(v) && !IsVeto(Show(v))
    requires forall j :: 0 <= j < |cs| && IsVeto(Show(cs[j])) ==> Show(cs[j])[1..] != Show(v)
    ensures Matches(Build(cs), v)
  {
    MatchesAccepts(cs, v);
  }

  /** An absent value is compared as the text `None`. */
  lemma AbsentIsNoneText(cs: seq<Value>)
    ensures Matches(Build(cs), VNone) <==> Matches(Build(cs), VStr("None"))
    ensures PatternMatches(Build(cs), VNone) <==> PatternMatches(Build(cs), VStr("None"))
  {
  }

  /** `i` is the first criterion that is not a veto. */
  predicate FirstPositiveAt(cs: seq<Value>, i: int) {
    0 <= i < |cs| && !IsVeto(Show(cs[i])) && forall j :: 0 <= j < i ==> IsVeto(Show(cs[j]))
  }

  /** What `PatternMatches(Build(cs), v)` decides, in terms of the criteria: the first
      positive criterion (if any) contains the value's text, and no veto does. */
  predicate PatternAccepts(cs: seq<Value>, v: Value) {
    (AllVetoes(cs) || exists i :: 0 <= i < |cs| && FirstPositiveAt(cs, i) && Contains(Show(cs[i]), Show(v)))
    && NoVetoContainsValue(cs, v)
  }

  /** No veto criterion, without its dash, contains the value's text. */
  predicate NoVetoContainsValue(cs: seq<Value>, v: Value) {
    forall i :: 0 <= i < |cs| && IsVeto(Show(cs[i])) ==> !Contains(Show(cs[i])[1..], Show(v))
  }

  /** The veto loop of `PatternMatches` checks exactly the veto criteria. */
  lemma VetoLoopIff(cs: seq<Value>, v: Value)
    ensures NoVetoContains(Build(cs).antivalues, Show(v)) <==> NoVetoContainsValue(cs, v)
  {
    BuildMembers(cs);
    var m := Build(cs);
    forall k | 0 <= k < |m.antivalues|
      ensures NamesVeto(cs, m.antivalues[k])
    {
      assert m.antivalues[k] in m.antivalues;
    }
    forall i | 0 <= i < |cs| && IsVeto(Show(cs[i]))
      ensures Show(cs[i])[1..] in m.antivalues
    {
      assert NamesVeto(cs, Show(cs[i])[1..]);
    }
  }

  /** The positive step of `PatternMatches` checks exactly the first positive criterion. */
  lemma PositiveStepIff(cs: seq<Value>, v: Value)
    ensures (|Build(cs).values| == 0 || Contains(Build(cs).values[0], Show(v)))
      <==> (AllVetoes(cs) || exists i :: 0 <= i < |cs| && FirstPositiveAt(cs, i) && Contains(Show(cs[i]), Show(v)))
  {
    NoPositivesIff(cs);
    if !AllVetoes(cs) {
      var i := FirstPositive(cs);
      BuildFirstPositive(cs, i);
      forall k | 0 <= k < |cs| && FirstPositiveAt(cs, k)
        ensures k == i
      {
        FirstPositiveUnique(cs, i, k);
      }
    }
  }

  lemma PatternMatchesAccepts(cs: seq<Value>, v: Value)
    ensures PatternMatches(Build(cs), v) <==> PatternAccepts(cs, v)
  {
    VetoLoopIff(cs, v);
    PositiveStepIff(cs, v);
  }

  lemma FirstPositiveUnique(cs: seq<Value>, i: int, k: int)
    ensures FirstPositiveAt(cs, i) && FirstPositiveAt(cs, k) ==> i == k
  {
  }

  /** The index of the first non-veto criterion. */
  function FirstPositive(cs: seq<Value>): (i: int)
    requires !AllVetoes(cs)
    ensures FirstPositiveAt(cs, i)
    decreases |cs|
  {
    if !IsVeto(Show(cs[0])) then 0
    else
      assert !AllVetoes(cs[1..]) by {
        var i :| 0 <= i < |cs| && !IsVeto(Show(cs[i]));
        assert cs[1..][i-1] == cs[i];
      }
      var j := FirstPositive(cs[1..]);
      assert forall k :: 0 < k <= j ==> cs[k] == cs[1..][k-1];
      j + 1
  }

  /** Positives after the first are never consulted by `PatternMatches`. */
  lemma PatternFirstOnly(first: string, rest: seq<string>, other: seq<string>, antivalues: seq<string>, v: Value)
    ensures PatternMatches(Matcher([first] + rest, antivalues), v)
         == PatternMatches(Matcher([first] + other, antivalues), v)
  {
  }

  /** A veto containing the value's text rejects it whatever the positives say. */
  lemma PatternVetoWins(cs: seq<Value>, v: Value, i: int)
    requires 0 <= i < |cs| && IsVeto(Show(cs[i])) && Contains(Show(cs[i])[1..], Show(v))
    ensures !PatternMatches(Build(cs), v)
  {
    PatternMatchesAccepts(cs, v);
  }

  /** The substring test runs from the criterion to the value: a value longer than
      the only positive criterion never passes, even if it contains that criterion. */
  lemma PatternValueInsideCriterion(c: string, v: Value)
    requires |Show(v)| > |c| && !IsVeto(c)
    ensures !PatternMatches(Build([VStr(c)]), v)
  {
    BuildOne(VStr(c));
  }
}
