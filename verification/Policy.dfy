/** Policy rules, the rule that decides an action, and the static search for conflicts. */
module Policy {
  import opened Bytes
  import opened Text
  import opened Sorting

  // ---------------------------------------------------------------------------------------
  // Shell-style patterns
  // ---------------------------------------------------------------------------------------

  /** Whether a bracketed class, given by the text between its brackets, contains a character. */
  type Classes = (string, char) -> bool

  /** Where the closing bracket of a class is, from a position on. */
  function Closing(p: string, from: nat): (r: Option<nat>)
    ensures r.Some? ==> from <= r.value < |p|
    decreases |p| - from
  {
    if from >= |p| then None else if p[from] == ']' then Some(from) else Closing(p, from + 1)
  }

  /** The end of the class that opens the pattern; a bracket right after the opening does not close it. */
  function ClassEnd(p: string): (r: Option<nat>)
    requires p != ""
    ensures r.Some? ==> 1 <= r.value < |p|
  {
    var inner := if |p| > 1 && p[1] == '!' then 2 else 1;
    Closing(p, if |p| > inner && p[inner] == ']' then inner + 1 else inner)
  }

  predicate Match(classes: Classes, p: string, t: string)
    decreases |p| + |t|
  {
    if p == "" then t == ""
    else if p[0] == '*' then Match(classes, p[1..], t) || (t != "" && Match(classes, p, t[1..]))
    else if p[0] == '?' then t != "" && Match(classes, p[1..], t[1..])
    else if p[0] == '[' && ClassEnd(p).Some? then
      t != "" && classes(p[1..ClassEnd(p).value], t[0]) && Match(classes, p[ClassEnd(p).value + 1..], t[1..])
    else t != "" && t[0] == p[0] && Match(classes, p[1..], t[1..])
  }

  // What a pattern without brackets matches: its parts match consecutive pieces of the text, where a
  // star takes any piece, a question mark any one character, and anything else itself.

  ghost predicate MatchesAt(classes: Classes, p: string, q: string, t: string, k: int) {
    0 <= k <= |t| && Match(classes, p, t[..k]) && Match(classes, q, t[k..])
  }

  lemma MatchesLater(classes: Classes, p: string, q: string, t: string, k: int)
    requires t != "" && 1 <= k <= |t|
    ensures t[1..][..k - 1] == t[..k][1..] && t[1..][k - 1..] == t[k..] && t[..k] != "" && t[..k][0] == t[0]
  {
  }

  lemma {:induction false} SplitMatches(classes: Classes, p: string, q: string, t: string, k: int)
    requires '[' !in p && MatchesAt(classes, p, q, t, k)
    ensures Match(classes, p + q, t)
    decreases |p| + |t|
  {
    if p == "" {
      assert p + q == q && t[..k] == "" && t[k..] == t;
    } else {
      assert (p + q)[1..] == p[1..] + q && (p + q)[0] == p[0];
      if p[0] == '*' && Match(classes, p[1..], t[..k]) {
        SplitMatches(classes, p[1..], q, t, k);
      } else {
        assert t[..k] != "";
        MatchesLater(classes, p, q, t, k);
        SplitMatches(classes, if p[0] == '*' then p else p[1..], q, t[1..], k - 1);
      }
    }
  }

  lemma {:induction false} MatchSplits(classes: Classes, p: string, q: string, t: string) returns (k: int)
    requires '[' !in p && Match(classes, p + q, t)
    ensures MatchesAt(classes, p, q, t, k)
    decreases |p| + |t|
  {
    if p == "" {
      k := 0;
      assert p + q == q && t[..0] == "" && t[0..] == t;
    } else {
      assert (p + q)[1..] == p[1..] + q && (p + q)[0] == p[0];
      if p[0] == '*' && Match(classes, p[1..] + q, t) {
        k := MatchSplits(classes, p[1..], q, t);
      } else {
        var i := MatchSplits(classes, if p[0] == '*' then p else p[1..], q, t[1..]);
        k := i + 1;
        MatchesLater(classes, p, q, t, k);
      }
    }
  }

  lemma StarMatchesAll(classes: Classes, t: string)
    ensures Match(classes, "*", t)
  {
    if t != "" { StarMatchesAll(classes, t[1..]); }
  }

  lemma OneMatches(classes: Classes, c: char, t: string)
    requires c != '*' && c != '['
    ensures Match(classes, [c], t) <==> |t| == 1 && (c == '?' || t[0] == c)
  {
    assert [c][1..] == "";
  }

  /** The whole meaning of such a pattern, by its parts. */
  lemma GlobMeaning(classes: Classes, p: string, q: string, c: char, t: string)
    requires '[' !in p
    ensures Match(classes, "", t) <==> t == ""
    ensures Match(classes, "*", t)
    ensures c != '*' && c != '[' ==> (Match(classes, [c], t) <==> |t| == 1 && (c == '?' || t[0] == c))
    ensures Match(classes, p + q, t) <==> exists k :: MatchesAt(classes, p, q, t, k)
  {
    hide Match;
    EmptyMatches(classes, t);
    StarMatchesAll(classes, t);
    if c != '*' && c != '[' { OneMatches(classes, c, t); }
    if Match(classes, p + q, t) { var k := MatchSplits(classes, p, q, t); }
    if k :| MatchesAt(classes, p, q, t, k) { SplitMatches(classes, p, q, t, k); }
  }

  lemma EmptyMatches(classes: Classes, t: string)
    ensures Match(classes, "", t) <==> t == ""
  {
  }

  lemma {:induction false} ClosingIsFirst(p: string, from: nat)
    ensures var r := Closing(p, from);
            && (r.Some? ==> p[r.value] == ']' && forall i :: from <= i < r.value ==> p[i] != ']')
            && (r.None? <==> forall i :: from <= i < |p| ==> p[i] != ']')
    decreases |p| - from
  {
    if from < |p| && p[from] != ']' { ClosingIsFirst(p, from + 1); }
  }

  /** The position of a class's first character, after the negation mark; a bracket there is a member. */
  function FirstMember(p: string): nat { if |p| > 1 && p[1] == '!' then 2 else 1 }

  /** A class ends at the first closing bracket after its first member. */
  lemma ClassEndExactly(p: string, e: nat)
    requires p != ""
    ensures ClassEnd(p) == Some(e) <==>
            FirstMember(p) < e < |p| && p[e] == ']' && forall i :: FirstMember(p) < i < e ==> p[i] != ']'
    ensures ClassEnd(p) == None <==> forall i :: FirstMember(p) < i < |p| ==> p[i] != ']'
  {
    var first := FirstMember(p);
    ClosingIsFirst(p, if |p| > first && p[first] == ']' then first + 1 else first);
  }

  /** A class takes one character that belongs to it, and a bracket that is never closed stands for itself. */
  lemma ClassMeaning(classes: Classes, p: string, e: nat, t: string)
    requires p != "" && p[0] == '['
    ensures FirstMember(p) < e < |p| && p[e] == ']' && (forall i :: FirstMember(p) < i < e ==> p[i] != ']') ==>
              (Match(classes, p, t) <==> t != "" && classes(p[1..e], t[0]) && Match(classes, p[e + 1..], t[1..]))
    ensures (forall i :: FirstMember(p) < i < |p| ==> p[i] != ']') ==>
              (Match(classes, p, t) <==> t != "" && t[0] == '[' && Match(classes, p[1..], t[1..]))
  {
    ClassEndExactly(p, e);
    hide ClassEnd;
  }

  /** The text before the first star. */
  function Prefix(p: string): (r: string)
    ensures '*' !in r && StartsWith(p, r)
    ensures '*' !in p ==> r == p
  {
    if p == "" || p[0] == '*' then "" else [p[0]] + Prefix(p[1..])
  }

  predicate Overlap(a: string, b: string) {
    if '*' !in a && '*' !in b then a == b
    else StartsWith(Prefix(a), Prefix(b)) || StartsWith(Prefix(b), Prefix(a))
  }

  predicate PlainPrefix(p: string) { '?' !in Prefix(p) && '[' !in Prefix(p) }

  lemma {:induction false} MatchHasPrefix(classes: Classes, p: string, t: string)
    requires PlainPrefix(p) && Match(classes, p, t)
    ensures StartsWith(t, Prefix(p)) && ('*' !in p ==> t == p)
    decreases |p|
  {
    if p != "" && p[0] != '*' {
      assert p[0] in Prefix(p);
      assert forall c :: c in Prefix(p[1..]) ==> c in Prefix(p);
      MatchHasPrefix(classes, p[1..], t[1..]);
      assert t == [t[0]] + t[1..] && p == [p[0]] + p[1..];
    }
  }

  /** Patterns that share a match are reported as overlapping, if nothing special precedes their first star. */
  lemma OverlapSound(classes: Classes, a: string, b: string, t: string)
    requires PlainPrefix(a) && PlainPrefix(b) && Match(classes, a, t) && Match(classes, b, t)
    ensures Overlap(a, b)
  {
    MatchHasPrefix(classes, a, t);
    MatchHasPrefix(classes, b, t);
    var x, y := Prefix(a), Prefix(b);
    if |y| <= |x| { assert x[..|y|] == t[..|x|][..|y|] == y; } else { assert y[..|x|] == t[..|y|][..|x|] == x; }
  }

  // ---------------------------------------------------------------------------------------
  // Where the overlap test is blind
  // ---------------------------------------------------------------------------------------

  /** A text the pattern matches: stars stand for nothing, question marks for a letter. */
  function Instance(p: string): (t: string)
    requires '[' !in p
    ensures '*' !in t && '?' !in t && '[' !in t
    ensures |t| >= |Prefix(p)|
  {
    if p == "" then ""
    else if p[0] == '*' then Instance(p[1..])
    else [if p[0] == '?' then 'x' else p[0]] + Instance(p[1..])
  }

  lemma {:induction false} InstanceMatches(classes: Classes, p: string)
    requires '[' !in p
    ensures Match(classes, p, Instance(p))
  {
    if p != "" {
      InstanceMatches(classes, p[1..]);
      if p[0] != '*' { assert Instance(p)[1..] == Instance(p[1..]); }
    }
  }

  lemma {:induction false} LiteralMatches(classes: Classes, p: string)
    requires '*' !in p && '?' !in p && '[' !in p
    ensures Match(classes, p, p)
  {
    if p != "" { LiteralMatches(classes, p[1..]); }
  }

  lemma StartsWithAt(s: string, prefix: string, i: nat)
    requires i < |prefix|
    ensures StartsWith(s, prefix) ==> s[i] == prefix[i]
  {
    assert StartsWith(s, prefix) ==> s[..|prefix|][i] == s[i];
  }

  /** A text without anything special in it. */
  predicate Ordinary(t: string) { '*' !in t && '?' !in t && '[' !in t }

  /** Where a pattern's first special character stands, a matching text has another one. */
  lemma {:induction false} FirstSpecial(classes: Classes, p: string, t: string) returns (i: nat)
    requires !PlainPrefix(p) && Ordinary(t) && Match(classes, p, t)
    ensures i < |Prefix(p)| && i < |t| && Prefix(p)[i] != t[i]
    decreases |p|
  {
    var x := Prefix(p);
    assert p != "" && p[0] != '*' && x == [p[0]] + Prefix(p[1..]);
    assert t != "" && t[0] in t;
    if p[0] == '?' || p[0] == '[' {
      i := 0;
    } else {
      assert forall c :: c in t[1..] ==> c in t;
      var j := FirstSpecial(classes, p[1..], t[1..]);
      i := j + 1;
    }
  }

  /** So the overlap test never pairs the pattern with such a text, although the text matches both. */
  lemma SpecialIsMissed(classes: Classes, p: string, t: string)
    requires !PlainPrefix(p) && Ordinary(t) && Match(classes, p, t)
    ensures !Overlap(p, t) && Match(classes, t, t)
  {
    var i := FirstSpecial(classes, p, t);
    LiteralMatches(classes, t);
    StartsWithAt(t, Prefix(p), i);
    StartsWithAt(Prefix(p), t, i);
  }

  ghost predicate NeverMissed(classes: Classes, p: string) {
    forall q, t :: PlainPrefix(q) && Match(classes, p, t) && Match(classes, q, t) ==> Overlap(p, q)
  }

  /**
   * The overlap test misses no shared match of a pattern without brackets exactly if no question mark
   * comes before the pattern's first star.
   */
  lemma OverlapMissesExactly(classes: Classes, p: string)
    requires '[' !in p
    ensures NeverMissed(classes, p) <==> '?' !in Prefix(p)
  {
    if '?' !in Prefix(p) {
      BracketFreePrefix(p);
      forall q, t | PlainPrefix(q) && Match(classes, p, t) && Match(classes, q, t) ensures Overlap(p, q) {
        OverlapSound(classes, p, q, t);
      }
    } else {
      var q := Instance(p);
      InstanceMatches(classes, p);
      LiteralMatches(classes, q);
      SpecialIsMissed(classes, p, q);
      assert PlainPrefix(q) && Match(classes, p, q) && Match(classes, q, q);
    }
  }

  lemma BracketFreePrefix(p: string)
    requires '[' !in p
    ensures '[' !in Prefix(p)
  {
    assert p[..|Prefix(p)|] == Prefix(p);
  }

  // ---------------------------------------------------------------------------------------
  // Where the overlap test is too careful
  // ---------------------------------------------------------------------------------------

  /** The patterns the schema is meant for: a literal, or a literal followed by one star. */
  predicate Simple(p: string) {
    '?' !in p && '[' !in p && ('*' !in p || p == Prefix(p) + "*")
  }

  lemma {:induction false} PrefixGlobMatches(classes: Classes, x: string, t: string)
    requires '*' !in x && '?' !in x && '[' !in x
    ensures Match(classes, x + "*", t) <==> StartsWith(t, x)
  {
    var p := x + "*";
    if x == "" {
      assert p == "*";
      StarMatchesAll(classes, t);
    } else {
      assert p[1..] == x[1..] + "*" && p[0] == x[0];
      if t != "" {
        PrefixGlobMatches(classes, x[1..], t[1..]);
        assert t == [t[0]] + t[1..] && x == [x[0]] + x[1..];
        assert StartsWith(t, x) <==> t[0] == x[0] && StartsWith(t[1..], x[1..]);
      }
    }
  }

  lemma SimpleMatches(classes: Classes, p: string, t: string)
    requires Simple(p)
    ensures Match(classes, p, t) <==> if '*' in p then StartsWith(t, Prefix(p)) else t == p
  {
    if '*' in p {
      assert forall c :: c in Prefix(p) ==> c in p;
      PrefixGlobMatches(classes, Prefix(p), t);
    } else {
      LiteralMatches(classes, p);
      if Match(classes, p, t) { MatchHasPrefix(classes, p, t); }
    }
  }

  ghost predicate Common(classes: Classes, a: string, b: string) {
    exists t :: Match(classes, a, t) && Match(classes, b, t)
  }

  /** A literal too short for the other pattern's prefix: reported as overlapping, though nothing matches both. */
  predicate TooShort(a: string, b: string) { '*' !in a && '*' in b && |a| < |Prefix(b)| }

  lemma OverlapExactly(classes: Classes, a: string, b: string)
    requires Simple(a) && Simple(b)
    ensures Common(classes, a, b) <==> Overlap(a, b) && !TooShort(a, b) && !TooShort(b, a)
  {
    hide Match, Prefix;
    if Common(classes, a, b) {
      var t :| Match(classes, a, t) && Match(classes, b, t);
      SimpleMatches(classes, a, t);
      SimpleMatches(classes, b, t);
      BracketFreePrefix(a);
      BracketFreePrefix(b);
      assert (forall c :: c in Prefix(a) ==> c in a) && (forall c :: c in Prefix(b) ==> c in b);
      OverlapSound(classes, a, b, t);
    }
    if Overlap(a, b) && !TooShort(a, b) && !TooShort(b, a) {
      var t := if |Prefix(a)| >= |Prefix(b)| then Prefix(a) else Prefix(b);
      SimpleMatches(classes, a, t);
      SimpleMatches(classes, b, t);
      assert Match(classes, a, t) && Match(classes, b, t);
    }
  }

  // ---------------------------------------------------------------------------------------
  // Rules
  // ---------------------------------------------------------------------------------------

  datatype RuleEffect = Allow | Deny | RequireApproval

  datatype PolicyRule = PolicyRule(
    name: string, effect: RuleEffect, actionPattern: string, resourcePattern: string,
    maxConsequence: Option<int>, maxMonetary: Option<real>, priority: int)

  /** The parts of a proposed action that rules look at; `resource` is the kind and id with a slash between. */
  datatype Action = Action(action: string, resource: string, consequence: int, monetary: Option<real>)

  predicate Matches(classes: Classes, r: PolicyRule, a: Action) {
    && Match(classes, r.actionPattern, a.action) && Match(classes, r.resourcePattern, a.resource)
    && (r.maxConsequence.Some? ==> a.consequence <= r.maxConsequence.value)
    && (r.maxMonetary.Some? ==> a.monetary.Some? && a.monetary.value <= r.maxMonetary.value)
  }

  predicate NotWeaker(a: PolicyRule, b: PolicyRule) { a.priority <= b.priority }

  /** The rules of a bundle, by priority. */
  function Arranged(rs: seq<PolicyRule>): seq<PolicyRule> { Sort(NotWeaker, rs) }

  /** The rules that apply to an action. */
  function Applies(classes: Classes, a: Action): PolicyRule -> bool { (r: PolicyRule) => Matches(classes, r, a) }

  /** The rule a bundle made of these rules decides by. */
  function MatchingRule(classes: Classes, rules: seq<PolicyRule>, a: Action): Option<PolicyRule> {
    First(Applies(classes, a), Arranged(rules))
  }

  method FindRule(classes: Classes, sorted: seq<PolicyRule>, a: Action) returns (r: Option<PolicyRule>)
    ensures r == First(Applies(classes, a), sorted)
  {
    hide Matches;
    for i := 0 to |sorted|
      invariant First(Applies(classes, a), sorted) == First(Applies(classes, a), sorted[i..])
    {
      assert sorted[i..][0] == sorted[i] && sorted[i..][1..] == sorted[i + 1..];
      if Matches(classes, sorted[i], a) { return Some(sorted[i]); }
    }
    return None;
  }

  lemma NotWeakerIsOrder()
    ensures IsOrder(NotWeaker)
  {
  }

  lemma ArrangedIs(rs: seq<PolicyRule>)
    ensures Sorted(NotWeaker, Arranged(rs)) && forall x :: x in Arranged(rs) <==> x in rs
  {
    hide Sort;
    SortSorts(NotWeaker, rs);
    forall x ensures x in Sort(NotWeaker, rs) <==> x in rs { SameElements(Sort(NotWeaker, rs), rs, x); }
  }

  // ---------------------------------------------------------------------------------------
  // Which rule decides
  // ---------------------------------------------------------------------------------------

  /** Both patterns match, and the action stays within the caps; an action without an amount meets no money cap. */
  predicate Candidate(classes: Classes, r: PolicyRule, a: Action) {
    && Match(classes, r.actionPattern, a.action) && Match(classes, r.resourcePattern, a.resource)
    && (r.maxConsequence == None || a.consequence <= r.maxConsequence.value)
    && (r.maxMonetary == None || (a.monetary != None && a.monetary.value <= r.maxMonetary.value))
  }

  lemma AppliesToCandidates(classes: Classes, r: PolicyRule, a: Action)
    ensures Applies(classes, a)(r) <==> Candidate(classes, r, a)
  {
    hide Match;
  }

  /** A candidate with the least priority value, before which no other has the same. */
  ghost predicate Decides(classes: Classes, rules: seq<PolicyRule>, a: Action, i: int) {
    && 0 <= i < |rules| && Candidate(classes, rules[i], a)
    && forall j :: 0 <= j < |rules| && Candidate(classes, rules[j], a) ==>
             rules[i].priority <= rules[j].priority && (j < i ==> rules[i].priority < rules[j].priority)
  }

  /**
   * Sorting stably and taking the first match is choosing, among the rules whose patterns match and
   * whose caps the action respects, the one of least priority value, first listed first.
   */
  lemma MatchingRuleIsBest(classes: Classes, rules: seq<PolicyRule>, a: Action)
    ensures var m := MatchingRule(classes, rules, a);
            && (m == None <==> forall r :: r in rules ==> !Candidate(classes, r, a))
            && (m != None ==> exists i :: Decides(classes, rules, a, i) && m == Some(rules[i]))
  {
    hide Match, Matches, Candidate, Sort, First, Best;
    var p := Applies(classes, a);
    forall r ensures p(r) <==> Candidate(classes, r, a) { AppliesToCandidates(classes, r, a); }
    NotWeakerIsOrder();
    FirstOfSorted(NotWeaker, p, rules);
    BestIs(NotWeaker, p, rules);
    if i :| IsLeast(NotWeaker, p, rules, i) && Best(NotWeaker, p, rules) == Some(rules[i]) {
      assert Decides(classes, rules, a, i);
    }
  }

  /** There is only one such rule. */
  lemma DecidesOne(classes: Classes, rules: seq<PolicyRule>, a: Action, i: int, j: int)
    requires Decides(classes, rules, a, i) && Decides(classes, rules, a, j)
    ensures i == j
  {
    hide Candidate;
  }

  /** A rule decides by itself exactly if it applies; both caps are inclusive. */
  lemma SingleRule(classes: Classes, r: PolicyRule, a: Action)
    ensures EffectOf(classes, [r], a) == if Candidate(classes, r, a) then Some(r.effect) else None
  {
    hide MatchingRule, Candidate;
    MatchingRuleIsBest(classes, [r], a);
    assert r in [r];
    if i :| Decides(classes, [r], a, i) { assert i == 0; }
  }

  /** Whoever is decided on is within the caps of the rule that decides. */
  lemma CapsHold(classes: Classes, rules: seq<PolicyRule>, a: Action)
    requires MatchingRule(classes, rules, a).Some?
    ensures var r := MatchingRule(classes, rules, a).value;
            && r in rules && Match(classes, r.actionPattern, a.action) && Match(classes, r.resourcePattern, a.resource)
            && (r.maxConsequence.Some? ==> a.consequence <= r.maxConsequence.value)
            && (r.maxMonetary.Some? ==> a.monetary.Some? && a.monetary.value <= r.maxMonetary.value)
  {
    hide MatchingRule, Match;
    MatchingRuleIsBest(classes, rules, a);
  }

  /** No more consequence and no larger amount; an unknown amount is not a small one. */
  predicate NotMore(a: Action, b: Action) {
    && a.action == b.action && a.resource == b.resource && a.consequence <= b.consequence
    && (b.monetary.Some? ==> a.monetary.Some? && a.monetary.value <= b.monetary.value)
  }

  /** Asking for less never loses a rule, so an action is decided on whenever a larger one is. */
  lemma LessIsDecided(classes: Classes, rules: seq<PolicyRule>, a: Action, b: Action)
    requires NotMore(a, b) && MatchingRule(classes, rules, b).Some?
    ensures forall r :: Candidate(classes, r, b) ==> Candidate(classes, r, a)
    ensures MatchingRule(classes, rules, a).Some?
    ensures MatchingRule(classes, rules, a).value.priority <= MatchingRule(classes, rules, b).value.priority
  {
    hide MatchingRule, Match;
    MatchingRuleIsBest(classes, rules, a);
    MatchingRuleIsBest(classes, rules, b);
  }

  // ---------------------------------------------------------------------------------------
  // Conflicts
  // ---------------------------------------------------------------------------------------

  predicate Clash(a: PolicyRule, b: PolicyRule) {
    a.effect != b.effect && Overlap(a.actionPattern, b.actionPattern) && Overlap(a.resourcePattern, b.resourcePattern)
  }

  type Conflicts = seq<(string, string)>

  function ConflictsWith(r: PolicyRule, rest: seq<PolicyRule>): Conflicts {
    if rest == [] then []
    else
      var init, last := rest[..|rest| - 1], rest[|rest| - 1];
      if Clash(r, last) then ConflictsWith(r, init) + [(r.name, last.name)] else ConflictsWith(r, init)
  }

  function ConflictsBefore(rules: seq<PolicyRule>, n: nat): Conflicts
    requires n <= |rules|
  {
    if n == 0 then [] else ConflictsBefore(rules, n - 1) + ConflictsWith(rules[n - 1], rules[n..])
  }

  /** The inner loop: one rule against every later one. */
  method DetectWith(r: PolicyRule, rest: seq<PolicyRule>) returns (found: Conflicts)
    ensures found == ConflictsWith(r, rest)
  {
    hide Overlap;
    found := [];
    for j := 0 to |rest|
      invariant found == ConflictsWith(r, rest[..j])
    {
      assert rest[..j + 1][..j] == rest[..j];
      if r.effect == rest[j].effect { continue; }
      if Overlap(r.actionPattern, rest[j].actionPattern) && Overlap(r.resourcePattern, rest[j].resourcePattern) {
        found := found + [(r.name, rest[j].name)];
      }
    }
    assert rest[..|rest|] == rest;
  }

  method DetectConflicts(rules: seq<PolicyRule>) returns (conflicts: Conflicts)
    ensures conflicts == ConflictsBefore(rules, |rules|)
  {
    hide ConflictsWith;
    conflicts := [];
    for i := 0 to |rules|
      invariant conflicts == ConflictsBefore(rules, i)
    {
      var found := DetectWith(rules[i], rules[i + 1..]);
      conflicts := conflicts + found;
    }
  }

  lemma BothWays(a: PolicyRule, b: PolicyRule)
    ensures Clash(a, b) == Clash(b, a)
  {
    hide Prefix, StartsWith;
  }

  lemma {:induction false} NoConflictsWith(r: PolicyRule, rest: seq<PolicyRule>)
    ensures ConflictsWith(r, rest) == [] <==> forall j :: 0 <= j < |rest| ==> !Clash(r, rest[j])
  {
    hide Clash;
    if rest != [] { NoConflictsWith(r, rest[..|rest| - 1]); }
  }

  lemma {:induction false} NoConflictsBefore(rules: seq<PolicyRule>, n: nat)
    requires n <= |rules|
    ensures ConflictsBefore(rules, n) == [] <==>
            forall i, j :: 0 <= i < n && i < j < |rules| ==> !Clash(rules[i], rules[j])
  {
    hide Clash;
    if n > 0 {
      NoConflictsBefore(rules, n - 1);
      NoConflictsWith(rules[n - 1], rules[n..]);
      assert forall j :: n <= j < |rules| ==> rules[j] == rules[n..][j - n];
      assert forall j :: 0 <= j < |rules[n..]| ==> rules[n..][j] == rules[n + j];
    }
  }

  lemma {:induction false} ConflictsWithAre(r: PolicyRule, rest: seq<PolicyRule>, x: string, y: string)
    ensures (x, y) in ConflictsWith(r, rest) <==>
            x == r.name && exists j :: 0 <= j < |rest| && Clash(r, rest[j]) && y == rest[j].name
  {
    hide Clash;
    if rest != [] {
      var init, last := rest[..|rest| - 1], rest[|rest| - 1];
      ConflictsWithAre(r, init, x, y);
      assert rest == init + [last];
      if Clash(r, last) && y == last.name { assert rest[|rest| - 1] == last; }
      if j :| 0 <= j < |init| && Clash(r, init[j]) && y == init[j].name { assert rest[j] == init[j]; }
    }
  }

  /** Two rules that clash, the one that is asked first named first. */
  ghost predicate Clashing(rules: seq<PolicyRule>, n: int, x: string, y: string) {
    exists i, j ::
      0 <= i < n && i < j < |rules| && Clash(rules[i], rules[j]) && (x, y) == (rules[i].name, rules[j].name)
  }

  lemma {:induction false} ConflictsBeforeAre(rules: seq<PolicyRule>, n: nat, x: string, y: string)
    requires n <= |rules|
    ensures (x, y) in ConflictsBefore(rules, n) <==> Clashing(rules, n, x, y)
  {
    hide Clash, ConflictsWith;
    if n > 0 {
      ConflictsBeforeAre(rules, n - 1, x, y);
      ConflictsWithAre(rules[n - 1], rules[n..], x, y);
      if j :| 0 <= j < |rules[n..]| && Clash(rules[n - 1], rules[n..][j]) && y == rules[n..][j].name {
        assert rules[n..][j] == rules[n + j];
      }
      if i, j :|
        0 <= i < n && i < j < |rules| && Clash(rules[i], rules[j]) && (x, y) == (rules[i].name, rules[j].name)
      {
        if i == n - 1 { assert rules[n..][j - n] == rules[j]; }
      }
    }
  }

  /** What is reported is exactly the clashing pairs, each named in the order in which the rules are asked. */
  lemma ConflictsExactly(rules: seq<PolicyRule>, x: string, y: string)
    ensures (x, y) in ConflictsBefore(Arranged(rules), |Arranged(rules)|) <==>
            Clashing(Arranged(rules), |Arranged(rules)|, x, y)
  {
    hide Clash, ConflictsBefore, Sort, Clashing;
    ConflictsBeforeAre(Arranged(rules), |Arranged(rules)|, x, y);
  }

  /** No conflict is reported exactly if no two rules clash, in whatever order they are listed. */
  lemma ConflictFreeExactly(rules: seq<PolicyRule>)
    ensures ConflictsBefore(rules, |rules|) == [] <==> forall r, r' :: r in rules && r' in rules ==> !Clash(r, r')
  {
    hide Overlap;
    NoConflictsBefore(rules, |rules|);
    if ConflictsBefore(rules, |rules|) == [] {
      forall r, r' | r in rules && r' in rules ensures !Clash(r, r') {
        var i :| 0 <= i < |rules| && rules[i] == r;
        var j :| 0 <= j < |rules| && rules[j] == r';
        BothWays(r, r');
      }
    }
  }

  // ---------------------------------------------------------------------------------------
  // Order does not matter
  // ---------------------------------------------------------------------------------------

  predicate PlainRule(r: PolicyRule) { PlainPrefix(r.actionPattern) && PlainPrefix(r.resourcePattern) }

  lemma MatchingRulesAgree(classes: Classes, rules: seq<PolicyRule>, a: Action, r: PolicyRule, r': PolicyRule)
    requires ConflictFree(rules) && PlainRule(r) && PlainRule(r')
    requires r in rules && r' in rules && Matches(classes, r, a) && Matches(classes, r', a)
    ensures r.effect == r'.effect
  {
    hide Overlap, Match, PlainPrefix;
    ArrangedIs(rules);
    ConflictFreeExactly(Arranged(rules));
    OverlapSound(classes, r.actionPattern, r'.actionPattern, a.action);
    OverlapSound(classes, r.resourcePattern, r'.resourcePattern, a.resource);
    assert !Clash(r, r');
  }

  /** What `detect_conflicts` finds in a bundle made of these rules: nothing. */
  predicate ConflictFree(rules: seq<PolicyRule>) { ConflictsBefore(Arranged(rules), |Arranged(rules)|) == [] }

  predicate SameButPriority(r: PolicyRule, r': PolicyRule) { r.(priority := r'.priority) == r' }

  ghost predicate Covers(rules': seq<PolicyRule>, rules: seq<PolicyRule>) {
    forall r :: r in rules ==> exists r' :: r' in rules' && SameButPriority(r, r')
  }

  /** The same rules, in any order and with any priorities. */
  ghost predicate Rearranged(rules: seq<PolicyRule>, rules': seq<PolicyRule>) {
    Covers(rules', rules) && Covers(rules, rules')
  }

  function EffectOf(classes: Classes, rules: seq<PolicyRule>, a: Action): Option<RuleEffect> {
    match MatchingRule(classes, rules, a) case None => None case Some(r) => Some(r.effect)
  }

  lemma EffectIs(classes: Classes, rules: seq<PolicyRule>, a: Action)
    ensures var e := EffectOf(classes, rules, a);
            && (e.Some? ==> exists r :: r in rules && Matches(classes, r, a) && r.effect == e.value)
            && (e.None? <==> forall r :: r in rules ==> !Matches(classes, r, a))
  {
    hide Matches, Sorted, First;
    ArrangedIs(rules);
    FirstIsIn(Applies(classes, a), Arranged(rules));
  }

  lemma PriorityIsNoCondition(classes: Classes, r: PolicyRule, r': PolicyRule, a: Action)
    requires SameButPriority(r, r')
    ensures Matches(classes, r, a) == Matches(classes, r', a) && r.effect == r'.effect
  {
  }

  lemma Counterpart(classes: Classes, rules: seq<PolicyRule>, rules': seq<PolicyRule>, r: PolicyRule,
                    a: Action) returns (r': PolicyRule)
    requires Covers(rules', rules) && r in rules
    ensures r' in rules' && Matches(classes, r, a) == Matches(classes, r', a) && r.effect == r'.effect
  {
    hide Matches;
    r' :| r' in rules' && SameButPriority(r, r');
    PriorityIsNoCondition(classes, r, r', a);
  }

  /**
   * In a bundle without reported conflicts the effect on an action is the same under every order and
   * every choice of priorities, provided nothing special precedes the first star of any pattern of a
   * rule that matches it.
   */
  lemma OrderDoesNotMatter(classes: Classes, rules: seq<PolicyRule>, rules': seq<PolicyRule>, a: Action)
    requires forall r :: r in rules && Matches(classes, r, a) ==> PlainRule(r)
    requires ConflictFree(rules) && Rearranged(rules, rules')
    ensures EffectOf(classes, rules, a) == EffectOf(classes, rules', a)
  {
    hide EffectOf, Matches, ConflictFree, PlainRule, Covers;
    EffectIs(classes, rules, a);
    EffectIs(classes, rules', a);
    if EffectOf(classes, rules', a).Some? {
      var r' :| r' in rules' && Matches(classes, r', a) && r'.effect == EffectOf(classes, rules', a).value;
      var r := Counterpart(classes, rules', rules, r', a);
      var s :| s in rules && Matches(classes, s, a) && s.effect == EffectOf(classes, rules, a).value;
      MatchingRulesAgree(classes, rules, a, r, s);
    } else {
      forall r | r in rules ensures !Matches(classes, r, a) {
        var r' := Counterpart(classes, rules, rules', r, a);
      }
    }
  }

  lemma BestOfTwo(classes: Classes, r: PolicyRule, s: PolicyRule, a: Action)
    requires Matches(classes, r, a) && Matches(classes, s, a)
    ensures EffectOf(classes, [r, s], a) == Some(if s.priority < r.priority then s.effect else r.effect)
  {
    hide Match, MatchingRule, Candidate;
    MatchingRuleIsBest(classes, [r, s], a);
    AppliesToCandidates(classes, r, a);
    AppliesToCandidates(classes, s, a);
    assert r in [r, s] && [r, s][0] == r && [r, s][1] == s;
    var i :| Decides(classes, [r, s], a, i) && MatchingRule(classes, [r, s], a) == Some([r, s][i]);
    assert i == 0 || i == 1;
  }

  /** With a question mark the order can matter and nothing is reported. */
  lemma QuestionMarkHidesConflict(classes: Classes)
    ensures var allow, deny :=
              PolicyRule("a", Allow, "pay?", "*", None, None, 1), PolicyRule("d", Deny, "payx", "*", None, None, 2);
            var a := Action("payx", "acct/1", 0, None);
            && ConflictFree([allow, deny])
            && EffectOf(classes, [allow, deny], a) == Some(Allow)
            && EffectOf(classes, [allow.(priority := 3), deny], a) == Some(Deny)
  {
    hide Match, Overlap, EffectOf, ConflictFree, Instance, Prefix;
    var allow, deny :=
          PolicyRule("a", Allow, "pay?", "*", None, None, 1), PolicyRule("d", Deny, "payx", "*", None, None, 2);
    var a := Action("payx", "acct/1", 0, None);
    StarMatchesAll(classes, "acct/1");
    LiteralMatches(classes, "payx");
    PayInstance();
    InstanceMatches(classes, "pay?");
    SpecialIsMissed(classes, "pay?", "payx");
    BestOfTwo(classes, allow, deny, a);
    BestOfTwo(classes, allow.(priority := 3), deny, a);
    FreeOfTwo(allow, deny);
  }

  lemma FreeOfTwo(r: PolicyRule, s: PolicyRule)
    requires !Clash(r, s)
    ensures ConflictFree([r, s])
  {
    hide Overlap;
    ArrangedIs([r, s]);
    ConflictFreeExactly(Arranged([r, s]));
    BothWays(r, s);
    forall x, y | x in Arranged([r, s]) && y in Arranged([r, s]) ensures !Clash(x, y) {
      assert x in [r, s] && y in [r, s];
    }
  }

  lemma PayInstance()
    ensures Instance("pay?") == "payx" && '?' in Prefix("pay?")
  {
    assert "pay?"[1..] == "ay?" && "ay?"[1..] == "y?" && "y?"[1..] == "?" && "?"[1..] == "";
    assert Instance("?") == "x" && Instance("y?") == "yx";
    assert Prefix("pay?") == "pay?" && "pay?"[3] == '?';
  }

  // ---------------------------------------------------------------------------------------
  // Which patterns make order safe
  // ---------------------------------------------------------------------------------------

  /** The names that actions, or resources, can have. */
  type Names = string -> bool

  ghost predicate AreNames(names: Names) { (forall t :: names(t) ==> Ordinary(t)) && exists t :: names(t) }

  predicate IsWordChar(c: char) { 'A' <= c <= 'Z' || 'a' <= c <= 'z' || '0' <= c <= '9' }

  predicate IsMark(c: char) { c == '.' || c == '_' || c == ':' || c == '@' || c == '/' || c == '-' }

  function Body(t: string): string { if t != "" && t[|t| - 1] == '\n' then t[..|t| - 1] else t }

  /** A validated identifier; the validating pattern lets one newline pass at the very end. */
  predicate IsIdentifier(t: string) {
    var body := Body(t);
    && 0 < |body| && |t| <= 256 && IsWordChar(body[0])
    && forall i :: 0 <= i < |body| ==> IsWordChar(body[i]) || IsMark(body[i])
  }

  /** A resource's kind and id with a slash between. */
  ghost predicate IsPath(t: string) {
    exists kind, id :: IsIdentifier(kind) && IsIdentifier(id) && t == kind + "/" + id
  }

  lemma IdentifierIsOrdinary(t: string)
    requires IsIdentifier(t)
    ensures Ordinary(t)
  {
    forall i | 0 <= i < |t| ensures t[i] != '*' && t[i] != '?' && t[i] != '[' {
      if i < |Body(t)| { assert Body(t)[i] == t[i]; }
    }
  }

  /** The action and resource names of the source are such names. */
  lemma IdentifiersAreNames()
    ensures AreNames(IsIdentifier) && AreNames(IsPath)
  {
    hide IsIdentifier;
    forall t | IsIdentifier(t) ensures Ordinary(t) { IdentifierIsOrdinary(t); }
    forall t | IsPath(t) ensures Ordinary(t) {
      var kind, id :| IsIdentifier(kind) && IsIdentifier(id) && t == kind + "/" + id;
      IdentifierIsOrdinary(kind);
      IdentifierIsOrdinary(id);
    }
    LetterIsIdentifier();
    assert IsPath("a/a") by { assert "a/a" == "a" + "/" + "a"; }
  }

  lemma LetterIsIdentifier()
    ensures IsIdentifier("a")
  {
  }

  ghost predicate MatchesSome(classes: Classes, names: Names, p: string) {
    exists t :: names(t) && Match(classes, p, t)
  }

  /** Rules whose patterns are among the given ones, or have nothing special before their first star. */
  ghost predicate UsesOnly(actions: set<string>, resources: set<string>, rules: seq<PolicyRule>) {
    forall r :: r in rules ==>
             && (r.actionPattern in actions || PlainPrefix(r.actionPattern))
             && (r.resourcePattern in resources || PlainPrefix(r.resourcePattern))
  }

  /** Every bundle of such rules without reported conflicts has one effect on each action, in every order. */
  ghost predicate OrderFree(classes: Classes, names: Names, paths: Names, actions: set<string>,
                            resources: set<string>) {
    forall rules, rules', a: Action ::
      && names(a.action) && paths(a.resource)
      && UsesOnly(actions, resources, rules) && ConflictFree(rules) && Rearranged(rules, rules') ==>
      EffectOf(classes, rules, a) == EffectOf(classes, rules', a)
  }

  /** Each pattern has nothing special before its first star, or matches no name at all. */
  ghost predicate Harmless(classes: Classes, names: Names, patterns: set<string>) {
    forall p :: p in patterns ==> PlainPrefix(p) || !MatchesSome(classes, names, p)
  }

  lemma HarmlessIsFree(classes: Classes, names: Names, paths: Names, actions: set<string>, resources: set<string>)
    requires Harmless(classes, names, actions) && Harmless(classes, paths, resources)
    ensures OrderFree(classes, names, paths, actions, resources)
  {
    hide PlainPrefix, ConflictFree, Rearranged, EffectOf, Match;
    forall rules, rules', a: Action | names(a.action) && paths(a.resource)
             && UsesOnly(actions, resources, rules) && ConflictFree(rules) && Rearranged(rules, rules')
      ensures EffectOf(classes, rules, a) == EffectOf(classes, rules', a)
    {
      OrderDoesNotMatter(classes, rules, rules', a);
    }
  }

  lemma RearrangedTwo(r: PolicyRule, r': PolicyRule, s: PolicyRule)
    requires SameButPriority(r, r')
    ensures Rearranged([r, s], [r', s])
  {
    forall x | x in [r, s] ensures exists x' :: x' in [r', s] && SameButPriority(x, x') {
      var x' := if x == r then r' else s;
      assert x' in [r', s] && SameButPriority(x, x');
    }
    forall x | x in [r', s] ensures exists x' :: x' in [r, s] && SameButPriority(x, x') {
      var x' := if x == r' then r else s;
      assert x' in [r, s] && SameButPriority(x, x');
    }
  }

  /** A rule and a literal one that it really overlaps with, unreported, decide by their priorities. */
  lemma OrderMatters(classes: Classes, allow: PolicyRule, deny: PolicyRule, a: Action)
    requires allow.priority == 1 && deny.priority == 2 && allow.effect == Allow && deny.effect == Deny
    requires Matches(classes, allow, a) && Matches(classes, deny, a) && !Clash(allow, deny)
    ensures var rules, rules' := [allow, deny], [allow.(priority := 3), deny];
            && ConflictFree(rules) && Rearranged(rules, rules')
            && EffectOf(classes, rules, a) != EffectOf(classes, rules', a)
  {
    hide Match, Overlap, EffectOf, ConflictFree, Rearranged;
    BestOfTwo(classes, allow, deny, a);
    BestOfTwo(classes, allow.(priority := 3), deny, a);
    FreeOfTwo(allow, deny);
    RearrangedTwo(allow, allow.(priority := 3), deny);
  }

  lemma SpecialActionMatters(classes: Classes, names: Names, paths: Names, actions: set<string>, resources: set<string>,
                             p: string, t: string, path: string)
    requires p in actions && !PlainPrefix(p) && names(t) && Ordinary(t) && Match(classes, p, t) && paths(path)
    ensures !OrderFree(classes, names, paths, actions, resources)
  {
    hide Match, Overlap, Prefix, EffectOf, ConflictFree, Rearranged;
    var allow, deny := PolicyRule("a", Allow, p, "*", None, None, 1), PolicyRule("d", Deny, t, "*", None, None, 2);
    var a := Action(t, path, 0, None);
    StarMatchesAll(classes, path);
    StarIsPlain();
    SpecialIsMissed(classes, p, t);
    OrderMatters(classes, allow, deny, a);
    assert PlainPrefix(t);
    assert UsesOnly(actions, resources, [allow, deny]);
  }

  lemma SpecialResourceMatters(classes: Classes, names: Names, paths: Names, actions: set<string>,
                               resources: set<string>, p: string, t: string, name: string)
    requires p in resources && !PlainPrefix(p) && paths(t) && Ordinary(t) && Match(classes, p, t) && names(name)
    ensures !OrderFree(classes, names, paths, actions, resources)
  {
    hide Match, Overlap, Prefix, EffectOf, ConflictFree, Rearranged;
    var allow, deny := PolicyRule("a", Allow, "*", p, None, None, 1), PolicyRule("d", Deny, "*", t, None, None, 2);
    var a := Action(name, t, 0, None);
    StarMatchesAll(classes, name);
    StarIsPlain();
    SpecialIsMissed(classes, p, t);
    OrderMatters(classes, allow, deny, a);
    assert PlainPrefix(t);
    assert UsesOnly(actions, resources, [allow, deny]);
  }

  lemma StarIsPlain()
    ensures PlainPrefix("*")
  {
  }

  /**
   * For any patterns: every bundle of them and plain rules that reports no conflict gives each action
   * one effect under every order and priority, exactly if each pattern has neither a question mark nor
   * a bracket before its first star, or matches no name that exists.
   */
  lemma OrderFreeExactly(classes: Classes, names: Names, paths: Names, actions: set<string>, resources: set<string>)
    requires AreNames(names) && AreNames(paths)
    ensures OrderFree(classes, names, paths, actions, resources) <==>
            Harmless(classes, names, actions) && Harmless(classes, paths, resources)
  {
    hide OrderFree, PlainPrefix, Match;
    if !Harmless(classes, names, actions) {
      var p :| p in actions && !PlainPrefix(p) && MatchesSome(classes, names, p);
      var t :| names(t) && Match(classes, p, t);
      var path :| paths(path);
      SpecialActionMatters(classes, names, paths, actions, resources, p, t, path);
    } else if !Harmless(classes, paths, resources) {
      var p :| p in resources && !PlainPrefix(p) && MatchesSome(classes, paths, p);
      var t :| paths(t) && Match(classes, p, t);
      var name :| names(name);
      SpecialResourceMatters(classes, names, paths, actions, resources, p, t, name);
    } else {
      HarmlessIsFree(classes, names, paths, actions, resources);
    }
  }

  /** Without brackets, and with every ordinary text a possible name, only the question mark does harm. */
  lemma BracketFreeHarmless(classes: Classes, patterns: set<string>)
    requires forall p :: p in patterns ==> '[' !in p
    ensures Harmless(classes, Ordinary, patterns) <==> forall p :: p in patterns ==> '?' !in Prefix(p)
  {
    hide Match, Prefix, Instance;
    forall p | p in patterns ensures PlainPrefix(p) || !MatchesSome(classes, Ordinary, p) <==> '?' !in Prefix(p) {
      BracketFreePrefix(p);
      InstanceMatches(classes, p);
      assert Ordinary(Instance(p)) && Match(classes, p, Instance(p));
    }
  }
}
