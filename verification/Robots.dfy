/** Which robots.txt rule decides about a path (src/robots/matcher.ts, section 2.2 of RFC 9309). */
module Robots {
  import opened Prelude
  import opened RobotsText
  import opened Unicode

  datatype Directive = Allow | Disallow

  datatype Rule = Rule(directive: Directive, path: string)

  datatype Group = Group(agents: seq<string>, rules: seq<Rule>, crawlDelaySeconds: Option<real>)

  datatype Fallback = AllowAll | DisallowAll | SeedOnly

  datatype Policy = Policy(groups: seq<Group>, unavailableMode: Option<Fallback>)

  // ---------------------------------------------------------------------------------------
  // Patterns

  /** The characters that a dot of a regular expression does not match. */
  predicate IsLineEnd(c: char) {
    c == '\n' || c == '\r' || c as int == 0x2028 || c as int == 0x2029
  }

  /** Literals and stars from the start of the path, to its end when the pattern is anchored. */
  predicate MatchesFrom(pattern: string, path: string, anchored: bool)
    decreases |pattern| + |path|
  {
    if |pattern| == 0 then !anchored || |path| == 0
    else if pattern[0] == '*' then
      MatchesFrom(pattern[1..], path, anchored) ||
      (|path| > 0 && !IsLineEnd(path[0]) && MatchesFrom(pattern, path[1..], anchored))
    else |path| > 0 && path[0] == pattern[0] && MatchesFrom(pattern[1..], path[1..], anchored)
  }

  predicate EndsInDollar(pattern: string) {
    |pattern| > 0 && pattern[|pattern| - 1] == '$'
  }

  predicate PathMatches(pattern: string, path: string) {
    if EndsInDollar(pattern) then MatchesFrom(pattern[..|pattern| - 1], path, true)
    else MatchesFrom(pattern, path, false)
  }

  function WithoutStars(pattern: string): string {
    if |pattern| == 0 then ""
    else if pattern[0] == '*' then WithoutStars(pattern[1..])
    else [pattern[0]] + WithoutStars(pattern[1..])
  }

  predicate IsUpperHex(c: char) {
    '0' <= c <= '9' || 'A' <= c <= 'F'
  }

  /** Octets of the text, an escape counting as the one it stands for. */
  function Octets(s: string): nat {
    if |s| == 0 then 0
    else if s[0] == '%' && |s| >= 3 && IsUpperHex(s[1]) && IsUpperHex(s[2]) then 1 + Octets(s[3..])
    else |Utf8(s[0])| + Octets(s[1..])
  }

  function Specificity(pattern: string): nat {
    var semantic := WithoutStars(pattern);
    Octets(if EndsInDollar(semantic) then semantic[..|semantic| - 1] else semantic)
  }

  // ---------------------------------------------------------------------------------------
  // Rules

  predicate Applies(rule: Rule, path: string) {
    !(rule.path == "" && rule.directive.Disallow?) && PathMatches(Normalize(rule.path, true), path)
  }

  function Weight(rule: Rule): nat {
    Specificity(Normalize(rule.path, true))
  }

  /** The rule chosen applies, none that applies is more specific, and an allow wins a tie. */
  ghost predicate IsBest(rules: seq<Rule>, path: string, best: Option<Rule>) {
    match best
    case None => forall r :: r in rules ==> !Applies(r, path)
    case Some(b) =>
      && b in rules && Applies(b, path)
      && (forall r :: r in rules && Applies(r, path) ==> Weight(r) <= Weight(b))
      && (b.directive.Disallow? ==>
            forall r :: r in rules && Applies(r, path) && r.directive.Allow? ==> Weight(r) < Weight(b))
  }

  method BestRule(rules: seq<Rule>, path: string) returns (best: Option<Rule>)
    ensures IsBest(rules, path, best)
    ensures best == Best(rules, path)
  {
    best := None;
    var bestSpecificity: int := -1;
    for i := 0 to |rules|
      invariant best == Best(rules[..i], path)
      invariant bestSpecificity == if best.Some? then Weight(best.value) else -1
    {
      assert rules[..i + 1][..i] == rules[..i];
      var rule := rules[i];
      if rule.path == "" && rule.directive.Disallow? {
        continue;
      }
      var pattern := Normalize(rule.path, true);
      if !PathMatches(pattern, path) {
        continue;
      }
      var specificity := Specificity(pattern);
      if specificity > bestSpecificity || (specificity == bestSpecificity && rule.directive.Allow?) {
        best, bestSpecificity := Some(rule), specificity;
      }
    }
    assert rules[..|rules|] == rules;
    BestIsBest(rules, path);
  }

  function Best(rules: seq<Rule>, path: string): Option<Rule> {
    if |rules| == 0 then None else
      var best := Best(rules[..|rules| - 1], path);
      var rule := rules[|rules| - 1];
      if Applies(rule, path) &&
         (best.None? || Weight(rule) > Weight(best.value) || (Weight(rule) == Weight(best.value) && rule.directive.Allow?))
      then Some(rule) else best
  }

  lemma {:induction false} BestIsBest(rules: seq<Rule>, path: string)
    ensures IsBest(rules, path, Best(rules, path))
  {
    if |rules| > 0 {
      var front := rules[..|rules| - 1];
      BestIsBest(front, path);
      assert rules == front + [rules[|rules| - 1]];
    }
  }

  /** The verdict of section 2.2.2, without any order among the rules: a disallow that applies must
      be matched by an allow that applies and is at least as specific. */
  ghost predicate Permits(rules: set<Rule>, path: string) {
    forall d :: d in rules && d.directive.Disallow? && Applies(d, path) ==>
      exists a :: a in rules && a.directive.Allow? && Applies(a, path) && Weight(a) >= Weight(d)
  }

  function VerdictOf(best: Option<Rule>): bool {
    best.None? || best.value.directive.Allow?
  }

  lemma VerdictIsDeclarative(rules: seq<Rule>, path: string)
    ensures VerdictOf(Best(rules, path)) <==> Permits((set r | r in rules), path)
  {
    BestIsBest(rules, path);
    var best := Best(rules, path);
    if best.Some? && best.value.directive.Disallow? {
      assert best.value in (set r | r in rules);
    }
  }

  // ---------------------------------------------------------------------------------------
  // Groups

  predicate Includes(text: string, part: string) {
    exists i :: 0 <= i <= |text| && part <= text[i..]
  }

  function AgentMatch(agent: string, token: string, lower: string -> string): int {
    if agent == "*" then 0
    else if Includes(token, lower(agent)) then |agent| else -1
  }

  /** Math.max over no agents at all is below every length. */
  function GroupMatch(agents: seq<string>, token: string, lower: string -> string): (n: int)
    ensures n >= -1
  {
    if |agents| == 0 then -1 else
      var first, rest := AgentMatch(agents[0], token, lower), GroupMatch(agents[1..], token, lower);
      if first >= rest then first else rest
  }

  /** The groups are matched by the longest of their agents; those that match longest of all count. */
  method MatchingGroups(groups: seq<Group>, productToken: string, lower: string -> string) returns (matched: seq<Group>)
    ensures matched == Longest(groups, lower(productToken), lower)
  {
    var token := lower(productToken);
    var bestLength: int := -1;
    matched := [];
    for i := 0 to |groups|
      invariant bestLength == BestLength(groups[..i], token, lower)
      invariant matched == Longest(groups[..i], token, lower)
    {
      var length := GroupMatch(groups[i].agents, token, lower);
      assert groups[..i + 1] == groups[..i] + [groups[i]];
      GroupJoins(groups[..i], groups[i], token, lower);
      if length < 0 || length < bestLength {
        continue;
      }
      if length > bestLength {
        matched, bestLength := [], length;
      }
      matched := matched + [groups[i]];
    }
    assert groups[..|groups|] == groups;
  }

  function BestLength(groups: seq<Group>, token: string, lower: string -> string): (n: int)
    ensures n >= -1
  {
    if |groups| == 0 then -1 else
      var n := BestLength(groups[..|groups| - 1], token, lower);
      var m := GroupMatch(groups[|groups| - 1].agents, token, lower);
      if m > n then m else n
  }

  function OfLength(groups: seq<Group>, n: int, token: string, lower: string -> string): seq<Group> {
    if |groups| == 0 then [] else
      var last := groups[|groups| - 1];
      OfLength(groups[..|groups| - 1], n, token, lower) + if GroupMatch(last.agents, token, lower) == n then [last] else []
  }

  lemma {:induction false} BestLengthIsBest(groups: seq<Group>, token: string, lower: string -> string)
    ensures var n := BestLength(groups, token, lower);
            && (forall g :: g in groups ==> GroupMatch(g.agents, token, lower) <= n)
            && (n >= 0 ==> exists g :: g in groups && GroupMatch(g.agents, token, lower) == n)
  {
    if |groups| > 0 {
      var front, last := groups[..|groups| - 1], groups[|groups| - 1];
      assert groups == front + [last];
      BestLengthIsBest(front, token, lower);
    }
  }

  lemma {:induction false} OfLengthSelects(groups: seq<Group>, n: int, token: string, lower: string -> string)
    ensures forall g :: g in OfLength(groups, n, token, lower) <==> g in groups && GroupMatch(g.agents, token, lower) == n
  {
    if |groups| > 0 {
      var front, last := groups[..|groups| - 1], groups[|groups| - 1];
      assert groups == front + [last];
      OfLengthSelects(front, n, token, lower);
    }
  }

  function Longest(groups: seq<Group>, token: string, lower: string -> string): seq<Group> {
    var n := BestLength(groups, token, lower);
    if n < 0 then [] else OfLength(groups, n, token, lower)
  }

  lemma {:induction false} NoneOfLength(groups: seq<Group>, n: int, token: string, lower: string -> string)
    requires n > BestLength(groups, token, lower)
    ensures OfLength(groups, n, token, lower) == []
  {
    if |groups| > 0 {
      NoneOfLength(groups[..|groups| - 1], n, token, lower);
    }
  }

  lemma GroupJoins(groups: seq<Group>, g: Group, token: string, lower: string -> string)
    ensures var m, n := GroupMatch(g.agents, token, lower), BestLength(groups, token, lower);
            && BestLength(groups + [g], token, lower) == (if m > n then m else n)
            && Longest(groups + [g], token, lower) ==
               if m < 0 || m < n then Longest(groups, token, lower)
               else if m > n then [g] else Longest(groups, token, lower) + [g]
  {
    assert (groups + [g])[..|groups|] == groups;
    var m, n := GroupMatch(g.agents, token, lower), BestLength(groups, token, lower);
    if m > n {
      NoneOfLength(groups, m, token, lower);
    }
  }

  function RulesOf(groups: seq<Group>): (rules: seq<Rule>)
    ensures forall r :: r in rules <==> exists g :: g in groups && r in g.rules
  {
    if |groups| == 0 then [] else
      assert groups == groups[..|groups| - 1] + [groups[|groups| - 1]];
      RulesOf(groups[..|groups| - 1]) + groups[|groups| - 1].rules
  }

  /** decisionForPath, without the words of the reason. */
  function IsAllowed(policy: Policy, productToken: string, path: string, isSeed: bool, lower: string -> string): bool {
    match policy.unavailableMode
    case Some(mode) => mode.AllowAll? || (mode.SeedOnly? && isSeed)
    case None =>
      VerdictOf(Best(RulesOf(Longest(policy.groups, lower(productToken), lower)), Normalize(path, false)))
  }

  method DecisionForPath(policy: Policy, productToken: string, path: string, isSeed: bool, lower: string -> string)
    returns (allowed: bool, matched: Option<Rule>)
    ensures allowed == IsAllowed(policy, productToken, path, isSeed, lower)
    ensures policy.unavailableMode == Some(AllowAll) ==> allowed
    ensures policy.unavailableMode == Some(DisallowAll) ==> !allowed
    ensures policy.unavailableMode == Some(SeedOnly) ==> allowed == isSeed
    ensures policy.unavailableMode.None? ==>
              IsBest(RulesOf(Longest(policy.groups, lower(productToken), lower)), Normalize(path, false), matched)
  {
    if policy.unavailableMode.Some? {
      var mode := policy.unavailableMode.value;
      return mode.AllowAll? || (mode.SeedOnly? && isSeed), None;
    }
    var normalizedPath := NormalizeRobotsValue(path, false);
    var groups := MatchingGroups(policy.groups, productToken, lower);
    matched := BestRule(RulesOf(groups), normalizedPath);
    allowed := VerdictOf(matched);
  }

  // ---------------------------------------------------------------------------------------
  // What a robots.txt says, however it is laid out

  /** Which lists of agents the groups are for, and which rules stand under which of them. */
  ghost function AgentsIn(groups: seq<Group>): set<seq<string>> {
    set g | g in groups :: g.agents
  }

  ghost predicate StandsUnder(groups: seq<Group>, agents: seq<string>, rule: Rule) {
    exists g :: g in groups && g.agents == agents && rule in g.rules
  }

  lemma SameBestLength(a: seq<Group>, b: seq<Group>, token: string, lower: string -> string)
    requires AgentsIn(a) <= AgentsIn(b)
    ensures BestLength(a, token, lower) <= BestLength(b, token, lower)
  {
    BestLengthIsBest(a, token, lower);
    BestLengthIsBest(b, token, lower);
    if BestLength(a, token, lower) >= 0 {
      var g :| g in a && GroupMatch(g.agents, token, lower) == BestLength(a, token, lower);
      assert g.agents in AgentsIn(b);
      var h :| h in b && h.agents == g.agents;
    }
  }

  lemma RuleCounts(groups: seq<Group>, rule: Rule, token: string, lower: string -> string)
    ensures rule in RulesOf(Longest(groups, token, lower)) <==>
              BestLength(groups, token, lower) >= 0 &&
              exists agents :: GroupMatch(agents, token, lower) == BestLength(groups, token, lower) && StandsUnder(groups, agents, rule)
  {
    var longest := Longest(groups, token, lower);
    OfLengthSelects(groups, BestLength(groups, token, lower), token, lower);
    if rule in RulesOf(longest) {
      var g :| g in longest && rule in g.rules;
      assert StandsUnder(groups, g.agents, rule);
    }
    if BestLength(groups, token, lower) >= 0 {
      if agents :| GroupMatch(agents, token, lower) == BestLength(groups, token, lower) && StandsUnder(groups, agents, rule) {
        var g :| g in groups && g.agents == agents && rule in g.rules;
        assert g in longest;
      }
    }
  }

  /** The verdict depends on nothing but which rules stand under which agents: reordering rules or
      groups, repeating them, and splitting a group or merging two for the same agents change no
      verdict. */
  lemma LayoutDoesNotMatter(
      a: Policy, b: Policy, productToken: string, path: string, isSeed: bool, lower: string -> string)
    requires a.unavailableMode == b.unavailableMode && AgentsIn(a.groups) == AgentsIn(b.groups)
    requires forall agents, rule :: StandsUnder(a.groups, agents, rule) <==> StandsUnder(b.groups, agents, rule)
    ensures IsAllowed(a, productToken, path, isSeed, lower) == IsAllowed(b, productToken, path, isSeed, lower)
  {
    if a.unavailableMode.None? {
      var token := lower(productToken);
      SameBestLength(a.groups, b.groups, token, lower);
      SameBestLength(b.groups, a.groups, token, lower);
      var r, s := RulesOf(Longest(a.groups, token, lower)), RulesOf(Longest(b.groups, token, lower));
      forall rule ensures rule in r <==> rule in s {
        RuleCounts(a.groups, rule, token, lower);
        RuleCounts(b.groups, rule, token, lower);
      }
      assert (set x | x in r) == (set x | x in s);
      VerdictIsDeclarative(r, Normalize(path, false));
      VerdictIsDeclarative(s, Normalize(path, false));
    }
  }

  /** Splitting a group in two under the same agents is one such change of layout. */
  lemma SplittingGroups(
      before: seq<Group>, g: Group, first: seq<Rule>, second: seq<Rule>, behind: seq<Group>,
      productToken: string, path: string, isSeed: bool, lower: string -> string)
    requires g.rules == first + second
    ensures IsAllowed(Policy(before + [g] + behind, None), productToken, path, isSeed, lower) ==
            IsAllowed(Policy(before + [g.(rules := first), g.(rules := second)] + behind, None),
                      productToken, path, isSeed, lower)
  {
    var one, two := g.(rules := first), g.(rules := second);
    var a, b := before + [g] + behind, before + [one, two] + behind;
    assert forall h :: h in a <==> h in before || h == g || h in behind;
    assert forall h :: h in b <==> h in before || h == one || h == two || h in behind;
    forall agents, rule
      ensures StandsUnder(a, agents, rule) <==> StandsUnder(b, agents, rule)
    {
      assert rule in g.rules <==> rule in one.rules || rule in two.rules;
    }
    LayoutDoesNotMatter(Policy(a, None), Policy(b, None), productToken, path, isSeed, lower);
  }

  /** Spellings with one normal form get one verdict. */
  lemma SpellingDoesNotMatter(
      policy: Policy, other: Policy, productToken: string, path: string, otherPath: string, isSeed: bool, lower: string -> string)
    requires policy.unavailableMode == other.unavailableMode && |policy.groups| == |other.groups|
    requires forall i :: 0 <= i < |policy.groups| ==> SameGroup(policy.groups[i], other.groups[i])
    requires Normal(path) == Normal(otherPath)
    ensures IsAllowed(policy, productToken, path, isSeed, lower) == IsAllowed(other, productToken, otherPath, isSeed, lower)
  {
    if policy.unavailableMode.None? {
      var token := lower(productToken);
      SameGroupsMatch(policy.groups, other.groups, token, lower);
      var r, s := RulesOf(Longest(policy.groups, token, lower)), RulesOf(Longest(other.groups, token, lower));
      SameRulesChoose(r, s, Normal(path));
    }
  }

  ghost predicate SameRule(r: Rule, s: Rule) {
    r.directive == s.directive && Normal(r.path) == Normal(s.path)
  }

  ghost predicate SameGroup(g: Group, h: Group) {
    g.agents == h.agents && |g.rules| == |h.rules| && forall k :: 0 <= k < |g.rules| ==> SameRule(g.rules[k], h.rules[k])
  }

  lemma {:induction false} EmptyStaysEmpty(s: string)
    ensures Normal(s) == "" <==> s == ""
  {
    if |s| > 0 && !StartsEscape(s) && s[0] as int >= 128 {
      assert Normal(s)[0] == '%';
    }
  }

  lemma SameRuleApplies(r: Rule, s: Rule, path: string)
    requires SameRule(r, s)
    ensures Applies(r, path) == Applies(s, path) && Weight(r) == Weight(s)
  {
    EmptyStaysEmpty(r.path);
    EmptyStaysEmpty(s.path);
    SyntaxIsPreservedAnyway(r.path);
    SyntaxIsPreservedAnyway(s.path);
  }

  lemma {:induction false} SameRulesChoose(r: seq<Rule>, s: seq<Rule>, path: string)
    requires |r| == |s| && forall k :: 0 <= k < |r| ==> SameRule(r[k], s[k])
    ensures Best(r, path).Some? <==> Best(s, path).Some?
    ensures Best(r, path).Some? ==> SameRule(Best(r, path).value, Best(s, path).value)
  {
    if |r| > 0 {
      var n := |r| - 1;
      SameRulesChoose(r[..n], s[..n], path);
      SameRuleApplies(r[n], s[n], path);
      if Best(r[..n], path).Some? {
        SameRuleApplies(Best(r[..n], path).value, Best(s[..n], path).value, path);
      }
    }
  }

  lemma {:induction false} SameGroupsMatch(a: seq<Group>, b: seq<Group>, token: string, lower: string -> string)
    requires |a| == |b| && forall i :: 0 <= i < |a| ==> SameGroup(a[i], b[i])
    ensures BestLength(a, token, lower) == BestLength(b, token, lower)
    ensures var r, s := RulesOf(Longest(a, token, lower)), RulesOf(Longest(b, token, lower));
            |r| == |s| && forall k :: 0 <= k < |r| ==> SameRule(r[k], s[k])
  {
    SameLengths(a, b, token, lower);
    SameOfLength(a, b, BestLength(a, token, lower), token, lower);
  }

  lemma {:induction false} SameLengths(a: seq<Group>, b: seq<Group>, token: string, lower: string -> string)
    requires |a| == |b| && forall i :: 0 <= i < |a| ==> SameGroup(a[i], b[i])
    ensures BestLength(a, token, lower) == BestLength(b, token, lower)
  {
    if |a| > 0 {
      SameLengths(a[..|a| - 1], b[..|b| - 1], token, lower);
    }
  }

  lemma {:induction false} SameOfLength(a: seq<Group>, b: seq<Group>, n: int, token: string, lower: string -> string)
    requires |a| == |b| && forall i :: 0 <= i < |a| ==> SameGroup(a[i], b[i])
    ensures var r, s := RulesOf(OfLength(a, n, token, lower)), RulesOf(OfLength(b, n, token, lower));
            |r| == |s| && forall k :: 0 <= k < |r| ==> SameRule(r[k], s[k])
  {
    if |a| > 0 {
      var m := |a| - 1;
      SameOfLength(a[..m], b[..m], n, token, lower);
      if GroupMatch(a[m].agents, token, lower) == n {
        RulesAppend(OfLength(a[..m], n, token, lower), a[m]);
        RulesAppend(OfLength(b[..m], n, token, lower), b[m]);
      } else {
        assert OfLength(a, n, token, lower) == OfLength(a[..m], n, token, lower);
        assert OfLength(b, n, token, lower) == OfLength(b[..m], n, token, lower);
      }
    }
  }

  lemma RulesAppend(groups: seq<Group>, g: Group)
    ensures RulesOf(groups + [g]) == RulesOf(groups) + g.rules
  {
    assert (groups + [g])[..|groups|] == groups;
  }

  // ---------------------------------------------------------------------------------------
  // Patterns without stars, and stars at the end

  /** A pattern without stars matches the paths that begin with it, or that equal it. */
  lemma {:induction false} LiteralsMatchPrefixes(pattern: string, path: string, anchored: bool)
    requires '*' !in pattern
    ensures MatchesFrom(pattern, path, anchored) <==> pattern <= path && (anchored ==> pattern == path)
  {
    if |pattern| > 0 {
      if |path| > 0 {
        assert pattern[0] in pattern;
        assert forall c :: c in pattern[1..] ==> c in pattern;
        LiteralsMatchPrefixes(pattern[1..], path[1..], anchored);
        assert pattern == [pattern[0]] + pattern[1..] && path == [path[0]] + path[1..];
      }
    }
  }

  /** A star at the end of a pattern that is not anchored says nothing. */
  lemma {:induction false} TrailingStarSaysNothing(pattern: string, path: string)
    ensures MatchesFrom(pattern + "*", path, false) <==> MatchesFrom(pattern, path, false)
    decreases |pattern| + |path|
  {
    var longer := pattern + "*";
    if |pattern| == 0 {
      assert longer[1..] == "";
    } else {
      assert longer[1..] == pattern[1..] + "*";
      if pattern[0] == '*' {
        TrailingStarSaysNothing(pattern[1..], path);
        if |path| > 0 {
          TrailingStarSaysNothing(pattern, path[1..]);
        }
      } else if |path| > 0 {
        TrailingStarSaysNothing(pattern[1..], path[1..]);
      }
    }
  }
}
