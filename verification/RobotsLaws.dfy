/** What the rules of a robots.txt come to, in the terms of RFC 9309. */
module RobotsLaws {
  import opened Prelude
  import opened Unicode
  import opened RobotsText
  import opened Robots

  // ---------------------------------------------------------------------------------------
  // Escapes

  ghost function UpperDigit(digit: nat): char
    requires digit < 16
  {
    "0123456789ABCDEF"[digit]
  }

  ghost function LowerDigit(digit: nat): char
    requires digit < 16
  {
    "0123456789abcdef"[digit]
  }

  lemma DigitsHaveTheirValues(digit: nat)
    requires digit < 16
    ensures IsHex(UpperDigit(digit)) && HexValue(UpperDigit(digit)) == digit && HexDigit(digit) == UpperDigit(digit)
    ensures IsHex(LowerDigit(digit)) && HexValue(LowerDigit(digit)) == digit
  {
  }

  /** The characters that section 2.3 of RFC 3986 never wants escaped. */
  ghost predicate NeedsNoEscape(c: char) {
    'A' <= c <= 'Z' || 'a' <= c <= 'z' || '0' <= c <= '9' || c in {'-', '.', '_', '~'}
  }

  lemma TwoDigits(high: nat, low: nat)
    requires low < 16
    ensures (high * 16 + low) / 16 == high && (high * 16 + low) % 16 == low
  {
  }

  lemma UnreservedIff(byte: Byte)
    ensures IsUnreserved(byte) <==> NeedsNoEscape(byte as char)
  {
  }

  lemma EscapeOf(h: char, l: char, high: nat, low: nat)
    requires IsHex(h) && IsHex(l) && high == HexValue(h) && low == HexValue(l)
    ensures var c := (high * 16 + low) as char;
            Escape(h, l) == if NeedsNoEscape(c) then [c] else ['%', HexDigit(high), HexDigit(low)]
  {
    TwoDigits(high, low);
    UnreservedIff(high * 16 + low);
  }

  lemma NormalOfEscape(high: char, low: char)
    requires IsHex(high) && IsHex(low)
    ensures Normal(['%', high, low]) == Escape(high, low)
  {
    var s := ['%', high, low];
    assert s[3..] == "" && Normal(s) == Escape(high, low) + Normal("");
  }

  /** The escape of a byte becomes the character itself when it needs none; otherwise it is spelled
      with upper-case digits, however it was spelled. */
  lemma EscapesAreSpelledOneWay(high: nat, low: nat, h: char, l: char)
    requires high < 16 && (h == UpperDigit(high) || h == LowerDigit(high))
    requires low < 16 && (l == UpperDigit(low) || l == LowerDigit(low))
    ensures var c := (high * 16 + low) as char;
            Normal(['%', h, l]) == if NeedsNoEscape(c) then [c] else ['%', UpperDigit(high), UpperDigit(low)]
  {
    DigitsHaveTheirValues(high);
    DigitsHaveTheirValues(low);
    EscapeOf(h, l, high, low);
    NormalOfEscape(h, l);
  }

  /** A text is well formed exactly when behind every percent sign there are two digits. */
  lemma {:induction false} WellFormedIff(s: string)
    ensures IsWellFormed(s) <==> forall i :: 0 <= i < |s| && s[i] == '%' ==> i + 2 < |s| && IsHex(s[i + 1]) && IsHex(s[i + 2])
  {
    if |s| > 0 {
      var rest := if StartsEscape(s) then s[3..] else s[1..];
      var n := |s| - |rest|;
      WellFormedIff(rest);
      assert forall i :: 0 <= i < |rest| ==> rest[i] == s[n + i];
      assert forall i :: n <= i < |s| ==> s[i] == rest[i - n];
    }
  }

  // ---------------------------------------------------------------------------------------
  // Specificity

  ghost predicate OnlyStars(s: string) {
    forall i :: 0 <= i < |s| ==> s[i] == '*'
  }

  /** The octets a pattern spells: one for an escape, those of UTF-8 for any other character, none
      for stars and for a dollar sign at the end. */
  ghost function Spelled(pattern: string): seq<Byte> {
    if |pattern| == 0 then []
    else if pattern[0] == '*' then Spelled(pattern[1..])
    else if pattern[0] == '$' && OnlyStars(pattern[1..]) then []
    else if StartsEscape(pattern) then [HexValue(pattern[1]) * 16 + HexValue(pattern[2])] + Spelled(pattern[3..])
    else Utf8(pattern[0]) + Spelled(pattern[1..])
  }

  function Semantic(pattern: string): string {
    var rest := WithoutStars(pattern);
    if EndsInDollar(rest) then rest[..|rest| - 1] else rest
  }

  lemma {:induction false} StarsGo(piece: string, rest: string)
    requires '*' !in piece
    ensures WithoutStars(piece + rest) == piece + WithoutStars(rest)
  {
    if |piece| == 0 {
      assert piece + rest == rest;
    } else {
      assert piece[0] in piece;
      assert forall c :: c in piece[1..] ==> c in piece;
      assert (piece + rest)[1..] == piece[1..] + rest;
      StarsGo(piece[1..], rest);
    }
  }

  lemma PieceStays(piece: string, rest: string)
    requires |piece| > 0 && '*' !in piece && piece[|piece| - 1] != '$'
    ensures Semantic(piece + rest) == piece + Semantic(rest)
  {
    StarsGo(piece, rest);
    var tail := WithoutStars(rest);
    if |tail| > 0 {
      assert (piece + tail)[..|piece| + |tail| - 1] == piece + tail[..|tail| - 1];
    } else {
      assert piece + tail == piece;
    }
  }

  lemma EscapeCountsOne(byte: Byte, rest: string)
    ensures Octets(PercentByte(byte) + rest) == 1 + Octets(rest)
  {
    var s := PercentByte(byte) + rest;
    assert s[3..] == rest;
  }

  lemma {:induction false} EscapesCountTheirBytes(bytes: seq<Byte>, rest: string)
    ensures Octets(PercentBytes(bytes) + rest) == |bytes| + Octets(rest)
  {
    if |bytes| == 0 {
      assert PercentBytes(bytes) + rest == rest;
    } else {
      EscapesCountTheirBytes(bytes[1..], rest);
      assert PercentBytes(bytes) + rest == PercentByte(bytes[0]) + (PercentBytes(bytes[1..]) + rest);
      EscapeCountsOne(bytes[0], PercentBytes(bytes[1..]) + rest);
    }
  }

  lemma {:induction false} EscapesArePlain(bytes: seq<Byte>)
    ensures '*' !in PercentBytes(bytes) && '$' !in PercentBytes(bytes)
    ensures |bytes| > 0 ==> |PercentBytes(bytes)| > 0 && PercentBytes(bytes)[|PercentBytes(bytes)| - 1] != '$'
  {
    if |bytes| > 0 {
      EscapesArePlain(bytes[1..]);
      var piece, rest := PercentByte(bytes[0]), PercentBytes(bytes[1..]);
      assert forall c :: c in piece + rest ==> c in piece || c in rest;
      assert '*' !in piece && '$' !in piece;
    }
  }

  lemma CharacterCountsOne(c: char, rest: string)
    requires c != '%' && c as int < 128
    ensures Octets([c] + rest) == 1 + Octets(rest)
  {
    assert ([c] + rest)[1..] == rest;
  }

  lemma {:induction false} OnlyStarsLeaveNothing(s: string)
    ensures WithoutStars(Normal(s)) == "" <==> OnlyStars(s)
  {
    if |s| > 0 {
      if StartsEscape(s) {
        assert s[0] == '%';
      } else if s[0] == '*' {
        assert s == [s[0]] + s[1..] && (['*'] + Normal(s[1..]))[1..] == Normal(s[1..]);
        OnlyStarsLeaveNothing(s[1..]);
      } else if s[0] as int >= 128 {
        EscapesArePlain(Utf8(s[0]));
        StarsGo(PercentBytes(Utf8(s[0])), Normal(s[1..]));
      }
      if StartsEscape(s) {
        var e := Escape(s[1], s[2]);
        assert e[0] != '*';
        assert (e + Normal(s[3..]))[0] == e[0];
      }
    }
  }

  lemma EscapeWeighs(high: char, low: char, rest: string)
    requires IsHex(high) && IsHex(low)
    ensures Octets(Semantic(Escape(high, low) + rest)) == 1 + Octets(Semantic(rest))
  {
    var e, byte := Escape(high, low), HexValue(high) * 16 + HexValue(low);
    PieceStays(e, rest);
    if IsUnreserved(byte) {
      CharacterCountsOne(byte as char, Semantic(rest));
    } else {
      EscapeCountsOne(byte, Semantic(rest));
    }
  }

  lemma CharacterWeighs(c: char, rest: string)
    requires c != '%' && c != '*' && c != '$'
    ensures Octets(Semantic((if c as int < 128 then [c] else PercentBytes(Utf8(c))) + rest)) == |Utf8(c)| + Octets(Semantic(rest))
  {
    if c as int < 128 {
      PieceStays([c], rest);
      CharacterCountsOne(c, Semantic(rest));
    } else {
      EscapesArePlain(Utf8(c));
      PieceStays(PercentBytes(Utf8(c)), rest);
      EscapesCountTheirBytes(Utf8(c), Semantic(rest));
    }
  }

  lemma DollarWeighs(rest: string)
    ensures Octets(Semantic("$" + rest)) == if WithoutStars(rest) == "" then 0 else 1 + Octets(Semantic(rest))
  {
    StarsGo("$", rest);
    var tail := WithoutStars(rest);
    if tail != "" {
      assert ("$" + tail)[..|tail|] == "$" + tail[..|tail| - 1];
      CharacterCountsOne('$', Semantic(rest));
      if !EndsInDollar(tail) {
        assert Semantic("$" + rest) == "$" + tail;
      }
    } else {
      assert "$" + tail == "$";
    }
  }

  lemma StarWeighsNothing(rest: string)
    ensures Semantic("*" + rest) == Semantic(rest)
  {
    assert ("*" + rest)[1..] == rest;
  }

  predicate StartsWithByte(s: string) {
    |s| >= 2 && IsUpperHex(s[0]) && IsUpperHex(s[1])
  }

  lemma PercentWeighs(rest: string)
    ensures Octets(Semantic("%" + rest)) ==
            if StartsWithByte(Semantic(rest)) then Octets(Semantic(rest)) - 1 else 1 + Octets(Semantic(rest))
  {
    PieceStays("%", rest);
    var tail := Semantic(rest);
    var s := "%" + tail;
    assert s[1..] == tail;
    if StartsWithByte(tail) {
      assert tail == [tail[0]] + ([tail[1]] + tail[2..]);
      CharacterCountsOne(tail[0], [tail[1]] + tail[2..]);
      CharacterCountsOne(tail[1], tail[2..]);
      assert s[3..] == tail[2..];
    }
  }

  /** No stray percent sign has two upper-case digits behind it once what follows is normalised and
      its stars are gone. */
  predicate NoNewEscapes(pattern: string) {
    |pattern| == 0 ||
    if StartsEscape(pattern) then NoNewEscapes(pattern[3..])
    else (pattern[0] == '%' ==> !StartsWithByte(Semantic(Normal(pattern[1..])))) && NoNewEscapes(pattern[1..])
  }

  lemma {:induction false} WellFormedHasNone(pattern: string)
    requires IsWellFormed(pattern)
    ensures NoNewEscapes(pattern)
  {
    if |pattern| > 0 {
      if StartsEscape(pattern) {
        WellFormedHasNone(pattern[3..]);
      } else {
        WellFormedHasNone(pattern[1..]);
      }
    }
  }

  lemma {:induction false} NormalWeighs(pattern: string)
    ensures Octets(Semantic(Normal(pattern))) <= |Spelled(pattern)|
    ensures Octets(Semantic(Normal(pattern))) == |Spelled(pattern)| <==> NoNewEscapes(pattern)
  {
    if |pattern| > 0 {
      if StartsEscape(pattern) {
        NormalWeighs(pattern[3..]);
        EscapeWeighs(pattern[1], pattern[2], Normal(pattern[3..]));
      } else {
        NormalWeighs(pattern[1..]);
        if pattern[0] == '%' {
          PercentWeighs(Normal(pattern[1..]));
        } else if pattern[0] == '*' {
          StarWeighsNothing(Normal(pattern[1..]));
        } else if pattern[0] == '$' {
          OnlyStarsLeaveNothing(pattern[1..]);
          DollarWeighs(Normal(pattern[1..]));
          if OnlyStars(pattern[1..]) {
            StarsHaveNoEscapes(pattern[1..]);
          }
        } else {
          CharacterWeighs(pattern[0], Normal(pattern[1..]));
        }
      }
    }
  }

  lemma {:induction false} StarsHaveNoEscapes(s: string)
    requires OnlyStars(s)
    ensures NoNewEscapes(s)
  {
    if |s| > 0 {
      StarsHaveNoEscapes(s[1..]);
    }
  }

  /** A rule is as specific as the number of octets its pattern spells, exactly when no stray percent
      sign comes to start an escape; then it is less specific. */
  lemma WeightCountsOctetsIff(rule: Rule)
    ensures Weight(rule) <= |Spelled(rule.path)|
    ensures Weight(rule) == |Spelled(rule.path)| <==> NoNewEscapes(rule.path)
    ensures IsWellFormed(rule.path) ==> NoNewEscapes(rule.path)
  {
    SyntaxIsPreservedAnyway(rule.path);
    NormalWeighs(rule.path);
    if IsWellFormed(rule.path) {
      WellFormedHasNone(rule.path);
    }
  }

  lemma StrayPercentNormalised()
    ensures Normal("%%34%41") == "%4A"
  {
    var v := "%%34%41";
    assert v[1..] == "%34%41" && v[1..][3..] == "%41" && v[1..][3..][3..] == "";
    NormalOfEscape('4', '1');
    assert Normal("%41") == "A";
    assert Escape('3', '4') == "4" && Normal("%34%41") == "4" + "A";
  }

  lemma StrayPercentSpelled()
    ensures |Spelled("%%34%41")| == 3
  {
    var v := "%%34%41";
    assert v[1..] == "%34%41" && v[1..][3..] == "%41" && v[1..][3..][3..] == "";
    assert |Spelled("%41")| == 1;
    assert |Spelled("%34%41")| == 2;
  }

  lemma OneEscapeWeighsOne()
    ensures Specificity("%4A") == 1
  {
    StarsGo("%4A", "");
    var w := "%4A";
    assert w + "" == w && WithoutStars(w) == w && w[3..] == "";
  }

  /** %%34%41 spells three octets and is normalised to %4A, which is one. */
  lemma StrayPercentWeighsLess(directive: Directive)
    ensures Weight(Rule(directive, "%%34%41")) == 1 && |Spelled("%%34%41")| == 3
  {
    SyntaxIsPreservedAnyway("%%34%41");
    StrayPercentNormalised();
    StrayPercentSpelled();
    OneEscapeWeighsOne();
  }

  // ---------------------------------------------------------------------------------------
  // The longest path decides

  ghost predicate IsLiteral(path: string) {
    path != "" && '*' !in path && '$' !in path && IsWellFormed(path)
  }

  lemma {:induction false} LiteralsSpellMore(path: string, longer: string)
    requires IsWellFormed(path) && IsWellFormed(longer) && path <= longer
    requires '*' !in longer && '$' !in longer
    ensures |Spelled(path)| <= |Spelled(longer)|
    ensures path != longer ==> |Spelled(path)| < |Spelled(longer)|
  {
    if |longer| > 0 {
      assert longer[0] in longer;
      if |path| > 0 {
        assert path[0] == longer[0];
        if StartsEscape(path) {
          assert longer[1] == path[1] && longer[2] == path[2];
          assert forall c :: c in longer[3..] ==> c in longer;
          LiteralsSpellMore(path[3..], longer[3..]);
          assert path == path[..3] + path[3..] && longer == longer[..3] + longer[3..];
        } else {
          assert path[0] != '%';
          assert forall c :: c in longer[1..] ==> c in longer;
          LiteralsSpellMore(path[1..], longer[1..]);
          assert path == [path[0]] + path[1..] && longer == [longer[0]] + longer[1..];
        }
      }
    }
  }

  lemma LiteralApplies(rule: Rule, path: string)
    requires IsLiteral(rule.path)
    ensures Applies(rule, Normal(path)) <==> Normal(rule.path) <= Normal(path)
  {
    SyntaxIsPreservedAnyway(rule.path);
    NormalStaysLiteral(rule.path);
    LiteralsMatchPrefixes(Normal(rule.path), Normal(path), false);
  }

  lemma {:induction false} NormalStaysLiteral(path: string)
    requires '*' !in path && '$' !in path
    ensures '*' !in Normal(path) && '$' !in Normal(path)
  {
    if |path| > 0 {
      assert path[0] in path;
      if StartsEscape(path) {
        assert forall c :: c in path[3..] ==> c in path;
        NormalStaysLiteral(path[3..]);
        var e := Escape(path[1], path[2]);
        assert '*' !in e && '$' !in e;
      } else {
        assert forall c :: c in path[1..] ==> c in path;
        NormalStaysLiteral(path[1..]);
        if path[0] as int >= 128 {
          EscapesArePlain(Utf8(path[0]));
        }
      }
    }
  }

  /** Of the rules that apply, each a literal path, the one that all others are a proper beginning of
      decides, whatever they say and in whatever order they stand. */
  lemma LongestPathDecides(rules: seq<Rule>, longest: Rule, path: string)
    requires longest in rules && IsLiteral(longest.path) && Normal(longest.path) <= Normal(path)
    requires forall r :: r in rules && r != longest ==>
               IsLiteral(r.path) && (Normal(r.path) <= Normal(path) ==> r.path < longest.path)
    ensures Best(rules, Normal(path)) == Some(longest)
  {
    LiteralApplies(longest, path);
    WeightCountsOctetsIff(longest);
    forall r | r in rules && r != longest && Applies(r, Normal(path))
      ensures Weight(r) < Weight(longest)
    {
      LiteralApplies(r, path);
      WeightCountsOctetsIff(r);
      LiteralsSpellMore(r.path, longest.path);
    }
    BestIsBest(rules, Normal(path));
  }

  lemma OnlyGroup(group: Group, token: string, lower: string -> string)
    requires GroupMatch(group.agents, token, lower) == 0
    ensures RulesOf(Longest([group], token, lower)) == group.rules
  {
    GroupJoins([], group, token, lower);
    assert [] + [group] == [group];
    assert Longest([group], token, lower) == [group];
    RulesAppend([], group);
  }

  lemma EveryoneMatches(token: string, lower: string -> string)
    ensures GroupMatch(["*"], token, lower) == 0
  {
    assert AgentMatch("*", token, lower) == 0;
    assert ["*"][1..] == [];
  }

  lemma OneGroupForAll(rules: seq<Rule>, productToken: string, path: string, isSeed: bool, lower: string -> string)
    ensures IsAllowed(Policy([Group(["*"], rules, None)], None), productToken, path, isSeed, lower)
            == VerdictOf(Best(rules, Normal(path)))
  {
    EveryoneMatches(lower(productToken), lower);
    OnlyGroup(Group(["*"], rules, None), lower(productToken), lower);
  }

  lemma RootIsLiteral()
    ensures IsLiteral("/") && Normal("/") == "/"
  {
    assert "/"[1..] == "" && Normal("") == "";
  }

  lemma RootAndDirectory(directory: string, rules: seq<Rule>, path: string)
    requires IsLiteral(directory) && "/" < directory
    requires rules in {[Rule(Allow, "/"), Rule(Disallow, directory)], [Rule(Disallow, directory), Rule(Allow, "/")]}
    ensures VerdictOf(Best(rules, Normal(path))) <==> !(Normal(directory) <= Normal(path))
  {
    RootIsLiteral();
    BestIsBest(rules, Normal(path));
    LiteralApplies(Rule(Disallow, directory), path);
    if Normal(directory) <= Normal(path) {
      LongestPathDecides(rules, Rule(Disallow, directory), path);
    }
  }

  /** A robots.txt that lets everyone in but for one directory does just that, in either order. */
  lemma AllButOneDirectory(
      directory: string, rules: seq<Rule>, productToken: string, path: string, isSeed: bool, lower: string -> string)
    requires IsLiteral(directory) && "/" < directory
    requires rules in {[Rule(Allow, "/"), Rule(Disallow, directory)], [Rule(Disallow, directory), Rule(Allow, "/")]}
    ensures IsAllowed(Policy([Group(["*"], rules, None)], None), productToken, path, isSeed, lower)
            <==> !(Normal(directory) <= Normal(path))
  {
    OneGroupForAll(rules, productToken, path, isSeed, lower);
    RootAndDirectory(directory, rules, path);
  }

  // ---------------------------------------------------------------------------------------
  // Anchors and stars

  /** A literal pattern matches what begins with it; with a dollar sign behind it, nothing else. */
  lemma LiteralPatterns(pattern: string, path: string)
    requires '*' !in pattern
    ensures pattern == "" || pattern[|pattern| - 1] != '$' ==> (PathMatches(pattern, path) <==> pattern <= path)
    ensures PathMatches(pattern + "$", path) <==> pattern == path
  {
    assert (pattern + "$")[..|pattern|] == pattern;
    LiteralsMatchPrefixes(pattern, path, false);
    LiteralsMatchPrefixes(pattern, path, true);
  }

  ghost predicate OneLine(text: string) {
    forall i :: 0 <= i < |text| ==> text[i] !in {'\n', '\r', '\U{2028}', '\U{2029}'}
  }

  /** A star stands for any text that runs over no end of line. */
  lemma {:induction false} StarMatches(pattern: string, path: string, anchored: bool)
    ensures MatchesFrom("*" + pattern, path, anchored) <==>
              exists n :: 0 <= n <= |path| && OneLine(path[..n]) && MatchesFrom(pattern, path[n..], anchored)
    decreases |path|
  {
    var starred := "*" + pattern;
    assert starred[1..] == pattern;
    assert path[0..] == path;
    if |path| > 0 {
      StarMatches(pattern, path[1..], anchored);
      if n :| 0 <= n <= |path| && OneLine(path[..n]) && MatchesFrom(pattern, path[n..], anchored) {
        if n > 0 {
          assert path[..n][0] == path[0];
          assert path[1..][n - 1..] == path[n..] && path[1..][..n - 1] == path[..n][1..];
        }
      }
      if m :| 0 <= m <= |path[1..]| && OneLine(path[1..][..m]) && MatchesFrom(pattern, path[1..][m..], anchored) {
        assert path[m + 1..] == path[1..][m..];
        assert path[..m + 1] == [path[0]] + path[1..][..m];
      }
    }
  }

  lemma {:induction false} LiteralInFront(literal: string, pattern: string, path: string, anchored: bool)
    requires '*' !in literal
    ensures MatchesFrom(literal + pattern, path, anchored) <==>
              literal <= path && MatchesFrom(pattern, path[|literal|..], anchored)
  {
    if |literal| == 0 {
      assert literal + pattern == pattern && path[0..] == path;
    } else {
      assert literal[0] in literal;
      assert forall c :: c in literal[1..] ==> c in literal;
      assert (literal + pattern)[1..] == literal[1..] + pattern;
      if |path| > 0 {
        LiteralInFront(literal[1..], pattern, path[1..], anchored);
        if literal <= path {
          assert path[1..][|literal| - 1..] == path[|literal|..];
        }
        assert literal == [literal[0]] + literal[1..] && path == [path[0]] + path[1..];
      }
    }
  }

  // ---------------------------------------------------------------------------------------
  // Agents

  /** An agent line speaks of a crawler when it is a star or the crawler's token contains it. */
  ghost predicate SpeaksOf(agent: string, token: string, lower: string -> string) {
    agent == "*" || exists before, behind :: token == before + lower(agent) + behind
  }

  ghost function AgentLength(agent: string): nat {
    if agent == "*" then 0 else |agent|
  }

  lemma AgentMatches(agent: string, token: string, lower: string -> string)
    ensures AgentMatch(agent, token, lower) == if SpeaksOf(agent, token, lower) then AgentLength(agent) else -1
  {
    var part := lower(agent);
    if Includes(token, part) {
      var i :| 0 <= i <= |token| && part <= token[i..];
      assert token == token[..i] + part + token[i..][|part|..];
    }
    if before, behind :| token == before + part + behind {
      assert token[|before|..] == part + behind;
    }
  }

  /** The length is that of an agent that speaks of the crawler, and none that does is longer. */
  ghost predicate IsLongestOf(agents: seq<string>, token: string, lower: string -> string, n: nat) {
    && (exists a :: a in agents && SpeaksOf(a, token, lower) && AgentLength(a) == n)
    && (forall a :: a in agents && SpeaksOf(a, token, lower) ==> AgentLength(a) <= n)
  }

  lemma {:induction false} GroupMatches(agents: seq<string>, token: string, lower: string -> string)
    ensures var n := GroupMatch(agents, token, lower);
            if n < 0 then forall a :: a in agents ==> !SpeaksOf(a, token, lower) else IsLongestOf(agents, token, lower, n)
  {
    if |agents| > 0 {
      GroupMatches(agents[1..], token, lower);
      AgentMatches(agents[0], token, lower);
      assert agents == [agents[0]] + agents[1..];
    }
  }

  ghost predicate IsLongestAgent(groups: seq<Group>, agent: string, token: string, lower: string -> string) {
    forall h, b :: h in groups && b in h.agents && SpeaksOf(b, token, lower) ==> AgentLength(b) <= AgentLength(agent)
  }

  /** A group counts exactly when one of its agents speaks of the crawler and no agent of any group
      that does so is longer. So a group that names the crawler keeps out all those for everyone. */
  lemma GroupCountsIff(groups: seq<Group>, g: Group, token: string, lower: string -> string)
    ensures g in Longest(groups, token, lower) <==>
              g in groups && (exists a :: a in g.agents && SpeaksOf(a, token, lower) && IsLongestAgent(groups, a, token, lower))
  {
    var n := BestLength(groups, token, lower);
    BestLengthIsBest(groups, token, lower);
    OfLengthSelects(groups, n, token, lower);
    GroupMatches(g.agents, token, lower);
    forall h | h in groups
      ensures forall b :: b in h.agents && SpeaksOf(b, token, lower) ==> AgentLength(b) <= n
    {
      GroupMatches(h.agents, token, lower);
    }
    if n >= 0 {
      var h :| h in groups && GroupMatch(h.agents, token, lower) == n;
      GroupMatches(h.agents, token, lower);
    }
  }
}
