/** The hand-written scanner of field patterns: one pass, one position, one flag. */
module PatternScanner {
  import opened Prelude
  import opened PatternTokens

  method ClassEnd(p: string, index: nat) returns (position: nat, construct: Option<string>)
    requires index < |p| && p[index] == '['
    ensures construct == ClassConstruct(p, index)
    ensures construct == None ==> Min(position, |p|) == Min(ClassStop(p, index), |p|) && position > index
  {
    hide EscapeConstruct;
    var body := if StartsWith(p, "[^", index) then index + 2 else index + 1;
    if StartsWith(p, "]", body) {
      return body + 1, Some(if body == index + 2 then "[^]" else "[]");
    }
    position := body;
    while position < |p|
      invariant position >= body
      invariant ItemsConstruct(p, position) == ItemsConstruct(p, body)
      invariant ItemsStop(p, position) == ItemsStop(p, body)
      decreases |p| - position
    {
      if p[position] == '\\' {
        construct := EscapeConstruct(p, position);
        if construct.Some? {
          return;
        }
        position := position + 2;
        continue;
      }
      if StartsWith(p, "[:", position) {
        return position, Some("[:");
      }
      if p[position] == ']' {
        return position + 1, None;
      }
      position := position + 1;
    }
    construct := None;
  }

  // What one round of the scan comes to: where it goes on, what it refuses, whether it passed a quantifier
  datatype Step = Step(end: nat, refused: Option<string>, quantifier: bool)

  function Round(t: CharTable, p: string, i: nat, quantified: bool): Step
    requires i < |p|
  {
    var token := NextToken(t, p, i);
    match token.kind
    case Escape => Step(token.end, EscapeConstruct(p, i), false)
    case Class => Step(token.end, ClassConstruct(p, i), false)
    case GroupOpener => Step(token.end, GroupOpenerConstruct(t, p, i), false)
    case OpenLowerBound => Step(token.end, Some("{,n}"), false)
    case Bounded => Step(token.end, None, true)
    case Single =>
      Step(token.end, if quantified && p[i] == '+' && i > 0 then Some([p[i - 1], '+']) else None,
           p[i] == '*' || p[i] == '+' || (p[i] == '?' && !quantified))
  }

  // How far the scan is: the first k tokens passed, none of them refused, the flag telling of the last
  ghost predicate Scanned(t: CharTable, p: string, k: nat, i: nat, afterQuantifier: bool) {
    var tokens := Tokens(t, p);
    && Tiles(tokens, 0, |p|) && (forall j :: 0 <= j < |tokens| ==> tokens[j].at < |p|)
    && k <= |tokens| && i <= |p| && TokensFrom(t, p, i) == tokens[k..]
    && (afterQuantifier <==> k > 0 && IsQuantifier(p, tokens, k - 1))
    && (forall j :: 0 <= j < k ==> Refusal(t, p, tokens, j) == None)
  }

  lemma ScanStarts(t: CharTable, p: string)
    ensures Scanned(t, p, 0, 0, false)
  {
    TokensTile(t, p, 0);
    InTile(Tokens(t, p), 0, |p|);
    assert Tokens(t, p)[0..] == Tokens(t, p);
  }

  // The scan stands at the k-th token
  lemma TokenMet(t: CharTable, p: string, k: nat, i: nat)
    requires i < |p| && k <= |Tokens(t, p)| && TokensFrom(t, p, i) == Tokens(t, p)[k..]
    ensures k < |Tokens(t, p)| && Tokens(t, p)[k] == NextToken(t, p, i)
    ensures TokensFrom(t, p, NextToken(t, p, i).end) == Tokens(t, p)[k + 1..]
  {
    var tokens := Tokens(t, p);
    hide Tokens, NextToken;
    assert tokens[k..][0] == NextToken(t, p, i);
    assert tokens[k..][1..] == tokens[k + 1..];
  }

  // The round comes to what is said of its token
  lemma RoundMeets(t: CharTable, p: string, tokens: seq<Token>, k: nat, i: nat, quantified: bool)
    requires i < |p| && k < |tokens| && Tiles(tokens, 0, |p|) && tokens[k] == NextToken(t, p, i)
    requires forall j :: 0 <= j < |tokens| ==> tokens[j].at < |p|
    requires quantified <==> k > 0 && IsQuantifier(p, tokens, k - 1)
    ensures Refusal(t, p, tokens, k) == Round(t, p, i, quantified).refused
    ensures IsQuantifier(p, tokens, k) <==> Round(t, p, i, quantified).quantifier
  {
    InTile(tokens, 0, |p|);
    hide EscapeConstruct, ClassConstruct, GroupOpenerConstruct, Tiles;
    assert k > 0 ==> i > 0;
  }

  lemma ScanGoesOn(t: CharTable, p: string, k: nat, i: nat, quantified: bool)
    requires i < |p| && Scanned(t, p, k, i, quantified)
    ensures var step := Round(t, p, i, quantified);
            && (step.refused.Some? ==> Verdict(t, p) == step.refused)
            && (step.refused.None? ==> Scanned(t, p, k + 1, step.end, step.quantifier))
  {
    hide TokensFrom, Tokens, Tiles, NextToken, IsQuantifier, Refusal;
    TokenMet(t, p, k, i);
    RoundMeets(t, p, Tokens(t, p), k, i, quantified);
  }

  lemma ScanEnds(t: CharTable, p: string, k: nat, quantified: bool)
    requires Scanned(t, p, k, |p|, quantified)
    ensures Verdict(t, p) == None
  {
    assert Tokens(t, p)[k..] == [];
    PassesIff(t, p);
  }

  /** The scan answers the verdict on the pattern's tokens, whatever the pattern. */
  method FindDialectConstruct(t: CharTable, p: string) returns (found: Option<string>)
    ensures found == Verdict(t, p)
  {
    hide Scanned, Verdict, ItemsStop, ItemsConstruct, DigitsEnd;
    var position := 0;
    var afterQuantifier := false;
    ghost var k := 0;
    ScanStarts(t, p);
    while position < |p|
      invariant Scanned(t, p, k, Min(position, |p|), afterQuantifier)
      decreases |p| - position
    {
      var c := p[position];
      var quantified := afterQuantifier;
      ScanGoesOn(t, p, k, position, quantified);
      afterQuantifier := false;
      k := k + 1;
      if c == '\\' {
        found := EscapeConstruct(p, position);
        if found.Some? {
          return;
        }
        position := position + 2;
        continue;
      }
      if c == '[' {
        position, found := ClassEnd(p, position);
        if found.Some? {
          return;
        }
        continue;
      }
      if StartsWith(p, "(?", position) {
        found := GroupOpenerConstruct(t, p, position);
        if found.Some? {
          return;
        }
        position := position + 2;
        continue;
      }
      if c == '{' {
        if OpenLowerBoundEnd(t, p, position).Some? {
          return Some("{,n}");
        }
        var bounded := BoundedEnd(t, p, position);
        if bounded.Some? {
          position, afterQuantifier := bounded.value, true;
          continue;
        }
      }
      if quantified && c == '+' {
        StartIsNotQuantified(t, p, k - 1, position);
        return Some([p[position - 1], '+']);
      }
      afterQuantifier := c == '*' || c == '+' || (c == '?' && !quantified);
      position := position + 1;
    }
    ScanEnds(t, p, k, afterQuantifier);
    found := None;
  }

  lemma StartIsNotQuantified(t: CharTable, p: string, k: nat, i: nat)
    requires Scanned(t, p, k, i, true) && i < |p|
    ensures i > 0
  {
    InTile(Tokens(t, p), 0, |p|);
    assert Tokens(t, p)[k..][0] == NextToken(t, p, i);
  }

  // ------------------------------------------------------------------ the patterns a write declares

  // A field's declared `regex`: none or empty, text, or some other JSON value of this kind
  datatype Regex = NoPattern | Text(pattern: string) | NotText(kind: string)

  datatype FieldPattern = FieldPattern(name: string, regex: Regex)

  datatype Problem = NotAString(kind: string) | Dialect(construct: string) | NotCompilable

  // `compiles` is the server's regex engine taking the anchored pattern
  function ProblemOf(t: CharTable, compiles: string -> bool, regex: Regex): Option<Problem> {
    match regex
    case NoPattern => None
    case NotText(kind) => Some(NotAString(kind))
    case Text(pattern) =>
      if pattern == "" then None
      else match Verdict(t, pattern)
        case Some(construct) => Some(Dialect(construct))
        case None => if compiles(pattern) then None else Some(NotCompilable)
  }

  // The stored pattern of a name; a name stored twice keeps the last one
  function StoredPattern(stored: seq<FieldPattern>, name: string): Option<Regex> {
    if stored == [] then None
    else
      var last := stored[|stored| - 1];
      if last.name == name then Some(last.regex) else StoredPattern(stored[..|stored| - 1], name)
  }

  predicate IsJudged(stored: seq<FieldPattern>, field: FieldPattern) {
    StoredPattern(stored, field.name) != Some(field.regex)
  }

  function PatternErrors(t: CharTable, compiles: string -> bool, fields: seq<FieldPattern>, stored: seq<FieldPattern>)
    : seq<(string, Problem)>
  {
    if fields == [] then []
    else
      var last := fields[|fields| - 1];
      PatternErrors(t, compiles, fields[..|fields| - 1], stored)
      + if IsJudged(stored, last) && ProblemOf(t, compiles, last.regex).Some?
        then [(last.name, ProblemOf(t, compiles, last.regex).value)] else []
  }

  method FindFieldPatternErrors(
    t: CharTable, compiles: string -> bool, fields: seq<FieldPattern>, stored: seq<FieldPattern>)
    returns (errors: seq<(string, Problem)>)
    ensures errors == PatternErrors(t, compiles, fields, stored)
  {
    errors := [];
    for i := 0 to |fields|
      invariant errors == PatternErrors(t, compiles, fields[..i], stored)
    {
      assert fields[..i + 1][..i] == fields[..i];
      var field := fields[i];
      if !IsJudged(stored, field) {
        continue;
      }
      var problem := None;
      match field.regex {
        case NoPattern =>
        case NotText(kind) => problem := Some(NotAString(kind));
        case Text(pattern) =>
          if pattern != "" {
            var construct := FindDialectConstruct(t, pattern);
            if construct.Some? {
              problem := Some(Dialect(construct.value));
            } else if !compiles(pattern) {
              problem := Some(NotCompilable);
            }
          }
      }
      if problem.Some? {
        errors := errors + [(field.name, problem.value)];
      }
    }
    assert fields[..|fields|] == fields;
  }

  // No name is declared twice with different patterns
  ghost predicate OnePatternEach(fields: seq<FieldPattern>) {
    forall i, j :: 0 <= i < |fields| && 0 <= j < |fields| && fields[i].name == fields[j].name ==> fields[i].regex == fields[j].regex
  }

  lemma {:induction false} StoredPatternFound(stored: seq<FieldPattern>, i: nat)
    requires OnePatternEach(stored) && i < |stored|
    ensures StoredPattern(stored, stored[i].name) == Some(stored[i].regex)
    decreases |stored|
  {
    var n := |stored| - 1;
    if stored[n].name != stored[i].name {
      assert OnePatternEach(stored[..n]) && stored[..n][i] == stored[i];
      StoredPatternFound(stored[..n], i);
    }
  }

  /** A write that keeps the patterns it finds stored is never refused for them, whatever they are. */
  lemma {:induction false} KeptPatternsPass(
    t: CharTable, compiles: string -> bool, fields: seq<FieldPattern>, stored: seq<FieldPattern>)
    requires OnePatternEach(stored) && forall i :: 0 <= i < |fields| ==> fields[i] in stored
    ensures PatternErrors(t, compiles, fields, stored) == []
    decreases |fields|
  {
    if fields != [] {
      var last := fields[|fields| - 1];
      var i :| 0 <= i < |stored| && stored[i] == last;
      StoredPatternFound(stored, i);
      KeptPatternsPass(t, compiles, fields[..|fields| - 1], stored);
    }
  }
}
