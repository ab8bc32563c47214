/** Which constructs of a pattern are refused, read off its characters. */
module PatternDialect {
  import opened Prelude
  import opened PatternTokens
  import opened PatternScanner

  // ------------------------------------------------------------------ tokens

  lemma {:induction false} TokenIsNext(t: CharTable, p: string, i: nat, k: nat)
    requires i <= |p| && k < |TokensFrom(t, p, i)|
    ensures var token := TokensFrom(t, p, i)[k]; token.at < |p| && token == NextToken(t, p, token.at)
    decreases |p| - i
  {
    var token := NextToken(t, p, i);
    if k > 0 {
      assert TokensFrom(t, p, i)[k] == TokensFrom(t, p, token.end)[k - 1];
      TokenIsNext(t, p, token.end, k - 1);
    }
  }

  lemma Starts(p: string, a: char, b: char, i: nat)
    ensures StartsWith(p, [a, b], i) <==> i + 1 < |p| && p[i] == a && p[i + 1] == b
  {
    if i + 1 < |p| {
      assert p[i..i + 2] == [p[i], p[i + 1]];
    }
  }

  lemma StartsOne(p: string, a: char, i: nat)
    ensures StartsWith(p, [a], i) <==> i < |p| && p[i] == a
  {
    if i < |p| {
      assert p[i..i + 1] == [p[i]];
    }
  }

  predicate DigitsIn(t: CharTable, p: string, from: nat, to: nat)
    requires to <= |p|
  {
    forall i :: from <= i < to ==> t.isDigit(p[i])
  }

  // The text [i..end) is {m}, {m,} or {m,n}, where m is at least one digit
  predicate IsBounded(t: CharTable, p: string, i: nat, end: nat)
    requires i < end <= |p|
  {
    && p[i] == '{' && p[end - 1] == '}'
    && exists j :: i + 1 < j < end && BoundedFrom(t, p, i, j, end)
  }

  // The text [i..end) is {,n}, where n is at least one digit
  predicate IsOpenBound(t: CharTable, p: string, i: nat, end: nat)
    requires i < end <= |p|
  {
    p[i] == '{' && p[end - 1] == '}' && i + 3 < end && p[i + 1] == ',' && DigitsIn(t, p, i + 2, end - 1)
  }

  lemma {:induction false} DigitsEndIff(t: CharTable, p: string, i: nat)
    requires i <= |p|
    ensures var j := DigitsEnd(t, p, i); DigitsIn(t, p, i, j) && (j < |p| ==> !t.isDigit(p[j]))
    decreases |p| - i
  {
    if i < |p| && t.isDigit(p[i]) {
      DigitsEndIff(t, p, i + 1);
    }
  }

  // Digits followed by something else end where that is
  lemma DigitsStop(t: CharTable, p: string, i: nat, j: nat)
    requires i <= j < |p| && DigitsIn(t, p, i, j) && !t.isDigit(p[j])
    ensures DigitsEnd(t, p, i) == j
  {
    DigitsEndIff(t, p, i);
  }

  // Neither the comma nor the closing brace is a digit
  predicate BracesAreNoDigits(t: CharTable) {
    !t.isDigit(',') && !t.isDigit('}')
  }

  // The digits m end at j, and what follows ends the quantifier
  predicate BoundedFrom(t: CharTable, p: string, i: nat, j: nat, end: nat)
    requires i < end <= |p|
  {
    i + 1 < j < end && DigitsIn(t, p, i + 1, j) && (j == end - 1 || (p[j] == ',' && DigitsIn(t, p, j + 1, end - 1)))
  }

  lemma BoundedIs(t: CharTable, p: string, i: nat, j: nat, end: nat)
    requires BracesAreNoDigits(t) && i < end <= |p| && BoundedFrom(t, p, i, j, end) && p[end - 1] == '}'
    ensures BoundedEnd(t, p, i) == Some(end)
  {
    DigitsStop(t, p, i + 1, j);
    if j < end - 1 {
      DigitsStop(t, p, j + 1, end - 1);
    }
    hide DigitsEnd, DigitsIn;
  }

  /** A bounded quantifier at i ends where {m}, {m,} or {m,n} ends. */
  lemma BoundedIff(t: CharTable, p: string, i: nat, end: nat)
    requires BracesAreNoDigits(t) && i < end <= |p| && p[i] == '{'
    ensures BoundedEnd(t, p, i) == Some(end) <==> IsBounded(t, p, i, end)
  {
    if IsBounded(t, p, i, end) {
      var j :| BoundedFrom(t, p, i, j, end);
      BoundedIs(t, p, i, j, end);
    }
    if BoundedEnd(t, p, i) == Some(end) {
      var j := DigitsEnd(t, p, i + 1);
      DigitsEndIff(t, p, i + 1);
      DigitsEndIff(t, p, j + 1);
      hide DigitsEnd, DigitsIn;
      assert BoundedFrom(t, p, i, j, end);
    }
  }

  /** The quantifier only the server reads ends where {,n} ends. */
  lemma OpenLowerBoundIff(t: CharTable, p: string, i: nat, end: nat)
    requires BracesAreNoDigits(t) && i < end <= |p| && p[i] == '{'
    ensures OpenLowerBoundEnd(t, p, i) == Some(end) <==> IsOpenBound(t, p, i, end)
  {
    if i + 2 <= |p| {
      DigitsEndIff(t, p, i + 2);
    }
    if IsOpenBound(t, p, i, end) {
      DigitsStop(t, p, i + 2, end - 1);
    }
  }

  /** The kind of the token at a position, by the characters there. */
  lemma TokenKinds(t: CharTable, p: string, i: nat)
    requires BracesAreNoDigits(t) && i < |p|
    ensures var token := NextToken(t, p, i);
            && (token.kind == Escape <==> p[i] == '\\')
            && (token.kind == Class <==> p[i] == '[')
            && (token.kind == GroupOpener <==> p[i] == '(' && i + 1 < |p| && p[i + 1] == '?')
            && (token.kind == OpenLowerBound <==> exists end :: i < end <= |p| && IsOpenBound(t, p, i, end))
            && (token.kind == Bounded <==> exists end :: i < end <= |p| && IsBounded(t, p, i, end))
            && (token.kind == Escape ==> token.end == if i + 1 < |p| then i + 2 else i + 1)
            && (token.kind == GroupOpener ==> token.end == i + 2)
            && (token.kind == Single ==> token.end == i + 1)
            && (token.kind == Bounded ==> IsBounded(t, p, i, token.end))
            && (token.kind == OpenLowerBound ==> IsOpenBound(t, p, i, token.end))
  {
    Starts(p, '(', '?', i);
    if p[i] == '{' {
      forall end | i < end <= |p|
        ensures OpenLowerBoundEnd(t, p, i) == Some(end) <==> IsOpenBound(t, p, i, end)
        ensures BoundedEnd(t, p, i) == Some(end) <==> IsBounded(t, p, i, end)
      {
        OpenLowerBoundIff(t, p, i, end);
        BoundedIff(t, p, i, end);
      }
      NotBoth(t, p, i);
    }
    hide ClassStop, BoundedEnd, OpenLowerBoundEnd;
  }

  lemma NotBoth(t: CharTable, p: string, i: nat)
    requires BracesAreNoDigits(t) && i < |p|
    ensures OpenLowerBoundEnd(t, p, i).Some? ==> BoundedEnd(t, p, i).None?
  {
    if OpenLowerBoundEnd(t, p, i).Some? {
      assert p[i + 1] == ',' && DigitsEnd(t, p, i + 1) == i + 1;
    }
  }

  // ------------------------------------------------------------------ what is refused

  function EscapeRefused(p: string, i: nat): Option<string> {
    if i + 1 < |p| && p[i + 1] in {'p', 'P', 'A', 'Z', 'z', 'c', 'k'} then Some(['\\', p[i + 1]])
    else if i + 2 < |p| && p[i + 1] == 'u' && p[i + 2] == '{' then Some("\\u{")
    else None
  }

  lemma EscapeConstructIs(p: string, i: nat)
    requires i < |p| && p[i] == '\\'
    ensures EscapeConstruct(p, i) == EscapeRefused(p, i)
  {
    if i + 2 < |p| {
      assert p[i..i + 3] == [p[i], p[i + 1], p[i + 2]];
    }
    assert "\\u{" == ['\\', 'u', '{'];
  }

  // A group both sides read: (?: (?= (?! (?<= (?<! and (?< with a letter or an underscore
  predicate PortableGroup(t: CharTable, p: string, i: nat) {
    && i + 2 < |p|
    && (p[i + 2] in {':', '=', '!'} || (p[i + 2] == '<' && i + 3 < |p| && (p[i + 3] in {'=', '!', '_'} || t.isAlpha(p[i + 3]))))
  }

  lemma GroupConstructIs(t: CharTable, p: string, i: nat)
    requires i + 2 <= |p|
    ensures GroupOpenerConstruct(t, p, i)
         == if PortableGroup(t, p, i) then None else Some(p[i..if i + 3 <= |p| then i + 3 else |p|])
  {
    var rest := p[i + 2..];
    StartsOne(rest, ':', 0);
    StartsOne(rest, '=', 0);
    StartsOne(rest, '!', 0);
    Starts(rest, '<', '=', 0);
    Starts(rest, '<', '!', 0);
    assert "<=" == ['<', '='] && "<!" == ['<', '!'];
    assert |rest| > 0 ==> rest[0] == p[i + 2];
    assert |rest| > 1 ==> rest[1] == p[i + 3];
    hide StartsWith;
    assert (exists opener :: opener in {":", "=", "!", "<=", "<!"} && StartsWith(rest, opener, 0)) <==>
      StartsWith(rest, ":", 0) || StartsWith(rest, "=", 0) || StartsWith(rest, "!", 0) || StartsWith(rest, "<=", 0) || StartsWith(rest, "<!", 0);
  }

  function ItemRefused(p: string, j: nat): Option<string>
    requires j < |p|
  {
    if p[j] == '\\' then EscapeRefused(p, j)
    else if p[j] == '[' && j + 1 < |p| && p[j + 1] == ':' then Some("[:")
    else None
  }

  // One item of a class decides, or leaves it to the next one
  lemma ItemsNext(p: string, j: nat)
    requires j < |p|
    ensures ItemRefused(p, j).Some? ==> ItemsConstruct(p, j) == ItemRefused(p, j)
    ensures ItemRefused(p, j).None? ==>
              ItemsConstruct(p, j) == if p[j] == ']' then None else ItemsConstruct(p, if p[j] == '\\' then j + 2 else j + 1)
  {
    Starts(p, '[', ':', j);
    assert "[:" == ['[', ':'];
    if p[j] == '\\' {
      EscapeConstructIs(p, j);
    }
  }

  /** An empty class is refused, and one with a refused item, the first of them named; "]" ends it, an escape takes two. */
  lemma ClassConstructIs(p: string, i: nat)
    requires i < |p| && p[i] == '['
    ensures var body := if i + 1 < |p| && p[i + 1] == '^' then i + 2 else i + 1;
            ClassConstruct(p, i)
            == if body < |p| && p[body] == ']' then Some(if body == i + 2 then "[^]" else "[]") else ItemsConstruct(p, body)
  {
    Starts(p, '[', '^', i);
    assert "[^" == ['[', '^'];
    StartsOne(p, ']', ClassBody(p, i));
  }

  /** A class ends behind its first "]" that no backslash precedes, or with the pattern. */
  lemma {:induction false} ItemsStopIs(p: string, j: nat)
    requires j <= |p|
    ensures var end := ItemsStop(p, j);
            && (end < |p| ==> end > j && p[end - 1] == ']')
            && forall x :: j <= x < end - 1 && p[x] == ']' ==> x > j && p[x - 1] == '\\'
    decreases |p| - j
  {
    if j < |p| && p[j] != ']' {
      var next := if p[j] == '\\' then j + 2 else j + 1;
      if next <= |p| {
        ItemsStopIs(p, next);
      }
    }
  }

  // ------------------------------------------------------------------ quantifiers

  predicate AllInside(p: string, tokens: seq<Token>) {
    forall j :: 0 <= j < |tokens| ==> tokens[j].at < |p|
  }

  // A quantifier by itself: {m}, {m,}, {m,n}, * and +
  predicate Repeats(p: string, tokens: seq<Token>, k: nat)
    requires k < |tokens| && AllInside(p, tokens)
  {
    tokens[k].kind == Bounded || (tokens[k].kind == Single && p[tokens[k].at] in {'*', '+'})
  }

  // How many question marks in a row end with token k
  function Questions(p: string, tokens: seq<Token>, k: int): (n: nat)
    requires k < |tokens| && AllInside(p, tokens)
    ensures n <= if k < 0 then 0 else k + 1
    decreases k + 1
  {
    if k < 0 || tokens[k].kind != Single || p[tokens[k].at] != '?' then 0 else Questions(p, tokens, k - 1) + 1
  }

  /**
   A question mark is a quantifier, or makes the one before it lazy, by turns: of a row of them behind a quantifier
   the second one, the fourth and so on are quantifiers, of any other row the first, the third and so on.
   */
  lemma {:induction false} QuantifierIff(p: string, tokens: seq<Token>, k: nat)
    requires k < |tokens| && AllInside(p, tokens)
    ensures var n := Questions(p, tokens, k);
            IsQuantifier(p, tokens, k) <==>
            if n == 0 then Repeats(p, tokens, k) else (n % 2 == 1) != (n <= k && Repeats(p, tokens, k - n))
  {
    if k > 0 && Questions(p, tokens, k) > 0 {
      QuantifierIff(p, tokens, k - 1);
    }
  }

  // ------------------------------------------------------------------ the whole verdict

  /** The refusal of a token, by its characters. A '+' is refused right after a quantifier, named with what it follows. */
  lemma RefusalIs(t: CharTable, p: string, k: nat)
    requires BracesAreNoDigits(t) && k < |Tokens(t, p)|
    ensures Tiles(Tokens(t, p), 0, |p|)
    ensures var token := Tokens(t, p)[k];
            var i := token.at;
            && i < |p| && (k > 0 ==> i > 0)
            && match token.kind
               case Escape => Refusal(t, p, Tokens(t, p), k) == EscapeRefused(p, i)
               case Class => Refusal(t, p, Tokens(t, p), k) == ClassConstruct(p, i)
               case GroupOpener =>
                 Refusal(t, p, Tokens(t, p), k)
                 == if PortableGroup(t, p, i) then None else Some(p[i..if i + 3 <= |p| then i + 3 else |p|])
               case OpenLowerBound => Refusal(t, p, Tokens(t, p), k) == Some("{,n}")
               case Bounded => Refusal(t, p, Tokens(t, p), k) == None
               case Single =>
                 AllInside(p, Tokens(t, p)) &&
                 Refusal(t, p, Tokens(t, p), k)
                 == if p[i] == '+' && k > 0 && IsQuantifier(p, Tokens(t, p), k - 1) then Some([p[i - 1], '+']) else None
  {
    TokensTile(t, p, 0);
    TokenIsNext(t, p, 0, k);
    InTile(Tokens(t, p), 0, |p|);
    var i := Tokens(t, p)[k].at;
    TokenKinds(t, p, i);
    if p[i] == '\\' {
      EscapeConstructIs(p, i);
    }
    if i + 2 <= |p| {
      GroupConstructIs(t, p, i);
    }
    hide Tokens, IsBounded, IsOpenBound, EscapeConstruct, GroupOpenerConstruct, ClassConstruct;
  }

  /** The verdict names the first refused token. */
  lemma VerdictIff(t: CharTable, p: string, construct: string)
    ensures Tiles(Tokens(t, p), 0, |p|)
    ensures Verdict(t, p) == Some(construct) <==>
            exists k :: 0 <= k < |Tokens(t, p)| && Refusal(t, p, Tokens(t, p), k) == Some(construct)
                        && forall j :: 0 <= j < k ==> Refusal(t, p, Tokens(t, p), j) == None
  {
    TokensTile(t, p, 0);
    hide Tokens, Refusal, Tiles;
    var first := FirstRefused(t, p, Tokens(t, p), 0);
    if k :| 0 <= k < |Tokens(t, p)| && Refusal(t, p, Tokens(t, p), k) == Some(construct)
            && forall j :: 0 <= j < k ==> Refusal(t, p, Tokens(t, p), j) == None {
      assert first == Some(k);
    }
  }

  // ------------------------------------------------------------------ which fields of a write are reported

  // The stored field of the name that counts, the last one, carries the very pattern
  ghost predicate Kept(stored: seq<FieldPattern>, field: FieldPattern) {
    exists j :: 0 <= j < |stored| && stored[j] == field && forall k :: j < k < |stored| ==> stored[k].name != field.name
  }

  lemma {:induction false} JudgedUnlessKept(stored: seq<FieldPattern>, field: FieldPattern)
    ensures IsJudged(stored, field) <==> !Kept(stored, field)
    decreases |stored|
  {
    if stored != [] {
      var n := |stored| - 1;
      JudgedUnlessKept(stored[..n], field);
      if stored[n].name != field.name {
        if Kept(stored[..n], field) {
          var j :| 0 <= j < n && stored[..n][j] == field && forall k :: j < k < n ==> stored[..n][k].name != field.name;
          assert stored[j] == field && forall k :: j < k < n ==> stored[k] == stored[..n][k];
        }
        if Kept(stored, field) {
          var j :| 0 <= j < |stored| && stored[j] == field && forall k :: j < k < |stored| ==> stored[k].name != field.name;
          assert stored[..n][j] == field;
        }
      }
    }
  }

  // What is wrong with a declared pattern: it is no text, or it has a refused construct, or it does not compile
  predicate IsProblem(t: CharTable, compiles: string -> bool, regex: Regex, problem: Problem) {
    match problem
    case NotAString(kind) => regex == NotText(kind)
    case Dialect(construct) => regex.Text? && regex.pattern != "" && Verdict(t, regex.pattern) == Some(construct)
    case NotCompilable => regex.Text? && regex.pattern != "" && Verdict(t, regex.pattern) == None && !compiles(regex.pattern)
  }

  /** A field of a write is reported exactly when its pattern is not the one stored for it and something is wrong with it. */
  lemma {:induction false} ReportedIff(
    t: CharTable, compiles: string -> bool, fields: seq<FieldPattern>, stored: seq<FieldPattern>, name: string, problem: Problem)
    ensures (name, problem) in PatternErrors(t, compiles, fields, stored) <==>
            exists f :: f in fields && f.name == name && !Kept(stored, f) && IsProblem(t, compiles, f.regex, problem)
    decreases |fields|
  {
    hide Verdict, Kept, IsJudged;
    if fields != [] {
      var n := |fields| - 1;
      var last := fields[n];
      ReportedIff(t, compiles, fields[..n], stored, name, problem);
      JudgedUnlessKept(stored, last);
      assert fields == fields[..n] + [last];
      assert ProblemOf(t, compiles, last.regex) == Some(problem) <==> IsProblem(t, compiles, last.regex, problem);
      hide ProblemOf, IsProblem;
      assert forall f :: f in fields <==> f in fields[..n] || f == last;
    }
  }
}
