/**
 A field pattern cut into tokens, and which of them the browser and the server read differently.

 This is the declarative side: no position moves here. Letters, digits and alphanumeric characters are those
 of Python's str methods, which are not modelled; they come in as a character table.
 */
module PatternTokens {
  import opened Prelude

  datatype CharTable = CharTable(isAlpha: char -> bool, isDigit: char -> bool, isAlnum: char -> bool)

  datatype Kind = Escape | Class | GroupOpener | OpenLowerBound | Bounded | Single

  // The text [at..end) of the pattern
  datatype Token = Token(kind: Kind, at: nat, end: nat)

  const DIALECT_ESCAPES := {'p', 'P', 'A', 'Z', 'z', 'c', 'k'}

  predicate StartsWith(p: string, prefix: string, i: nat) {
    i + |prefix| <= |p| && p[i..i + |prefix|] == prefix
  }

  function Min(a: nat, b: nat): nat {
    if a < b then a else b
  }

  // ------------------------------------------------------------------ constructs

  function EscapeConstruct(p: string, i: nat): Option<string>
    requires i < |p|
  {
    if i + 1 < |p| && p[i + 1] in DIALECT_ESCAPES then Some(['\\', p[i + 1]])
    else if StartsWith(p, "\\u{", i) then Some("\\u{")
    else None
  }

  // The group opened at i by '(?': non-capturing, lookaround and named groups pass
  function GroupOpenerConstruct(t: CharTable, p: string, i: nat): Option<string>
    requires i + 2 <= |p|
  {
    var rest := p[i + 2..];
    if exists opener :: opener in {":", "=", "!", "<=", "<!"} && StartsWith(rest, opener, 0) then None
    else if |rest| > 1 && rest[0] == '<' && (t.isAlpha(rest[1]) || rest[1] == '_') then None
    else Some(p[i..Min(i + 3, |p|)])
  }

  function ClassBody(p: string, i: nat): nat {
    if StartsWith(p, "[^", i) then i + 2 else i + 1
  }

  predicate EmptyClass(p: string, i: nat) {
    StartsWith(p, "]", ClassBody(p, i))
  }

  // Where the class whose items start at j ends: after its ']', or at the end of the pattern
  function ItemsStop(p: string, j: nat): (stop: nat)
    ensures j <= |p| ==> j <= stop <= |p|
    ensures j > |p| ==> stop == |p|
    decreases |p| - j
  {
    if j >= |p| then |p|
    else if p[j] == '\\' then ItemsStop(p, j + 2)
    else if p[j] == ']' then j + 1
    else ItemsStop(p, j + 1)
  }

  // The first refused item of those from j on
  function ItemsConstruct(p: string, j: nat): Option<string>
    decreases |p| - j
  {
    if j >= |p| then None
    else if p[j] == '\\' then
      if EscapeConstruct(p, j).Some? then EscapeConstruct(p, j) else ItemsConstruct(p, j + 2)
    else if StartsWith(p, "[:", j) then Some("[:")
    else if p[j] == ']' then None
    else ItemsConstruct(p, j + 1)
  }

  function ClassStop(p: string, i: nat): nat {
    if EmptyClass(p, i) then ClassBody(p, i) + 1 else ItemsStop(p, ClassBody(p, i))
  }

  function ClassConstruct(p: string, i: nat): Option<string> {
    if EmptyClass(p, i) then Some(if ClassBody(p, i) == i + 2 then "[^]" else "[]")
    else ItemsConstruct(p, ClassBody(p, i))
  }

  // ------------------------------------------------------------------ quantifiers

  function DigitsEnd(t: CharTable, p: string, i: nat): (end: nat)
    requires i <= |p|
    ensures i <= end <= |p|
    decreases |p| - i
  {
    if i < |p| && t.isDigit(p[i]) then DigitsEnd(t, p, i + 1) else i
  }

  // {m}, {m,} or {m,n} at i: where it ends
  function BoundedEnd(t: CharTable, p: string, i: nat): (end: Option<nat>)
    requires i < |p|
    ensures end.Some? ==> i < end.value <= |p|
  {
    var j := DigitsEnd(t, p, i + 1);
    if j == i + 1 || j >= |p| then None
    else if p[j] == '}' then Some(j + 1)
    else if p[j] != ',' then None
    else
      var k := DigitsEnd(t, p, j + 1);
      if k < |p| && p[k] == '}' then Some(k + 1) else None
  }

  // {,n} at i, which only the server reads as a quantifier
  function OpenLowerBoundEnd(t: CharTable, p: string, i: nat): (end: Option<nat>)
    requires i < |p|
    ensures end.Some? ==> i < end.value <= |p|
  {
    if i + 1 >= |p| || p[i + 1] != ',' then None
    else
      var j := DigitsEnd(t, p, i + 2);
      if j > i + 2 && j < |p| && p[j] == '}' then Some(j + 1) else None
  }

  // ------------------------------------------------------------------ tokens

  function NextToken(t: CharTable, p: string, i: nat): (token: Token)
    requires i < |p|
    ensures token.at == i < token.end <= |p|
  {
    if p[i] == '\\' then Token(Escape, i, Min(i + 2, |p|))
    else if p[i] == '[' then Token(Class, i, ClassStop(p, i))
    else if StartsWith(p, "(?", i) then Token(GroupOpener, i, i + 2)
    else if p[i] == '{' && OpenLowerBoundEnd(t, p, i).Some? then Token(OpenLowerBound, i, OpenLowerBoundEnd(t, p, i).value)
    else if p[i] == '{' && BoundedEnd(t, p, i).Some? then Token(Bounded, i, BoundedEnd(t, p, i).value)
    else Token(Single, i, i + 1)
  }

  function TokensFrom(t: CharTable, p: string, i: nat): seq<Token>
    decreases |p| - i
  {
    if i >= |p| then []
    else
      var token := NextToken(t, p, i);
      [token] + TokensFrom(t, p, token.end)
  }

  function Tokens(t: CharTable, p: string): seq<Token> {
    TokensFrom(t, p, 0)
  }

  // The tokens lie one behind the other over all of the text they were taken from
  ghost predicate Tiles(tokens: seq<Token>, from: nat, to: nat) {
    if tokens == [] then from == to
    else tokens[0].at == from < tokens[0].end <= to && Tiles(tokens[1..], tokens[0].end, to)
  }

  lemma {:induction false} TokensTile(t: CharTable, p: string, i: nat)
    requires i <= |p|
    ensures Tiles(TokensFrom(t, p, i), i, |p|)
    decreases |p| - i
  {
    if i < |p| {
      TokensTile(t, p, NextToken(t, p, i).end);
    }
  }

  // ------------------------------------------------------------------ refused tokens

  // A '+' right after token k would make a possessive quantifier of it. '?' after a quantifier makes that
  // one lazy, and is itself none.
  predicate IsQuantifier(p: string, tokens: seq<Token>, k: nat)
    requires k < |tokens| && forall j :: 0 <= j < |tokens| ==> tokens[j].at < |p|
  {
    var c := p[tokens[k].at];
    || tokens[k].kind == Bounded
    || (tokens[k].kind == Single && (c == '*' || c == '+' || (c == '?' && !(k > 0 && IsQuantifier(p, tokens, k - 1)))))
  }

  function Refusal(t: CharTable, p: string, tokens: seq<Token>, k: nat): Option<string>
    requires k < |tokens| && Tiles(tokens, 0, |p|)
  {
    InTile(tokens, 0, |p|);
    var token := tokens[k];
    match token.kind
    case Escape => EscapeConstruct(p, token.at)
    case Class => ClassConstruct(p, token.at)
    case GroupOpener => if token.at + 2 <= |p| then GroupOpenerConstruct(t, p, token.at) else None
    case OpenLowerBound => Some("{,n}")
    case Bounded => None
    case Single =>
      if p[token.at] == '+' && k > 0 && IsQuantifier(p, tokens, k - 1) then Some([p[token.at - 1], '+']) else None
  }

  lemma {:induction false} InTile(tokens: seq<Token>, from: nat, to: nat)
    requires Tiles(tokens, from, to)
    ensures forall k :: 0 <= k < |tokens| ==> from <= tokens[k].at < tokens[k].end <= to && (k > 0 ==> from < tokens[k].at)
    ensures from <= to
    decreases |tokens|
  {
    if tokens != [] {
      InTile(tokens[1..], tokens[0].end, to);
      assert forall k :: 0 < k < |tokens| ==> tokens[k] == tokens[1..][k - 1];
    }
  }

  function FirstRefused(t: CharTable, p: string, tokens: seq<Token>, k: nat): (first: Option<nat>)
    requires k <= |tokens| && Tiles(tokens, 0, |p|)
    ensures first == None ==> forall j :: k <= j < |tokens| ==> Refusal(t, p, tokens, j) == None
    ensures first.Some? ==>
              && k <= first.value < |tokens| && Refusal(t, p, tokens, first.value).Some?
              && forall j :: k <= j < first.value ==> Refusal(t, p, tokens, j) == None
    decreases |tokens| - k
  {
    if k == |tokens| then None
    else if Refusal(t, p, tokens, k).Some? then Some(k)
    else FirstRefused(t, p, tokens, k + 1)
  }

  /** The verdict on a pattern: the first of its tokens that is refused, as the refusal names it. */
  function Verdict(t: CharTable, p: string): Option<string> {
    TokensTile(t, p, 0);
    match FirstRefused(t, p, Tokens(t, p), 0)
    case None => None
    case Some(k) => Refusal(t, p, Tokens(t, p), k)
  }

  /** A pattern passes exactly when none of its tokens is refused. */
  lemma PassesIff(t: CharTable, p: string)
    ensures Tiles(Tokens(t, p), 0, |p|)
    ensures Verdict(t, p) == None <==> forall k :: 0 <= k < |Tokens(t, p)| ==> Refusal(t, p, Tokens(t, p), k) == None
  {
    TokensTile(t, p, 0);
  }

  // ------------------------------------------------------------------ escaped text passes

  // What the character table has to say about the characters the scanner looks for
  predicate Sensible(t: CharTable) {
    && (forall c :: 'a' <= c <= 'z' || 'A' <= c <= 'Z' ==> t.isAlnum(c))
    && (forall c :: c in {'\\', '[', '(', '{', '*', '+', '?'} ==> !t.isAlnum(c))
  }

  // Every character that is not alphanumeric behind a backslash
  function Escaped(t: CharTable, s: string): string {
    if s == [] then []
    else (if t.isAlnum(s[0]) then [s[0]] else ['\\', s[0]]) + Escaped(t, s[1..])
  }

  predicate Harmless(p: string, token: Token) {
    && token.at < |p|
    && (|| (token.kind == Escape && EscapeConstruct(p, token.at) == None)
        || (token.kind == Single && p[token.at] != '+'))
  }

  lemma Mismatch(p: string, prefix: string, i: nat, k: nat)
    requires k < |prefix| && i + k < |p| && p[i + k] != prefix[k]
    ensures !StartsWith(p, prefix, i)
  {
    if i + |prefix| <= |p| {
      assert p[i..i + |prefix|][k] == p[i + k];
    }
  }

  lemma {:induction false} EscapedTokens(t: CharTable, before: string, s: string, p: string)
    requires Sensible(t) && p == before + Escaped(t, s)
    ensures forall token :: token in TokensFrom(t, p, |before|) ==> Harmless(p, token)
    decreases |s|
  {
    if s != [] {
      var i, c := |before|, s[0];
      if t.isAlnum(c) {
        assert p[i] == c && NextToken(t, p, i) == Token(Single, i, i + 1);
        assert p == (before + [c]) + Escaped(t, s[1..]);
        EscapedTokens(t, before + [c], s[1..], p);
      } else {
        assert p[i] == '\\' && p[i + 1] == c && NextToken(t, p, i) == Token(Escape, i, i + 2);
        assert "\\u{"[1] == 'u';
        Mismatch(p, "\\u{", i, 1);
        assert p == (before + ['\\', c]) + Escaped(t, s[1..]);
        EscapedTokens(t, before + ['\\', c], s[1..], p);
      }
    }
  }

  /** The escaping of any text uses no refused construct: what a caller quotes literally is always let through. */
  lemma EscapedPasses(t: CharTable, s: string)
    requires Sensible(t)
    ensures Verdict(t, Escaped(t, s)) == None
  {
    var p := Escaped(t, s);
    PassesIff(t, p);
    assert p == [] + p;
    EscapedTokens(t, [], s, p);
    hide Escaped, Tokens, Tiles, Sensible;
    forall k | 0 <= k < |Tokens(t, p)|
      ensures Refusal(t, p, Tokens(t, p), k) == None
    {
      assert Harmless(p, Tokens(t, p)[k]);
    }
  }
}
