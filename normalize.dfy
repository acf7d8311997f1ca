/** The SPDX license-expression tokeniser of licenses/normalize.go.

    The Go code hands an ordered rule table to the lexmachine library. The
    model fixes that library's matching discipline: at each position every
    rule is tried, the longest match wins, and on a tie the rule added first
    wins. A rule either emits a token (its type is an index into `Tokens`,
    its text the matched characters) or skips the match. */
module Normalize {
  import opened Wrappers

  /** One token: `t` is the token's type name, `identifier` the matched text. */
  datatype ExprToken = ExprToken(t: string, identifier: string)

  /** The token type names, in the order that fixes their numbers. */
  const Tokens: seq<string> := ["AND", "OR", "PLUS", "WITH", "LPAREN", "RPAREN", "IDENTIFIER"]

  /** The map that `init` builds from `Tokens`: each name to its position. */
  const TokenMap: map<string, nat> :=
    map["AND" := 0, "OR" := 1, "PLUS" := 2, "WITH" := 3, "LPAREN" := 4, "RPAREN" := 5, "IDENTIFIER" := 6]

  /** init: fill the name-to-number map by walking the names in order. */
  method InitTokenMap() returns (m: map<string, nat>)
    ensures m.Keys == set i | 0 <= i < |Tokens| :: Tokens[i]
    ensures forall i :: 0 <= i < |Tokens| ==> m[Tokens[i]] == i
    ensures m == TokenMap
  {
    m := map[];
    for tokenID := 0 to |Tokens|
      invariant m.Keys == set i | 0 <= i < tokenID :: Tokens[i]
      invariant forall i :: 0 <= i < tokenID ==> m[Tokens[i]] == i
    {
      m := m[Tokens[tokenID] := tokenID];
    }
    assert Tokens[0] in m && Tokens[1] in m && Tokens[2] in m && Tokens[3] in m
        && Tokens[4] in m && Tokens[5] in m && Tokens[6] in m;
    assert m.Keys == TokenMap.Keys;
  }

  /** The two tables invert each other. */
  lemma TokenMapInvertsTokens()
    ensures forall n :: n in TokenMap ==> TokenMap[n] < |Tokens| && Tokens[TokenMap[n]] == n
    ensures forall i :: 0 <= i < |Tokens| ==> Tokens[i] in TokenMap && TokenMap[Tokens[i]] == i
  {
  }

  // ----- the rule table -----

  /** The regular expressions used in createLexer. */
  datatype Pattern =
    | Literal(text: string)   // AND, OR, \+, WITH, \(, \)
    | IdentifierRun           // [a-zA-Z0-9\-\.]+
    | Comment                 // #[^\n]*
    | BlankRun                // ( |\t|\f)+
    | EscapedNewline          // \\\n
    | LineBreak               // \n|\r|\n\r

  datatype Action = Emit(tokenType: nat) | Skip

  datatype Rule = Rule(pattern: Pattern, action: Action)

  /** createLexer: the rules in the order they are added. */
  const Rules: seq<Rule> := [
    Rule(Literal("AND"), Emit(0)),
    Rule(Literal("OR"), Emit(1)),
    Rule(Literal("+"), Emit(2)),
    Rule(Literal("WITH"), Emit(3)),
    Rule(Literal("("), Emit(4)),
    Rule(Literal(")"), Emit(5)),
    Rule(IdentifierRun, Emit(6)),
    Rule(Comment, Skip),
    Rule(BlankRun, Skip),
    Rule(EscapedNewline, Skip),
    Rule(LineBreak, Skip)
  ]

  /** The action of rule `ri`: the first seven rules emit the token type
      with their own number, the rest skip what they match. */
  function ActionOf(ri: nat): (a: Action)
    ensures a.Emit? ==> a.tokenType < |Tokens|
  {
    if ri < 7 then Emit(ri) else Skip
  }

  lemma ActionOfRules()
    ensures forall ri :: 0 <= ri < |Rules| ==> Rules[ri].action == ActionOf(ri)
  {
  }

  predicate IdentChar(c: char) {
    ('a' <= c <= 'z') || ('A' <= c <= 'Z') || ('0' <= c <= '9') || c == '-' || c == '.'
  }

  predicate BlankChar(c: char) {
    c == ' ' || c == '\t' || c == '\U{000C}'
  }

  datatype CharClass = Identifier | Blank | NotNewline

  predicate InClass(c: char, cls: CharClass) {
    match cls
    case Identifier => IdentChar(c)
    case Blank => BlankChar(c)
    case NotNewline => c != '\n'
  }

  /** The length of the longest run of `cls` characters starting at `p`. */
  function Run(s: string, p: nat, cls: CharClass): (n: nat)
    requires p <= |s|
    decreases |s| - p
    ensures p + n <= |s|
    ensures forall i :: p <= i < p + n ==> InClass(s[i], cls)
    ensures p + n == |s| || !InClass(s[p + n], cls)
  {
    if p < |s| && InClass(s[p], cls) then 1 + Run(s, p + 1, cls) else 0
  }

  /** `text` occurs in `s` at position `p`. */
  predicate LiteralAt(s: string, p: nat, text: string)
    decreases |text|
  {
    p + |text| <= |s| && (text == [] || (s[p] == text[0] && LiteralAt(s, p + 1, text[1..])))
  }

  lemma {:induction false} LiteralAtSlice(s: string, p: nat, text: string)
    ensures LiteralAt(s, p, text) <==> p + |text| <= |s| && s[p..p + |text|] == text
    decreases |text|
  {
    if text != [] && p + |text| <= |s| {
      LiteralAtSlice(s, p + 1, text[1..]);
      assert s[p..p + |text|] == [s[p]] + s[p + 1..p + |text|];
      assert text == [text[0]] + text[1..];
    }
  }

  /** The length of the longest match of `pat` at position `p`; 0 if none. */
  function MatchLen(pat: Pattern, s: string, p: nat): (n: nat)
    requires p <= |s|
    ensures p + n <= |s|
  {
    match pat
    case Literal(text) => if LiteralAt(s, p, text) then |text| else 0
    case IdentifierRun => Run(s, p, Identifier)
    case Comment =>
      if p < |s| && s[p] == '#' then 1 + Run(s, p + 1, NotNewline) else 0
    case BlankRun => Run(s, p, Blank)
    case EscapedNewline =>
      if p + 2 <= |s| && s[p] == '\\' && s[p + 1] == '\n' then 2 else 0
    case LineBreak =>
      if p + 2 <= |s| && s[p] == '\n' && s[p + 1] == '\r' then 2
      else if p < |s| && (s[p] == '\n' || s[p] == '\r') then 1
      else 0
  }

  /** The discipline lexmachine applies at position `p`: rule `ri` matches
      `len` characters, no rule matches more, and every earlier rule matches
      fewer. `len == 0` means no rule matches at all. */
  predicate LongestEarliest(s: string, p: nat, ri: nat, len: nat)
    requires p <= |s|
  {
    && (forall j :: 0 <= j < |Rules| ==> MatchLen(Rules[j].pattern, s, p) <= len)
    && (len > 0 ==> ri < |Rules| && MatchLen(Rules[ri].pattern, s, p) == len
                    && forall j :: 0 <= j < ri ==> MatchLen(Rules[j].pattern, s, p) < len)
  }

  /** The discipline leaves no choice: two answers that obey it agree. */
  lemma LongestEarliestUnique(s: string, p: nat, ri: nat, len: nat, ri': nat, len': nat)
    requires p <= |s|
    requires LongestEarliest(s, p, ri, len) && LongestEarliest(s, p, ri', len')
    ensures len == len'
    ensures len > 0 ==> ri == ri'
  {
    if len > 0 {
      assert MatchLen(Rules[ri].pattern, s, p) <= len';
    }
    if len' > 0 {
      assert MatchLen(Rules[ri'].pattern, s, p) <= len;
    }
  }

  /** The rule lexmachine picks at `p` among the first `k` rules and the
      length it matches: a rule displaces the pick of the earlier rules only
      when it matches strictly more; `(|Rules|, 0)` when none matches. */
  function Best(s: string, p: nat, k: nat): (r: (nat, nat))
    requires p <= |s| && k <= |Rules|
    ensures p + r.1 <= |s|
    ensures r.1 > 0 ==> r.0 < k
  {
    if k == 0 then (|Rules|, 0)
    else
      var prev := Best(s, p, k - 1);
      var here := MatchLen(Rules[k - 1].pattern, s, p);
      if here > prev.1 then (k - 1, here) else prev
  }

  lemma {:induction false} BestIsLongestEarliest(s: string, p: nat, k: nat)
    requires p <= |s| && k <= |Rules|
    ensures forall j :: 0 <= j < k ==> MatchLen(Rules[j].pattern, s, p) <= Best(s, p, k).1
    ensures Best(s, p, k).1 > 0 ==>
              && MatchLen(Rules[Best(s, p, k).0].pattern, s, p) == Best(s, p, k).1
              && forall j :: 0 <= j < Best(s, p, k).0 ==> MatchLen(Rules[j].pattern, s, p) < Best(s, p, k).1
  {
    if k > 0 {
      BestIsLongestEarliest(s, p, k - 1);
      var prev := Best(s, p, k - 1);
      var here := MatchLen(Rules[k - 1].pattern, s, p);
      if here > prev.1 {
        assert Best(s, p, k) == (k - 1, here);
      } else {
        assert Best(s, p, k) == prev;
      }
    }
  }

  /** The rule chosen at `p` and the length it matches. */
  function Step(s: string, p: nat): (r: (nat, nat))
    requires p < |s|
    ensures p + r.1 <= |s|
    ensures r.1 > 0 ==> r.0 < |Rules|
  {
    Best(s, p, |Rules|)
  }

  /** Step chooses what the longest-match, earliest-rule discipline over the
      rule table chooses. */
  lemma StepIsLongestEarliest(s: string, p: nat)
    requires p < |s|
    ensures LongestEarliest(s, p, Step(s, p).0, Step(s, p).1)
  {
    BestIsLongestEarliest(s, p, |Rules|);
  }

  /** The fixed spelling of the first six token types. */
  const Spellings: seq<string> := ["AND", "OR", "+", "WITH", "(", ")"]

  /** Text an IDENTIFIER can carry: a non-empty run of identifier characters
      that is not one of the keywords (on a tie the keyword rule comes
      first). */
  predicate IdentifierText(w: string) {
    && |w| > 0
    && (forall i :: 0 <= i < |w| ==> IdentChar(w[i]))
    && w != "AND" && w != "OR" && w != "WITH"
  }

  /** `tok` is a token of type number `n`: its name is `Tokens[n]` and its
      text is the spelling that type allows. */
  predicate OfType(tok: ExprToken, n: nat)
    requires n < |Tokens|
  {
    tok.t == Tokens[n]
    && if n < |Spellings| then tok.identifier == Spellings[n] else IdentifierText(tok.identifier)
  }

  /** `tok` is of one of the types `n`, `n + 1`, ... */
  predicate OfSomeTypeFrom(tok: ExprToken, n: nat)
    decreases |Tokens| - n
  {
    n < |Tokens| && (OfType(tok, n) || OfSomeTypeFrom(tok, n + 1))
  }

  /** What a token can look like: a keyword or bracket carries its own
      spelling and an IDENTIFIER carries identifier text. */
  predicate WellFormedToken(tok: ExprToken) {
    OfSomeTypeFrom(tok, 0)
  }

  lemma {:induction false} OfTypeWellFormed(tok: ExprToken, n: nat, m: nat)
    requires m <= n < |Tokens| && OfType(tok, n)
    ensures OfSomeTypeFrom(tok, m)
    decreases n - m
  {
    if m < n {
      OfTypeWellFormed(tok, n, m + 1);
    }
  }

  /** The tokens the match chosen at `p` contributes: none for a skipping
      rule, one token carrying the matched text for an emitting rule. */
  function Emitted(s: string, p: nat, ri: nat, len: nat): (r: seq<ExprToken>)
    requires p + len <= |s|
    ensures |r| <= 1
    ensures ActionOf(ri).Skip? <==> r == []
    ensures r != [] ==> r[0].identifier == s[p..p + len]
  {
    match ActionOf(ri)
    case Skip => []
    case Emit(tt) => [ExprToken(Tokens[tt], s[p..p + len])]
  }

  /** The token emitted at `p`, if any, is of the type of the rule chosen. */
  lemma EmittedOfType(s: string, p: nat)
    requires p < |s| && Step(s, p).1 > 0
    ensures var (ri, len) := Step(s, p);
            ri < |Tokens| ==> |Emitted(s, p, ri, len)| == 1 && OfType(Emitted(s, p, ri, len)[0], ri)
  {
    var (ri, len) := Step(s, p);
    StepIsLongestEarliest(s, p);
    var text := s[p..p + len];
    if ri < 6 {
      LiteralAtSlice(s, p, Rules[ri].pattern.text);
      assert text == Spellings[ri];
    } else if ri == 6 {
      assert forall i :: 0 <= i < len ==> text[i] == s[p + i];
      LiteralAtSlice(s, p, "AND");
      LiteralAtSlice(s, p, "OR");
      LiteralAtSlice(s, p, "WITH");
      assert MatchLen(Rules[0].pattern, s, p) < len;
      assert MatchLen(Rules[1].pattern, s, p) < len;
      assert MatchLen(Rules[3].pattern, s, p) < len;
    }
  }

  /** The token emitted at `p`, if any, is well formed. */
  lemma EmittedWellFormed(s: string, p: nat)
    requires p < |s| && Step(s, p).1 > 0
    ensures AllWellFormed(Emitted(s, p, Step(s, p).0, Step(s, p).1))
  {
    var (ri, len) := Step(s, p);
    EmittedOfType(s, p);
    if ri < |Tokens| {
      OfTypeWellFormed(Emitted(s, p, ri, len)[0], ri, 0);
    }
  }

  /** `acc` followed by the tokens of `r`, or the error of `r`. */
  function Prepend(acc: seq<ExprToken>, r: Result<seq<ExprToken>>): Result<seq<ExprToken>> {
    if r.Err? then r else Ok(acc + r.value)
  }

  lemma PrependPrepend(acc: seq<ExprToken>, more: seq<ExprToken>, r: Result<seq<ExprToken>>)
    ensures Prepend(acc, Prepend(more, r)) == Prepend(acc + more, r)
  {
    if r.Ok? {
      assert acc + (more + r.value) == (acc + more) + r.value;
    }
  }

  /** The token list of `s[p..]`, or an error when some reached position
      matches no rule. */
  function Tokenize(s: string, p: nat): Result<seq<ExprToken>>
    requires p <= |s|
    decreases |s| - p
  {
    if p == |s| then Ok([])
    else
      var (ri, len) := Step(s, p);
      if len == 0 then Err("error lexing for tokens mid-string")
      else Prepend(Emitted(s, p, ri, len), Tokenize(s, p + len))
  }

  lemma TokenizeUnfold(s: string, p: nat)
    requires p < |s|
    ensures Tokenize(s, p) == if Step(s, p).1 == 0 then Err("error lexing for tokens mid-string")
                              else Prepend(Emitted(s, p, Step(s, p).0, Step(s, p).1), Tokenize(s, p + Step(s, p).1))
  {
  }

  /** getTokens: scan `expression` left to right, collecting tokens. */
  method GetTokens(expression: string) returns (r: Result<seq<ExprToken>>)
    ensures r == Tokenize(expression, 0)
  {
    var exprTokens: seq<ExprToken> := [];
    var p := 0;
    assert Prepend([], Tokenize(expression, 0)) == Tokenize(expression, 0) by {
      if Tokenize(expression, 0).Ok? {
        assert [] + Tokenize(expression, 0).value == Tokenize(expression, 0).value;
      }
    }
    while p < |expression|
      invariant p <= |expression|
      invariant Prepend(exprTokens, Tokenize(expression, p)) == Tokenize(expression, 0)
      decreases |expression| - p
    {
      var (ri, len) := Step(expression, p);
      TokenizeUnfold(expression, p);
      if len == 0 {
        return Err("error lexing for tokens mid-string");
      }
      var emitted := Emitted(expression, p, ri, len);
      PrependPrepend(exprTokens, emitted, Tokenize(expression, p + len));
      exprTokens := exprTokens + emitted;
      p := p + len;
    }
    assert exprTokens + [] == exprTokens;
    return Ok(exprTokens);
  }

  // ----- properties of the tokeniser -----

  /** Every token is well formed: its type is one of the seven names and its
      text is the spelling that type allows. */
  lemma {:induction false} TokensWellFormed(s: string, p: nat)
    requires p <= |s|
    requires Tokenize(s, p).Ok?
    ensures AllWellFormed(Tokenize(s, p).value)
    decreases |s| - p
  {
    if p < |s| {
      var len := Step(s, p).1;
      TokenizeUnfold(s, p);
      TokensWellFormed(s, p + len);
      EmittedWellFormed(s, p);
      var e := Emitted(s, p, Step(s, p).0, len);
      var rest := Tokenize(s, p + len).value;
      var all := Tokenize(s, p).value;
      assert all == e + rest;
      AllWellFormedConcat(e, rest);
    }
  }

  predicate AllWellFormed(ts: seq<ExprToken>) {
    forall k :: 0 <= k < |ts| ==> WellFormedToken(ts[k])
  }

  lemma AllWellFormedConcat(a: seq<ExprToken>, b: seq<ExprToken>)
    requires AllWellFormed(a) && AllWellFormed(b)
    ensures AllWellFormed(a + b)
  {
    forall k | 0 <= k < |a + b|
      ensures WellFormedToken((a + b)[k])
    {
      if k < |a| {
        assert (a + b)[k] == a[k];
      } else {
        assert (a + b)[k] == b[k - |a|];
      }
    }
  }

  /** Characters some rule accepts on their own. */
  predicate Lexable(c: char) {
    IdentChar(c) || c == '+' || c == '(' || c == ')' || BlankChar(c) || c == '\n' || c == '\r'
  }

  predicate Skippable(c: char) {
    BlankChar(c) || c == '\n' || c == '\r'
  }

  /** `s` with every blank, tab, form feed and line break removed. */
  function RemoveBlanks(s: string): (r: string)
    ensures |r| <= |s|
  {
    if s == [] then []
    else (if Skippable(s[0]) then [] else [s[0]]) + RemoveBlanks(s[1..])
  }

  lemma {:induction false} RemoveBlanksAppend(a: string, b: string)
    ensures RemoveBlanks(a + b) == RemoveBlanks(a) + RemoveBlanks(b)
  {
    if a != [] {
      assert (a + b)[1..] == a[1..] + b;
      RemoveBlanksAppend(a[1..], b);
      var h := if Skippable(a[0]) then [] else [a[0]];
      assert RemoveBlanks(a + b) == h + RemoveBlanks(a[1..] + b);
      assert h + (RemoveBlanks(a[1..]) + RemoveBlanks(b)) == (h + RemoveBlanks(a[1..])) + RemoveBlanks(b);
    } else {
      assert a + b == b;
    }
  }

  lemma {:induction false} RemoveBlanksOfBlanks(a: string)
    requires forall i :: 0 <= i < |a| ==> Skippable(a[i])
    ensures RemoveBlanks(a) == []
  {
    if a != [] { RemoveBlanksOfBlanks(a[1..]); }
  }

  lemma {:induction false} RemoveBlanksOfSolid(a: string)
    requires forall i :: 0 <= i < |a| ==> !Skippable(a[i])
    ensures RemoveBlanks(a) == a
  {
    if a != [] {
      RemoveBlanksOfSolid(a[1..]);
      assert [a[0]] + a[1..] == a;
    }
  }

  /** The concatenated texts of a token list. */
  function Texts(ts: seq<ExprToken>): string {
    if ts == [] then [] else ts[0].identifier + Texts(ts[1..])
  }

  /** A lexable character starts a match of some rule. */
  lemma LexableStarts(s: string, p: nat)
    requires p < |s| && Lexable(s[p])
    ensures Step(s, p).1 > 0
  {
    StepIsLongestEarliest(s, p);
    var c := s[p];
    if IdentChar(c) { assert MatchLen(Rules[6].pattern, s, p) > 0; }
    else if c == '+' { assert MatchLen(Rules[2].pattern, s, p) > 0; }
    else if c == '(' { assert MatchLen(Rules[4].pattern, s, p) > 0; }
    else if c == ')' { assert MatchLen(Rules[5].pattern, s, p) > 0; }
    else if BlankChar(c) { assert MatchLen(Rules[8].pattern, s, p) > 0; }
    else { assert MatchLen(Rules[10].pattern, s, p) > 0; }
  }

  /** Without `#` and `\`, the text a rule matches is blank for a skipping
      rule, free of blanks for an emitting one, and lexable throughout. */
  lemma MatchedText(s: string, p: nat)
    requires p < |s| && Step(s, p).1 > 0
    requires forall i :: 0 <= i < |s| ==> s[i] != '#' && s[i] != '\\'
    ensures var (ri, len) := Step(s, p);
            && (ActionOf(ri).Skip? ==> forall i :: p <= i < p + len ==> Skippable(s[i]))
            && (ActionOf(ri).Emit? ==> forall i :: p <= i < p + len ==> !Skippable(s[i]))
            && (forall i :: p <= i < p + len ==> Lexable(s[i]))
  {
    var (ri, len) := Step(s, p);
    StepIsLongestEarliest(s, p);
    if ri < 6 {
      var text := Rules[ri].pattern.text;
      LiteralAtSlice(s, p, text);
      assert forall i :: p <= i < p + len ==> s[i] == text[i - p];
    }
  }

  /** With no `#` and no `\` in it, a string of lexable characters always
      tokenises, and the token texts are the input with its blanks, tabs,
      form feeds and line breaks removed, in input order. */
  lemma {:induction false} TokenizeLexable(s: string, p: nat)
    requires p <= |s|
    requires forall i :: 0 <= i < |s| ==> s[i] != '#' && s[i] != '\\'
    requires forall i :: p <= i < |s| ==> Lexable(s[i])
    ensures Tokenize(s, p).Ok?
    ensures Texts(Tokenize(s, p).value) == RemoveBlanks(s[p..])
    decreases |s| - p
  {
    if p < |s| {
      LexableStarts(s, p);
      MatchedText(s, p);
      TokenizeLexable(s, p + Step(s, p).1);
      TokenizeLexableStep(s, p);
    }
  }

  /** One step of TokenizeLexable: from the tokens after the first match to
      the tokens from `p`. */
  lemma TokenizeLexableStep(s: string, p: nat)
    requires p < |s| && Step(s, p).1 > 0
    requires var (ri, len) := Step(s, p);
             && (ActionOf(ri).Skip? ==> forall i :: p <= i < p + len ==> Skippable(s[i]))
             && (ActionOf(ri).Emit? ==> forall i :: p <= i < p + len ==> !Skippable(s[i]))
    requires Tokenize(s, p + Step(s, p).1).Ok?
    requires Texts(Tokenize(s, p + Step(s, p).1).value) == RemoveBlanks(s[p + Step(s, p).1..])
    ensures Tokenize(s, p).Ok?
    ensures Texts(Tokenize(s, p).value) == RemoveBlanks(s[p..])
  {
    var (ri, len) := Step(s, p);
    TokenizeUnfold(s, p);
    assert s[p..] == s[p..p + len] + s[p + len..];
    RemoveBlanksAppend(s[p..p + len], s[p + len..]);
    var e := Emitted(s, p, ri, len);
    var rest := Tokenize(s, p + len).value;
    if e == [] {
      RemoveBlanksOfBlanks(s[p..p + len]);
      assert Tokenize(s, p).value == rest;
    } else {
      RemoveBlanksOfSolid(s[p..p + len]);
      assert Tokenize(s, p).value == e + rest;
      assert (e + rest)[1..] == rest;
    }
  }

  /** No rule matches at a character that is not lexable, unless it starts
      a comment or an escaped newline. */
  lemma NoMatch(s: string, p: nat)
    requires p < |s| && !Lexable(s[p]) && s[p] != '#' && s[p] != '\\'
    ensures Step(s, p).1 == 0
  {
    StepIsLongestEarliest(s, p);
    forall j | 0 <= j < |Rules|
      ensures MatchLen(Rules[j].pattern, s, p) == 0
    {
    }
  }

  /** With no `#` and no `\` in it, a character that no rule accepts makes
      the whole scan fail, however much was tokenised before it. */
  lemma {:induction false} TokenizeRejects(s: string, p: nat, bad: nat)
    requires p <= bad < |s|
    requires forall i :: 0 <= i < |s| ==> s[i] != '#' && s[i] != '\\'
    requires !Lexable(s[bad])
    ensures Tokenize(s, p).Err?
    decreases |s| - p
  {
    var (ri, len) := Step(s, p);
    if p < bad && Lexable(s[p]) {
      LexableStarts(s, p);
      MatchedText(s, p);
      assert p + len <= bad;
      TokenizeRejects(s, p + len, bad);
    } else {
      NoMatch(s, p);
    }
  }

  /** Hence, for input without comments and escaped newlines: the scan
      succeeds exactly when every character is lexable. */
  lemma TokenizeSucceedsIff(s: string)
    requires forall i :: 0 <= i < |s| ==> s[i] != '#' && s[i] != '\\'
    ensures Tokenize(s, 0).Ok? <==> forall i :: 0 <= i < |s| ==> Lexable(s[i])
  {
    if forall i :: 0 <= i < |s| ==> Lexable(s[i]) {
      TokenizeLexable(s, 0);
    } else {
      var bad :| 0 <= bad < |s| && !Lexable(s[bad]);
      TokenizeRejects(s, 0, bad);
    }
  }

  /** A comment runs up to the next line break (or the end of the text)
      and produces no token: tokenising from the `#` is tokenising from the
      line break. */
  lemma CommentSkipped(s: string, p: nat, q: nat)
    requires p < q <= |s| && s[p] == '#'
    requires forall i :: p < i < q ==> s[i] != '\n'
    requires q == |s| || s[q] == '\n'
    ensures Tokenize(s, p) == Tokenize(s, q)
  {
    RunExact(s, p + 1, q, NotNewline);
    CommentOnlyMatch(s, p);
    StepFromLongestEarliest(s, p, 7, q - p);
    TokenizeUnfold(s, p);
    if Tokenize(s, q).Ok? {
      assert [] + Tokenize(s, q).value == Tokenize(s, q).value;
    }
  }

  /** A run that stops at `q` has length `q - p`. */
  lemma {:induction false} RunExact(s: string, p: nat, q: nat, cls: CharClass)
    requires p <= q <= |s|
    requires forall i :: p <= i < q ==> InClass(s[i], cls)
    requires q == |s| || !InClass(s[q], cls)
    ensures Run(s, p, cls) == q - p
    decreases q - p
  {
    if p < q {
      RunExact(s, p + 1, q, cls);
    }
  }

  /** At a `#` only the comment rule matches. */
  lemma CommentOnlyMatch(s: string, p: nat)
    requires p < |s| && s[p] == '#'
    ensures forall j :: 0 <= j < |Rules| && j != 7 ==> MatchLen(Rules[j].pattern, s, p) == 0
  {
    forall j | 0 <= j < |Rules| && j != 7
      ensures MatchLen(Rules[j].pattern, s, p) == 0
    {
    }
  }

  /** A comment that runs to the end of the text leaves no token at all. */
  lemma CommentAtEnd(s: string, p: nat)
    requires p < |s| && s[p] == '#'
    requires forall i :: p < i < |s| ==> s[i] != '\n'
    ensures Tokenize(s, p) == Ok([])
  {
    CommentSkipped(s, p, |s|);
  }

  /** A backslash before a line break is an escaped newline: both
      characters are skipped. */
  lemma EscapedNewlineSkipped(s: string, p: nat)
    requires p + 2 <= |s| && s[p] == '\\' && s[p + 1] == '\n'
    ensures Tokenize(s, p) == Tokenize(s, p + 2)
  {
    assert MatchLen(Rules[9].pattern, s, p) == 2;
    forall j | 0 <= j < |Rules| && j != 9
      ensures MatchLen(Rules[j].pattern, s, p) == 0
    {
    }
    StepFromLongestEarliest(s, p, 9, 2);
    TokenizeUnfold(s, p);
    if Tokenize(s, p + 2).Ok? {
      assert [] + Tokenize(s, p + 2).value == Tokenize(s, p + 2).value;
    }
  }

  /** A run of identifier characters is at least as long as any prefix of
      identifier characters. */
  lemma {:induction false} RunAtLeast(s: string, p: nat, k: nat)
    requires p + k <= |s|
    requires forall i :: p <= i < p + k ==> IdentChar(s[i])
    ensures Run(s, p, Identifier) >= k
    decreases k
  {
    if k > 0 {
      RunAtLeast(s, p + 1, k - 1);
    }
  }

  /** The token type chosen for a whole identifier-character run. */
  function WordRule(w: string): nat {
    if w == "AND" then 0 else if w == "OR" then 1 else if w == "WITH" then 3 else 6
  }

  /** At an identifier character no punctuation, comment, blank or line
      rule matches. */
  lemma OthersMiss(s: string, p: nat)
    requires p < |s| && IdentChar(s[p])
    ensures MatchLen(Rules[2].pattern, s, p) == 0 && MatchLen(Rules[4].pattern, s, p) == 0
    ensures MatchLen(Rules[5].pattern, s, p) == 0 && MatchLen(Rules[7].pattern, s, p) == 0
    ensures MatchLen(Rules[8].pattern, s, p) == 0 && MatchLen(Rules[9].pattern, s, p) == 0
    ensures MatchLen(Rules[10].pattern, s, p) == 0
  {
    assert !BlankChar(s[p]);
  }

  /** A literal made of identifier characters matches no more than the
      identifier run at the same place. */
  lemma LiteralWithinRun(s: string, p: nat, text: string)
    requires p <= |s|
    requires forall i :: 0 <= i < |text| ==> IdentChar(text[i])
    ensures MatchLen(Literal(text), s, p) <= Run(s, p, Identifier)
  {
    LiteralAtSlice(s, p, text);
    if LiteralAt(s, p, text) {
      assert forall i :: p <= i < p + |text| ==> s[i] == text[i - p];
      RunAtLeast(s, p, |text|);
    }
  }

  /** At an identifier character no rule matches more than the run of
      identifier characters. */
  lemma MatchesAtIdent(s: string, p: nat)
    requires p < |s| && IdentChar(s[p])
    ensures forall j :: 0 <= j < |Rules| ==> MatchLen(Rules[j].pattern, s, p) <= Run(s, p, Identifier)
  {
    var n := Run(s, p, Identifier);
    OthersMiss(s, p);
    LiteralWithinRun(s, p, "AND");
    LiteralWithinRun(s, p, "OR");
    LiteralWithinRun(s, p, "WITH");
    assert Rules[0].pattern == Literal("AND") && Rules[1].pattern == Literal("OR");
    assert Rules[3].pattern == Literal("WITH") && Rules[6].pattern == IdentifierRun;
    assert MatchLen(Rules[0].pattern, s, p) <= n && MatchLen(Rules[1].pattern, s, p) <= n;
    assert MatchLen(Rules[3].pattern, s, p) <= n && MatchLen(Rules[6].pattern, s, p) <= n;
  }

  /** The run of identifier characters at `p` spells `text`. */
  predicate Spells(s: string, p: nat, text: string)
    requires p <= |s|
  {
    Run(s, p, Identifier) == |text| && LiteralAt(s, p, text)
  }

  /** The rule chosen for the run at `p`: a keyword's when the run spells
      it, IDENTIFIER's otherwise. */
  function RunRule(s: string, p: nat): nat
    requires p <= |s|
  {
    if Spells(s, p, "AND") then 0 else if Spells(s, p, "OR") then 1
    else if Spells(s, p, "WITH") then 3 else 6
  }

  /** A run that spells one of the keywords is chosen as that keyword's
      rule, which comes before every other rule that matches as much. */
  lemma KeywordRunStep(s: string, p: nat, ri: nat)
    requires p < |s| && IdentChar(s[p])
    requires ri == 0 || ri == 1 || ri == 3
    requires Spells(s, p, Rules[ri].pattern.text)
    ensures LongestEarliest(s, p, ri, Run(s, p, Identifier))
  {
    MatchesAtIdent(s, p);
    OthersMiss(s, p);
    if ri > 0 {
      assert s[p] != 'A';
      assert MatchLen(Rules[0].pattern, s, p) == 0;
    }
    if ri > 1 {
      assert s[p] != 'O';
      assert MatchLen(Rules[1].pattern, s, p) == 0;
    }
  }

  /** Each keyword rule matches less than a run it does not spell. */
  lemma KeywordShorter(s: string, p: nat, ri: nat)
    requires p < |s| && IdentChar(s[p])
    requires ri == 0 || ri == 1 || ri == 3
    requires !Spells(s, p, Rules[ri].pattern.text)
    ensures MatchLen(Rules[ri].pattern, s, p) < Run(s, p, Identifier)
  {
    var text := Rules[ri].pattern.text;
    assert forall i :: 0 <= i < |text| ==> IdentChar(text[i]);
    LiteralWithinRun(s, p, text);
  }

  /** Any other run is chosen as an IDENTIFIER: each keyword rule then
      matches less than the whole run. */
  lemma PlainRunStep(s: string, p: nat)
    requires p < |s| && IdentChar(s[p])
    requires !Spells(s, p, "AND") && !Spells(s, p, "OR") && !Spells(s, p, "WITH")
    ensures LongestEarliest(s, p, 6, Run(s, p, Identifier))
  {
    var n := Run(s, p, Identifier);
    MatchesAtIdent(s, p);
    OthersMiss(s, p);
    KeywordShorter(s, p, 0);
    KeywordShorter(s, p, 1);
    KeywordShorter(s, p, 3);
    forall j | 0 <= j < 6
      ensures MatchLen(Rules[j].pattern, s, p) < n
    {
    }
  }

  /** The answer of the longest-match, earliest-rule discipline is the
      step taken. */
  lemma StepFromLongestEarliest(s: string, p: nat, ri: nat, len: nat)
    requires p < |s| && len > 0 && LongestEarliest(s, p, ri, len)
    ensures Step(s, p) == (ri, len)
  {
    StepIsLongestEarliest(s, p);
    LongestEarliestUnique(s, p, Step(s, p).0, Step(s, p).1, ri, len);
  }

  /** The rule chosen for the run and the run's length obey the
      longest-match, earliest-rule discipline. */
  lemma RunLongestEarliest(s: string, p: nat)
    requires p < |s| && IdentChar(s[p])
    ensures LongestEarliest(s, p, RunRule(s, p), Run(s, p, Identifier))
  {
    if Spells(s, p, "AND") {
      assert Rules[0].pattern.text == "AND";
      KeywordRunStep(s, p, 0);
    } else if Spells(s, p, "OR") {
      assert Rules[1].pattern.text == "OR";
      KeywordRunStep(s, p, 1);
    } else if Spells(s, p, "WITH") {
      assert Rules[3].pattern.text == "WITH";
      KeywordRunStep(s, p, 3);
    } else {
      PlainRunStep(s, p);
    }
  }

  /** At an identifier character the whole run of identifier characters is
      taken, as a keyword when it spells AND, OR or WITH (the keyword rule
      comes first on the tie) and as one IDENTIFIER otherwise. */
  lemma RunStep(s: string, p: nat)
    requires p < |s| && IdentChar(s[p])
    ensures Step(s, p) == (RunRule(s, p), Run(s, p, Identifier))
  {
    RunLongestEarliest(s, p);
    StepFromLongestEarliest(s, p, RunRule(s, p), Run(s, p, Identifier));
  }

  /** The run spells a keyword exactly when its text is that keyword. */
  lemma RunRuleIsWordRule(s: string, p: nat)
    requires p <= |s|
    ensures RunRule(s, p) == WordRule(s[p..p + Run(s, p, Identifier)])
  {
    LiteralAtSlice(s, p, "AND");
    LiteralAtSlice(s, p, "OR");
    LiteralAtSlice(s, p, "WITH");
  }

  /** At an identifier character the whole run of identifier characters is
      taken: a run spelling exactly AND, OR or WITH is that keyword, any
      other run is one IDENTIFIER, and a `+` or any other character ends
      the run. */
  lemma IdentifierStep(s: string, p: nat)
    requires p < |s| && IdentChar(s[p])
    ensures var n := Run(s, p, Identifier);
            Step(s, p) == (WordRule(s[p..p + n]), n)
  {
    RunStep(s, p);
    RunRuleIsWordRule(s, p);
  }

  // ----- the scan, token by token -----

  /** A maximal run of `k` identifier characters at `p` gives one token,
      of the keyword's type when the run spells a keyword and of type
      IDENTIFIER otherwise, and the scan goes on after the run. */
  lemma IdentTokenAt(s: string, p: nat, k: nat)
    requires 0 < k && p + k <= |s|
    requires forall i :: p <= i < p + k ==> IdentChar(s[i])
    requires p + k == |s| || !IdentChar(s[p + k])
    ensures Tokenize(s, p) == Prepend([ExprToken(Tokens[WordRule(s[p..p + k])], s[p..p + k])], Tokenize(s, p + k))
  {
    RunAtLeast(s, p, k);
    IdentifierStep(s, p);
    TokenizeUnfold(s, p);
  }

  /** The rule number of `+`, `(` and `)`. */
  function PunctRule(c: char): nat {
    if c == '+' then 2 else if c == '(' then 4 else 5
  }

  /** The step at a `+`, `(` or `)`: only its own rule matches, one
      character. */
  lemma PlusStep(s: string, p: nat)
    requires p < |s| && s[p] == '+'
    ensures Step(s, p) == (2, 1)
  {
    assert MatchLen(Rules[2].pattern, s, p) == 1;
    forall j | 0 <= j < |Rules| && j != 2
      ensures MatchLen(Rules[j].pattern, s, p) == 0
    {
    }
    StepFromLongestEarliest(s, p, 2, 1);
  }

  lemma LParenStep(s: string, p: nat)
    requires p < |s| && s[p] == '('
    ensures Step(s, p) == (4, 1)
  {
    assert MatchLen(Rules[4].pattern, s, p) == 1;
    forall j | 0 <= j < |Rules| && j != 4
      ensures MatchLen(Rules[j].pattern, s, p) == 0
    {
    }
    StepFromLongestEarliest(s, p, 4, 1);
  }

  lemma RParenStep(s: string, p: nat)
    requires p < |s| && s[p] == ')'
    ensures Step(s, p) == (5, 1)
  {
    assert MatchLen(Rules[5].pattern, s, p) == 1;
    forall j | 0 <= j < |Rules| && j != 5
      ensures MatchLen(Rules[j].pattern, s, p) == 0
    {
    }
    StepFromLongestEarliest(s, p, 5, 1);
  }

  /** A `+`, `(` or `)` is one token of its own, whatever follows it. */
  lemma PunctTokenAt(s: string, p: nat)
    requires p < |s| && (s[p] == '+' || s[p] == '(' || s[p] == ')')
    ensures Tokenize(s, p) == Prepend([ExprToken(Tokens[PunctRule(s[p])], [s[p]])], Tokenize(s, p + 1))
  {
    if s[p] == '+' {
      PlusStep(s, p);
    } else if s[p] == '(' {
      LParenStep(s, p);
    } else {
      RParenStep(s, p);
    }
    TokenizeUnfold(s, p);
    assert s[p..p + 1] == [s[p]];
  }

  /** A run of blanks is skipped as a whole: tokenising from its first
      blank is tokenising from where the run ends. */
  lemma BlankRunSkipped(s: string, p: nat)
    requires p < |s| && BlankChar(s[p])
    ensures Tokenize(s, p) == Tokenize(s, p + Run(s, p, Blank))
  {
    var n := Run(s, p, Blank);
    assert MatchLen(Rules[8].pattern, s, p) == n;
    forall j | 0 <= j < |Rules| && j != 8
      ensures MatchLen(Rules[j].pattern, s, p) == 0
    {
    }
    StepFromLongestEarliest(s, p, 8, n);
    TokenizeUnfold(s, p);
    if Tokenize(s, p + n).Ok? {
      assert [] + Tokenize(s, p + n).value == Tokenize(s, p + n).value;
    }
  }

  /** Any blank is skipped: tokenising from it is tokenising from the
      next character. */
  lemma BlankSkippedAt(s: string, p: nat)
    requires p < |s| && BlankChar(s[p])
    ensures Tokenize(s, p) == Tokenize(s, p + 1)
  {
    BlankRunSkipped(s, p);
    if p + 1 < |s| && BlankChar(s[p + 1]) {
      BlankRunSkipped(s, p + 1);
      assert Run(s, p, Blank) == 1 + Run(s, p + 1, Blank);
    }
  }

  // ----- the scan is local -----

  lemma {:induction false} RunShift(x: string, y: string, q: nat, cls: CharClass)
    requires q <= |y|
    ensures Run(x + y, |x| + q, cls) == Run(y, q, cls)
    decreases |y| - q
  {
    if q < |y| {
      assert (x + y)[|x| + q] == y[q];
      RunShift(x, y, q + 1, cls);
    }
  }

  lemma {:induction false} LiteralAtShift(x: string, y: string, q: nat, text: string)
    requires q <= |y|
    ensures LiteralAt(x + y, |x| + q, text) == LiteralAt(y, q, text)
    decreases |text|
  {
    if text != [] && q + |text| <= |y| {
      assert (x + y)[|x| + q] == y[q];
      LiteralAtShift(x, y, q + 1, text[1..]);
    }
  }

  lemma MatchLenShift(pat: Pattern, x: string, y: string, q: nat)
    requires q <= |y|
    ensures MatchLen(pat, x + y, |x| + q) == MatchLen(pat, y, q)
  {
    var s := x + y;
    match pat
    case Literal(text) => LiteralAtShift(x, y, q, text);
    case IdentifierRun => RunShift(x, y, q, Identifier);
    case Comment =>
      if q < |y| {
        assert s[|x| + q] == y[q];
        RunShift(x, y, q + 1, NotNewline);
      }
    case BlankRun => RunShift(x, y, q, Blank);
    case EscapedNewline =>
      if q + 2 <= |y| {
        assert s[|x| + q] == y[q] && s[|x| + q + 1] == y[q + 1];
      }
    case LineBreak =>
      if q + 2 <= |y| {
        assert s[|x| + q] == y[q] && s[|x| + q + 1] == y[q + 1];
      } else if q < |y| {
        assert s[|x| + q] == y[q];
      }
  }

  lemma {:induction false} BestShift(x: string, y: string, q: nat, k: nat)
    requires q <= |y| && k <= |Rules|
    ensures Best(x + y, |x| + q, k) == Best(y, q, k)
  {
    if k > 0 {
      BestShift(x, y, q, k - 1);
      MatchLenShift(Rules[k - 1].pattern, x, y, q);
    }
  }

  lemma StepShift(x: string, y: string, q: nat)
    requires q < |y|
    ensures Step(x + y, |x| + q) == Step(y, q)
  {
    BestShift(x, y, q, |Rules|);
  }

  lemma EmittedShift(x: string, y: string, q: nat, ri: nat, len: nat)
    requires q + len <= |y|
    ensures Emitted(x + y, |x| + q, ri, len) == Emitted(y, q, ri, len)
  {
    assert (x + y)[|x| + q..|x| + q + len] == y[q..q + len];
  }

  /** What is scanned from a position depends only on the text from there
      on. */
  lemma {:induction false} TokenizeShift(x: string, y: string, q: nat)
    requires q <= |y|
    ensures Tokenize(x + y, |x| + q) == Tokenize(y, q)
    decreases |y| - q
  {
    var s, p := x + y, |x| + q;
    if q < |y| {
      StepShift(x, y, q);
      var st := Step(y, q);
      assert Step(s, p) == st;
      TokenizeUnfold(s, p);
      TokenizeUnfold(y, q);
      if st.1 > 0 {
        var q' := q + st.1;
        EmittedShift(x, y, q, st.0, st.1);
        TokenizeShift(x, y, q');
        assert p + st.1 == |x| + q';
        assert Tokenize(s, p) == Prepend(Emitted(y, q, st.0, st.1), Tokenize(s, |x| + q'));
      }
    }
  }

  /** A word of identifier characters, not followed by another, is one
      token in front of the tokens of what follows. */
  lemma WordFirst(w: string, rest: string)
    requires |w| > 0 && forall i :: 0 <= i < |w| ==> IdentChar(w[i])
    requires rest == [] || !IdentChar(rest[0])
    ensures Tokenize(w + rest, 0) == Prepend([ExprToken(Tokens[WordRule(w)], w)], Tokenize(rest, 0))
  {
    var s := w + rest;
    assert forall i :: 0 <= i < |w| ==> s[i] == w[i];
    assert |w| < |s| ==> s[|w|] == rest[0];
    IdentTokenAt(s, 0, |w|);
    assert s[0..|w|] == w;
    TokenizeShift(w, rest, 0);
  }

  /** A `+`, `(` or `)` is one token in front of the tokens of what
      follows. */
  lemma PunctFirst(c: char, rest: string)
    requires c == '+' || c == '(' || c == ')'
    ensures Tokenize([c] + rest, 0) == Prepend([ExprToken(Tokens[PunctRule(c)], [c])], Tokenize(rest, 0))
  {
    PunctTokenAt([c] + rest, 0);
    TokenizeShift([c], rest, 0);
  }

  /** A blank in front of any text is skipped. */
  lemma BlankFirst(c: char, rest: string)
    requires BlankChar(c)
    ensures Tokenize([c] + rest, 0) == Tokenize(rest, 0)
  {
    var s := [c] + rest;
    BlankSkippedAt(s, 0);
    TokenizeShift([c], rest, 0);
  }

  // ----- the expressions of the tokeniser's tests -----

  /** A non-empty run of identifier characters. */
  predicate Word(w: string) {
    |w| > 0 && forall i :: 0 <= i < |w| ==> IdentChar(w[i])
  }

  /** The token a whole word becomes. */
  function WordToken(w: string): ExprToken {
    ExprToken(Tokens[WordRule(w)], w)
  }

  /** The empty text has no tokens. */
  lemma TokenizeEmpty()
    ensures Tokenize([], 0) == Ok([])
  {
  }

  /** A word in front of text that tokenises. */
  lemma WordThen(w: string, rest: string, ts: seq<ExprToken>)
    requires Word(w) && (rest == [] || !IdentChar(rest[0]))
    requires Tokenize(rest, 0) == Ok(ts)
    ensures Tokenize(w + rest, 0) == Ok([WordToken(w)] + ts)
  {
    WordFirst(w, rest);
  }

  /** A `+`, `(` or `)` in front of text that tokenises. */
  lemma PunctThen(c: char, rest: string, ts: seq<ExprToken>)
    requires c == '+' || c == '(' || c == ')'
    requires Tokenize(rest, 0) == Ok(ts)
    ensures Tokenize([c] + rest, 0) == Ok([ExprToken(Tokens[PunctRule(c)], [c])] + ts)
  {
    PunctFirst(c, rest);
  }

  /** A word alone is one token. */
  lemma LoneWord(w: string)
    requires Word(w)
    ensures Tokenize(w, 0) == Ok([WordToken(w)])
  {
    TokenizeEmpty();
    assert w + [] == w;
    WordThen(w, [], []);
    assert [WordToken(w)] + [] == [WordToken(w)];
  }

  /** A word and a blank in front of text that tokenises and does not
      start with a blank. */
  lemma WordBlankThen(w: string, rest: string, ts: seq<ExprToken>)
    requires Word(w) && rest != [] && !BlankChar(rest[0])
    requires Tokenize(rest, 0) == Ok(ts)
    ensures Tokenize(w + " " + rest, 0) == Ok([WordToken(w)] + ts)
  {
    var t := [' '] + rest;
    assert t[0] == ' ';
    BlankFirst(' ', rest);
    WordThen(w, t, ts);
    assert w + " " + rest == w + t;
  }

  /** Three words separated by single blanks. */
  lemma ThreeWords(a: string, b: string, c: string)
    requires Word(a) && Word(b) && Word(c)
    ensures Tokenize(a + " " + (b + " " + c), 0) == Ok([WordToken(a), WordToken(b), WordToken(c)])
  {
    LoneWord(c);
    assert !BlankChar(c[0]);
    WordBlankThen(b, c, [WordToken(c)]);
    var bc := b + " " + c;
    assert bc[0] == b[0];
    WordBlankThen(a, bc, [WordToken(b)] + [WordToken(c)]);
    assert [WordToken(a)] + ([WordToken(b)] + [WordToken(c)]) == [WordToken(a), WordToken(b), WordToken(c)];
  }

  /** The token of a word that is not a keyword is an IDENTIFIER. */
  lemma IdentifierWord(w: string)
    requires Word(w) && w != "AND" && w != "OR" && w != "WITH"
    ensures WordToken(w) == ExprToken("IDENTIFIER", w)
  {
  }

  /** "MIT" and "Apache-2.0": a lone license identifier is one IDENTIFIER
      token carrying the whole text. */
  lemma TokensOfSingleIdentifiers()
    ensures Tokenize("MIT", 0) == Ok([ExprToken("IDENTIFIER", "MIT")])
    ensures Tokenize("Apache-2.0", 0) == Ok([ExprToken("IDENTIFIER", "Apache-2.0")])
  {
    assert Word("MIT") && Word("Apache-2.0");
    LoneWord("MIT");
    IdentifierWord("MIT");
    LoneWord("Apache-2.0");
    IdentifierWord("Apache-2.0");
  }

  /** A keyword at the start of a longer identifier is not split off:
      "ORder" is one IDENTIFIER, since the identifier rule matches longer
      than the OR rule. */
  lemma TokensOfKeywordPrefix()
    ensures Tokenize("ORder", 0) == Ok([ExprToken("IDENTIFIER", "ORder")])
  {
    assert Word("ORder");
    LoneWord("ORder");
    IdentifierWord("ORder");
  }

  lemma ConjunctionPieces()
    ensures Word("MIT") && Word("AND") && Word("BSD-2-Clause")
    ensures "MIT" + " " + ("AND" + " " + "BSD-2-Clause") == "MIT AND BSD-2-Clause"
  {
  }

  /** "MIT AND BSD-2-Clause": an identifier, the AND keyword (not an
      identifier, though both rules match it), an identifier. */
  lemma TokensOfConjunction()
    ensures Tokenize("MIT AND BSD-2-Clause", 0)
            == Ok([ExprToken("IDENTIFIER", "MIT"), ExprToken("AND", "AND"), ExprToken("IDENTIFIER", "BSD-2-Clause")])
  {
    ConjunctionPieces();
    ThreeWords("MIT", "AND", "BSD-2-Clause");
    IdentifierWord("MIT");
    IdentifierWord("BSD-2-Clause");
    assert WordToken("AND") == ExprToken("AND", "AND");
  }

  lemma DisjunctionPieces()
    ensures Word("MIT") && Word("OR") && Word("BSD-2-Clause")
    ensures "MIT" + " " + ("OR" + " " + "BSD-2-Clause") == "MIT OR BSD-2-Clause"
  {
  }

  /** "MIT OR BSD-2-Clause": an identifier, the OR keyword, an
      identifier. */
  lemma TokensOfDisjunction()
    ensures Tokenize("MIT OR BSD-2-Clause", 0)
            == Ok([ExprToken("IDENTIFIER", "MIT"), ExprToken("OR", "OR"), ExprToken("IDENTIFIER", "BSD-2-Clause")])
  {
    DisjunctionPieces();
    ThreeWords("MIT", "OR", "BSD-2-Clause");
    IdentifierWord("MIT");
    IdentifierWord("BSD-2-Clause");
    assert WordToken("OR") == ExprToken("OR", "OR");
  }

  /** The token of a `+`, `(` or `)`. */
  function PunctToken(c: char): ExprToken {
    ExprToken(Tokens[PunctRule(c)], [c])
  }

  /** A word followed by a `+`, `(` or `)`. */
  lemma WordPunct(a: string, c: char)
    requires Word(a) && (c == '+' || c == '(' || c == ')')
    ensures Tokenize(a + [c], 0) == Ok([WordToken(a), PunctToken(c)])
  {
    TokenizeEmpty();
    PunctThen(c, [], []);
    assert [c] + [] == [c];
    assert [PunctToken(c)] + [] == [PunctToken(c)];
    WordThen(a, [c], [PunctToken(c)]);
    assert [WordToken(a)] + [PunctToken(c)] == [WordToken(a), PunctToken(c)];
  }

  /** "MPL-2.0+": the `+` is not an identifier character, so it ends the
      identifier and is a PLUS of its own. */
  lemma TokensOfPlus()
    ensures Tokenize("MPL-2.0+", 0) == Ok([ExprToken("IDENTIFIER", "MPL-2.0"), ExprToken("PLUS", "+")])
  {
    assert Word("MPL-2.0");
    assert "MPL-2.0" + ['+'] == "MPL-2.0+";
    WordPunct("MPL-2.0", '+');
    IdentifierWord("MPL-2.0");
    assert PunctToken('+') == ExprToken("PLUS", "+");
  }

  /** `d e)`: two blank-separated words and a closing bracket. */
  lemma GroupEnd(d: string, e: string)
    requires Word(d) && Word(e)
    ensures Tokenize(d + " " + (e + [')']), 0) == Ok([WordToken(d), WordToken(e), PunctToken(')')])
  {
    WordPunct(e, ')');
    var r1 := e + [')'];
    assert r1[0] == e[0];
    WordBlankThen(d, r1, [WordToken(e), PunctToken(')')]);
    assert [WordToken(d)] + [WordToken(e), PunctToken(')')] == [WordToken(d), WordToken(e), PunctToken(')')];
  }

  /** `c d e)`: three blank-separated words and a closing bracket. */
  lemma GroupTail(c: string, d: string, e: string)
    requires Word(c) && Word(d) && Word(e)
    ensures Tokenize(c + " " + (d + " " + (e + [')'])), 0)
            == Ok([WordToken(c), WordToken(d), WordToken(e), PunctToken(')')])
  {
    GroupEnd(d, e);
    var r2 := d + " " + (e + [')']);
    assert r2[0] == d[0];
    WordBlankThen(c, r2, [WordToken(d), WordToken(e), PunctToken(')')]);
    assert [WordToken(c)] + [WordToken(d), WordToken(e), PunctToken(')')]
        == [WordToken(c), WordToken(d), WordToken(e), PunctToken(')')];
  }

  /** `b (` in front of text that tokenises. */
  lemma WordOpenThen(b: string, g: string, ts: seq<ExprToken>)
    requires Word(b)
    requires Tokenize(g, 0) == Ok(ts)
    ensures Tokenize(b + " " + ("(" + g), 0) == Ok([WordToken(b), PunctToken('(')] + ts)
  {
    PunctThen('(', g, ts);
    var r := "(" + g;
    assert r == ['('] + g && r[0] == '(';
    WordBlankThen(b, r, [PunctToken('(')] + ts);
    assert [WordToken(b)] + ([PunctToken('(')] + ts) == [WordToken(b), PunctToken('(')] + ts;
  }

  /** `a+ ` in front of text that tokenises and does not start with a
      blank. */
  lemma WordPlusBlankThen(a: string, r: string, ts: seq<ExprToken>)
    requires Word(a) && r != [] && !BlankChar(r[0])
    requires Tokenize(r, 0) == Ok(ts)
    ensures Tokenize(a + ("+" + (" " + r)), 0) == Ok([WordToken(a), PunctToken('+')] + ts)
  {
    BlankFirst(' ', r);
    var r1 := " " + r;
    assert r1 == [' '] + r;
    PunctThen('+', r1, ts);
    var r2 := "+" + r1;
    assert r2 == ['+'] + r1 && r2[0] == '+';
    WordThen(a, r2, [PunctToken('+')] + ts);
    assert [WordToken(a)] + ([PunctToken('+')] + ts) == [WordToken(a), PunctToken('+')] + ts;
  }

  /** `a+ b (` in front of text that tokenises. */
  lemma PlusWordGroup(a: string, b: string, g: string, ts: seq<ExprToken>)
    requires Word(a) && Word(b)
    requires Tokenize(g, 0) == Ok(ts)
    ensures Tokenize(a + ("+" + (" " + (b + " " + ("(" + g)))), 0)
            == Ok([WordToken(a), PunctToken('+'), WordToken(b), PunctToken('(')] + ts)
  {
    WordOpenThen(b, g, ts);
    var r := b + " " + ("(" + g);
    assert r[0] == b[0];
    WordPlusBlankThen(a, r, [WordToken(b), PunctToken('(')] + ts);
    assert [WordToken(a), PunctToken('+')] + ([WordToken(b), PunctToken('(')] + ts)
        == [WordToken(a), PunctToken('+'), WordToken(b), PunctToken('(')] + ts;
  }

  lemma ExpressionWords()
    ensures Word("MPL-2.0") && Word("AND") && Word("BSD-2-Clause") && Word("OR") && Word("GPL-2.0-or-later")
  {
  }

  lemma ExpressionText1()
    ensures "MPL-2.0" + "+" + " " + "AND" + " " + "(" == "MPL-2.0+ AND ("
  {
  }

  lemma ExpressionText2()
    ensures "MPL-2.0+ AND (" + "BSD-2-Clause" + " " + "OR" + " " == "MPL-2.0+ AND (BSD-2-Clause OR "
  {
  }

  lemma ExpressionText3()
    ensures "MPL-2.0+ AND (BSD-2-Clause OR " + "GPL-2.0-or-later" + ")"
            == "MPL-2.0+ AND (BSD-2-Clause OR GPL-2.0-or-later)"
  {
  }

  /** The test expression's text is its pieces in order, grouped the way
      the scan takes them. */
  lemma ExpressionAssoc(a: string, b: string, c: string, d: string, e: string)
    ensures a + "+" + " " + b + " " + "(" + c + " " + d + " " + e + ")"
            == a + ("+" + (" " + (b + " " + ("(" + (c + " " + (d + " " + (e + [')'])))))))
  {
  }

  lemma EightTokens(t1: ExprToken, t2: ExprToken, t3: ExprToken, t4: ExprToken,
                    t5: ExprToken, t6: ExprToken, t7: ExprToken, t8: ExprToken)
    ensures [t1, t2, t3, t4] + [t5, t6, t7, t8] == [t1, t2, t3, t4, t5, t6, t7, t8]
  {
  }

  /** `a+ b (` in front of four tokens. */
  lemma PlusWordGroupOfFour(a: string, b: string, g: string,
                            t5: ExprToken, t6: ExprToken, t7: ExprToken, t8: ExprToken)
    requires Word(a) && Word(b)
    requires Tokenize(g, 0) == Ok([t5, t6, t7, t8])
    ensures Tokenize(a + ("+" + (" " + (b + " " + ("(" + g)))), 0)
            == Ok([WordToken(a), PunctToken('+'), WordToken(b), PunctToken('('), t5, t6, t7, t8])
  {
    PlusWordGroup(a, b, g, [t5, t6, t7, t8]);
    EightTokens(WordToken(a), PunctToken('+'), WordToken(b), PunctToken('('), t5, t6, t7, t8);
  }

  /** `a+ b (c d e)`, grouped the way the scan takes it. */
  lemma ExpressionShapeNested(a: string, b: string, c: string, d: string, e: string)
    requires Word(a) && Word(b) && Word(c) && Word(d) && Word(e)
    ensures Tokenize(a + ("+" + (" " + (b + " " + ("(" + (c + " " + (d + " " + (e + [')']))))))), 0)
            == Ok([WordToken(a), PunctToken('+'), WordToken(b), PunctToken('('),
                   WordToken(c), WordToken(d), WordToken(e), PunctToken(')')])
  {
    GroupTail(c, d, e);
    var g := c + " " + (d + " " + (e + [')']));
    PlusWordGroupOfFour(a, b, g, WordToken(c), WordToken(d), WordToken(e), PunctToken(')'));
  }

  /** Regrouping the text does not change its tokens. */
  lemma ExpressionRegrouped(a: string, b: string, c: string, d: string, e: string)
    ensures Tokenize(a + "+" + " " + b + " " + "(" + c + " " + d + " " + e + ")", 0)
         == Tokenize(a + ("+" + (" " + (b + " " + ("(" + (c + " " + (d + " " + (e + [')']))))))), 0)
  {
    ExpressionAssoc(a, b, c, d, e);
  }

  /** "MPL-2.0+ AND (BSD-2-Clause OR GPL-2.0-or-later)": the eight tokens
      in input order, blanks dropped, each bracket and the `+` a token of
      its own. */
  lemma TokensOfExpression()
    ensures Tokenize("MPL-2.0+ AND (BSD-2-Clause OR GPL-2.0-or-later)", 0)
            == Ok([ExprToken("IDENTIFIER", "MPL-2.0"), ExprToken("PLUS", "+"), ExprToken("AND", "AND"),
                   ExprToken("LPAREN", "("), ExprToken("IDENTIFIER", "BSD-2-Clause"), ExprToken("OR", "OR"),
                   ExprToken("IDENTIFIER", "GPL-2.0-or-later"), ExprToken("RPAREN", ")")])
  {
    var a, b, c, d, e := "MPL-2.0", "AND", "BSD-2-Clause", "OR", "GPL-2.0-or-later";
    ExpressionWords();
    ExpressionText1();
    ExpressionText2();
    ExpressionText3();
    ExpressionRegrouped(a, b, c, d, e);
    ExpressionShapeNested(a, b, c, d, e);
    IdentifierWord(a);
    IdentifierWord(c);
    IdentifierWord(e);
    assert WordToken(b) == ExprToken("AND", "AND") && WordToken(d) == ExprToken("OR", "OR");
    assert PunctToken('+') == ExprToken("PLUS", "+") && PunctToken('(') == ExprToken("LPAREN", "(");
    assert PunctToken(')') == ExprToken("RPAREN", ")");
  }
}
