/** `tokenize`: the scanner of condition expressions, on UTF-16 code units. */
module ConditionLexer {
  import opened Common
  import opened Ids
  import opened Json

  datatype Kind =
    | DollarPath | Number | StringLit | TrueLit | FalseLit | NullLit
    | Gt | Gte | Lt | Lte | Eq | Neq
    | And | Or | Not | LParen | RParen | Eof

  datatype Token = Token(kind: Kind, raw: Text)

  const DOLLAR: CodeUnit := 0x24
  const DOT: CodeUnit := 0x2E
  const QUOTE: CodeUnit := 0x22
  const MINUS: CodeUnit := 0x2D
  const UNDERSCORE: CodeUnit := 0x5F
  const SPACE: CodeUnit := 0x20
  const GREATER: CodeUnit := 0x3E
  const LESS: CodeUnit := 0x3C
  const EQUALS: CodeUnit := 0x3D
  const BANG: CodeUnit := 0x21
  const AMP: CodeUnit := 0x26
  const BAR: CodeUnit := 0x7C
  const OPEN: CodeUnit := 0x28
  const CLOSE: CodeUnit := 0x29

  const TRUE_WORD: Text := [0x74, 0x72, 0x75, 0x65]
  const FALSE_WORD: Text := [0x66, 0x61, 0x6C, 0x73, 0x65]
  const NULL_WORD: Text := [0x6E, 0x75, 0x6C, 0x6C]

  /** The class `\s`, which is also what `trim` removes. */
  predicate IsSpace(c: CodeUnit) {
    IsSpaceUnit(c as int)
  }

  predicate IsLetter(c: CodeUnit) {
    0x41 <= c <= 0x5A || 0x61 <= c <= 0x7A
  }

  predicate IsDigit(c: CodeUnit) {
    0x30 <= c <= 0x39
  }

  predicate IsWordChar(c: CodeUnit) {
    IsLetter(c) || IsDigit(c)
  }

  predicate IsPathChar(c: CodeUnit) {
    IsWordChar(c) || c == UNDERSCORE || c == DOT || c == DOLLAR
  }

  predicate IsNumberChar(c: CodeUnit) {
    IsDigit(c) || c == DOT
  }

  predicate IsNotQuote(c: CodeUnit) {
    c != QUOTE
  }

  /** Length of the longest prefix whose code units all satisfy `p`. */
  function Span(p: CodeUnit -> bool, s: Text): (n: nat)
    ensures n <= |s| && (forall i :: 0 <= i < n ==> p(s[i])) && (n < |s| ==> !p(s[n]))
  {
    if s == [] || !p(s[0]) then 0 else 1 + Span(p, s[1..])
  }

  lemma {:induction false} SpanExactly(p: CodeUnit -> bool, a: Text, rest: Text)
    requires (forall i :: 0 <= i < |a| ==> p(a[i])) && (rest == [] || !p(rest[0]))
    ensures Span(p, a + rest) == |a|
  {
    if a == [] {
      assert a + rest == rest;
    } else {
      assert (a + rest)[1..] == a[1..] + rest;
      SpanExactly(p, a[1..], rest);
    }
  }

  /** One turn of the scanning loop: nothing but `length` consumed, a token, or an error. */
  datatype Scan = Blank(length: nat) | Found(token: Token, length: nat) | Bad

  function Operator(s: Text): Option<Token>
    requires s != []
  {
    var c := s[0];
    var d := if |s| > 1 then s[1] else 0;
    if c == GREATER && d == EQUALS then Some(Token(Gte, [c, d]))
    else if c == LESS && d == EQUALS then Some(Token(Lte, [c, d]))
    else if c == EQUALS && d == EQUALS then Some(Token(Eq, [c, d]))
    else if c == BANG && d == EQUALS then Some(Token(Neq, [c, d]))
    else if c == AMP && d == AMP then Some(Token(And, [c, d]))
    else if c == BAR && d == BAR then Some(Token(Or, [c, d]))
    else if c == GREATER then Some(Token(Gt, [c]))
    else if c == LESS then Some(Token(Lt, [c]))
    else if c == BANG then Some(Token(Not, [c]))
    else if c == OPEN then Some(Token(LParen, [c]))
    else if c == CLOSE then Some(Token(RParen, [c]))
    else None
  }

  predicate StartsPath(s: Text) {
    |s| > 1 && s[0] == DOLLAR && s[1] == DOT
  }

  predicate StartsNumber(s: Text) {
    s != [] && (IsDigit(s[0]) || (s[0] == MINUS && |s| > 1 && IsDigit(s[1])))
  }

  function Keyword(word: Text): Option<Token> {
    if word == TRUE_WORD then Some(Token(TrueLit, word))
    else if word == FALSE_WORD then Some(Token(FalseLit, word))
    else if word == NULL_WORD then Some(Token(NullLit, word))
    else None
  }

  function ScanOne(s: Text): (r: Scan)
    requires s != []
    ensures r.Blank? || r.Found? ==> 0 < r.length <= |s|
  {
    if IsSpace(s[0]) then Blank(1)
    else if StartsPath(s) then
      var n := Span(IsPathChar, s);
      assert IsPathChar(s[0]);
      Found(Token(DollarPath, s[..n]), n)
    else if s[0] == QUOTE then
      // an unterminated string runs to the end of the input
      var n := Span(IsNotQuote, s[1..]);
      Found(Token(StringLit, s[1..1 + n]), if 1 + n < |s| then n + 2 else n + 1)
    else if StartsNumber(s) then
      var sign := if s[0] == MINUS then 1 else 0;
      var n := sign + Span(IsNumberChar, s[sign..]);
      assert IsNumberChar(s[sign..][0]);
      Found(Token(Number, s[..n]), n)
    else if Operator(s).Some? then
      var token := Operator(s).value;
      Found(token, |token.raw|)
    else if IsLetter(s[0]) then
      var n := Span(IsWordChar, s);
      var word := Keyword(s[..n]);
      assert IsWordChar(s[0]);
      if word.Some? then Found(word.value, n) else Bad
    else Bad
  }

  /** All tokens up to and including `Eof`, or `None` for a lexical error. */
  function Lex(s: Text): Option<seq<Token>>
    decreases |s|
  {
    if s == [] then Some([Token(Eof, [])])
    else
      match ScanOne(s)
      case Bad => None
      case Blank(n) => Lex(s[n..])
      case Found(token, n) =>
        var rest := Lex(s[n..]);
        if rest.None? then None else Some([token] + rest.value)
  }

  function Joined(tokens: seq<Token>, rest: Option<seq<Token>>): Option<seq<Token>> {
    if rest.None? then None else Some(tokens + rest.value)
  }

  /** The tokens found so far, followed by those of the rest of the input. */
  function Resumed(tokens: seq<Token>, input: Text, i: nat): Option<seq<Token>>
    requires i <= |input|
  {
    Joined(tokens, Lex(input[i..]))
  }

  lemma LexStart(input: Text)
    ensures Resumed([], input, 0) == Lex(input)
  {
    assert input[0..] == input;
    if Lex(input).Some? {
      assert [] + Lex(input).value == Lex(input).value;
    }
  }

  lemma LexEnd(input: Text, tokens: seq<Token>)
    ensures Resumed(tokens, input, |input|) == Some(tokens + [Token(Eof, [])])
  {
    assert input[|input|..] == [];
  }

  lemma LexBad(input: Text, i: nat, tokens: seq<Token>)
    requires i < |input| && ScanOne(input[i..]).Bad?
    ensures Resumed(tokens, input, i) == None
  {
  }

  lemma LexBlank(input: Text, i: nat, tokens: seq<Token>, scan: Scan)
    requires i < |input| && scan == ScanOne(input[i..]) && scan.Blank?
    ensures scan.length <= |input| - i && Resumed(tokens, input, i) == Resumed(tokens, input, i + scan.length)
  {
    assert input[i..][scan.length..] == input[i + scan.length..];
  }

  lemma LexToken(input: Text, i: nat, tokens: seq<Token>, scan: Scan)
    requires i < |input| && scan == ScanOne(input[i..]) && scan.Found?
    ensures scan.length <= |input| - i
    ensures Resumed(tokens, input, i) == Resumed(tokens + [scan.token], input, i + scan.length)
  {
    assert input[i..][scan.length..] == input[i + scan.length..];
    LexFound(input[i..], tokens);
  }

  lemma LexFound(s: Text, tokens: seq<Token>)
    requires s != [] && ScanOne(s).Found?
    ensures Joined(tokens, Lex(s)) == Joined(tokens + [ScanOne(s).token], Lex(s[ScanOne(s).length..]))
  {
    var rest := Lex(s[ScanOne(s).length..]);
    if rest.Some? {
      assert tokens + ([ScanOne(s).token] + rest.value) == (tokens + [ScanOne(s).token]) + rest.value;
    }
  }

  /** One turn of the loop at position `i`. */
  method ScanTurn(input: Text, i: nat, ghost tokens: seq<Token>) returns (scan: Scan)
    requires i < |input|
    ensures scan.Bad? ==> Resumed(tokens, input, i) == None
    ensures !scan.Bad? ==> 0 < scan.length <= |input| - i
    ensures scan.Blank? ==> Resumed(tokens, input, i) == Resumed(tokens, input, i + scan.length)
    ensures scan.Found? ==> Resumed(tokens, input, i) == Resumed(tokens + [scan.token], input, i + scan.length)
  {
    scan := ScanOne(input[i..]);
    match scan
    case Bad => LexBad(input, i, tokens);
    case Blank(_) => LexBlank(input, i, tokens, scan);
    case Found(_, _) => LexToken(input, i, tokens, scan);
  }

  /** The scanning loop over an index into the input. */
  method Tokenize(input: Text) returns (r: Option<seq<Token>>)
    ensures r == Lex(input)
  {
    var tokens: seq<Token> := [];
    var i := 0;
    LexStart(input);
    while i < |input|
      invariant 0 <= i <= |input|
      invariant Lex(input) == Resumed(tokens, input, i)
      decreases |input| - i
    {
      var scan := ScanTurn(input, i, tokens);
      if scan.Bad? {
        return None;
      }
      if scan.Found? {
        tokens := tokens + [scan.token];
      }
      i := i + scan.length;
    }
    LexEnd(input, tokens);
    return Some(tokens + [Token(Eof, [])]);
  }

  // ---- printing and scanning back ----

  predicate IsPathText(raw: Text) {
    StartsPath(raw) && forall i :: 0 <= i < |raw| ==> IsPathChar(raw[i])
  }

  predicate IsNumberText(raw: Text) {
    StartsNumber(raw) &&
    forall i :: (if raw[0] == MINUS then 1 else 0) <= i < |raw| ==> IsNumberChar(raw[i])
  }

  /** The fixed spelling of operators and keywords. */
  function Spelling(k: Kind): Text {
    match k
    case TrueLit => TRUE_WORD
    case FalseLit => FALSE_WORD
    case NullLit => NULL_WORD
    case Gt => [GREATER]
    case Gte => [GREATER, EQUALS]
    case Lt => [LESS]
    case Lte => [LESS, EQUALS]
    case Eq => [EQUALS, EQUALS]
    case Neq => [BANG, EQUALS]
    case And => [AMP, AMP]
    case Or => [BAR, BAR]
    case Not => [BANG]
    case LParen => [OPEN]
    case RParen => [CLOSE]
    case _ => []
  }

  /** A token that some source text spells. */
  predicate Writable(t: Token) {
    match t.kind
    case DollarPath => IsPathText(t.raw)
    case Number => IsNumberText(t.raw)
    case StringLit => forall i :: 0 <= i < |t.raw| ==> IsNotQuote(t.raw[i])
    case Eof => false
    case _ => t.raw == Spelling(t.kind)
  }

  function Written(t: Token): Text {
    if t.kind == StringLit then [QUOTE] + t.raw + [QUOTE] else t.raw
  }

  /** Tokens written out with one space between neighbours. */
  function Render(ts: seq<Token>): Text {
    if ts == [] then []
    else if |ts| == 1 then Written(ts[0])
    else Written(ts[0]) + [SPACE] + Render(ts[1..])
  }

  ghost predicate AtBreak(rest: Text) {
    rest == [] || rest[0] == SPACE
  }

  lemma ScanWritten(t: Token, rest: Text)
    requires Writable(t) && AtBreak(rest)
    ensures Written(t) != []
    ensures ScanOne(Written(t) + rest) == Found(t, |Written(t)|)
  {
    match t.kind
    case DollarPath => ScanPath(t, rest);
    case Number => ScanNumber(t, rest);
    case StringLit => ScanString(t, rest);
    case TrueLit => ScanWord(t, rest);
    case FalseLit => ScanWord(t, rest);
    case NullLit => ScanWord(t, rest);
    case _ => ScanOperator(t, rest);
  }

  lemma ScanPath(t: Token, rest: Text)
    requires t.kind == DollarPath && Writable(t) && AtBreak(rest)
    ensures ScanOne(t.raw + rest) == Found(t, |t.raw|)
  {
    SpanExactly(IsPathChar, t.raw, rest);
    assert (t.raw + rest)[..|t.raw|] == t.raw;
  }

  lemma ScanNumber(t: Token, rest: Text)
    requires t.kind == Number && Writable(t) && AtBreak(rest)
    ensures ScanOne(t.raw + rest) == Found(t, |t.raw|)
  {
    var s := t.raw + rest;
    var sign := if t.raw[0] == MINUS then 1 else 0;
    assert s[sign..] == t.raw[sign..] + rest;
    SpanExactly(IsNumberChar, t.raw[sign..], rest);
    assert s[..|t.raw|] == t.raw;
    assert !StartsPath(s) && !IsSpace(s[0]);
  }

  lemma ScanString(t: Token, rest: Text)
    requires t.kind == StringLit && Writable(t) && AtBreak(rest)
    ensures ScanOne([QUOTE] + t.raw + [QUOTE] + rest) == Found(t, |t.raw| + 2)
  {
    var s := [QUOTE] + t.raw + [QUOTE] + rest;
    assert s[1..] == t.raw + ([QUOTE] + rest);
    SpanExactly(IsNotQuote, t.raw, [QUOTE] + rest);
    assert s[1..1 + |t.raw|] == t.raw;
  }

  lemma ScanWord(t: Token, rest: Text)
    requires t.kind == TrueLit || t.kind == FalseLit || t.kind == NullLit
    requires Writable(t) && AtBreak(rest)
    ensures ScanOne(t.raw + rest) == Found(t, |t.raw|)
  {
    var s := t.raw + rest;
    SpanExactly(IsWordChar, t.raw, rest);
    assert s[..|t.raw|] == t.raw;
    assert s[0] == t.raw[0] && Operator(s).None?;
    WordsDiffer();
  }

  lemma WordsDiffer()
    ensures TRUE_WORD != FALSE_WORD && TRUE_WORD != NULL_WORD && FALSE_WORD != NULL_WORD
  {
    assert TRUE_WORD[0] == 0x74 && FALSE_WORD[0] == 0x66 && NULL_WORD[0] == 0x6E;
  }

  predicate IsOperator(k: Kind) {
    k == Gt || k == Gte || k == Lt || k == Lte || k == Eq || k == Neq
    || k == And || k == Or || k == Not || k == LParen || k == RParen
  }

  lemma ScanOperator(t: Token, rest: Text)
    requires IsOperator(t.kind) && Writable(t) && AtBreak(rest)
    ensures ScanOne(t.raw + rest) == Found(t, |t.raw|)
  {
    var s := t.raw + rest;
    assert s[0] == t.raw[0];
    assert |t.raw| == 2 ==> s[1] == t.raw[1];
    assert |t.raw| == 1 && |s| > 1 ==> s[1] == SPACE;
    assert Operator(s) == Some(Token(t.kind, t.raw));
  }

  /** Scanning what was printed gives the tokens back. */
  lemma {:induction false} LexRender(ts: seq<Token>)
    requires forall t :: t in ts ==> Writable(t)
    ensures Lex(Render(ts)) == Some(ts + [Token(Eof, [])])
    decreases |ts|
  {
    var end := [Token(Eof, [])];
    if ts == [] {
      assert ts + end == end;
    } else if |ts| == 1 {
      assert ts[0] in ts;
      LexOne(ts[0]);
      assert ts == [ts[0]];
    } else {
      assert ts[0] in ts;
      LexRender(ts[1..]);
      LexJoin(ts[0], ts[1..]);
      assert [ts[0]] + (ts[1..] + end) == ts + end;
    }
  }

  lemma LexOne(t: Token)
    requires Writable(t)
    ensures Lex(Written(t)) == Some([t] + [Token(Eof, [])])
  {
    assert Written(t) + [] == Written(t);
    LexStep(t, []);
  }

  lemma LexJoin(t: Token, tail: seq<Token>)
    requires Writable(t) && Lex(Render(tail)).Some?
    ensures Lex(Written(t) + [SPACE] + Render(tail)) == Some([t] + Lex(Render(tail)).value)
  {
    LexSpaced(t, Render(tail));
  }

  lemma LexSpaced(t: Token, tail: Text)
    requires Writable(t) && Lex(tail).Some?
    ensures Lex(Written(t) + [SPACE] + tail) == Some([t] + Lex(tail).value)
  {
    var rest := [SPACE] + tail;
    assert Written(t) + [SPACE] + tail == Written(t) + rest;
    LexStep(t, rest);
    LexSpace(tail);
  }

  lemma LexStep(t: Token, rest: Text)
    requires Writable(t) && AtBreak(rest)
    ensures Lex(Written(t) + rest) == if Lex(rest).None? then None else Some([t] + Lex(rest).value)
  {
    ScanWritten(t, rest);
    LexHead(Written(t), rest, t);
  }

  lemma LexHead(head: Text, rest: Text, t: Token)
    requires head != [] && ScanOne(head + rest) == Found(t, |head|)
    ensures Lex(head + rest) == if Lex(rest).None? then None else Some([t] + Lex(rest).value)
  {
    assert (head + rest)[|head|..] == rest;
  }

  lemma LexSpace(rest: Text)
    ensures Lex([SPACE] + rest) == Lex(rest)
  {
    assert ([SPACE] + rest)[1..] == rest;
    assert ScanOne([SPACE] + rest) == Blank(1);
  }

  /** Tokens written out and then a string that is never closed. */
  function OpenEnded(ts: seq<Token>, s: Text): Text {
    if ts == [] then [QUOTE] + s else Written(ts[0]) + [SPACE] + OpenEnded(ts[1..], s)
  }

  /** A string without its closing quote runs to the end of the input. */
  lemma {:induction false} LexOpenString(ts: seq<Token>, s: Text)
    requires forall t :: t in ts ==> Writable(t)
    requires forall i :: 0 <= i < |s| ==> IsNotQuote(s[i])
    ensures Lex(OpenEnded(ts, s)) == Some(ts + [Token(StringLit, s), Token(Eof, [])])
    decreases |ts|
  {
    var end := [Token(StringLit, s), Token(Eof, [])];
    if ts == [] {
      ScanOpenString(s);
      assert ts + end == end;
    } else {
      assert ts[0] in ts;
      LexOpenString(ts[1..], s);
      LexSpaced(ts[0], OpenEnded(ts[1..], s));
      HeadAndTail(ts, end);
    }
  }

  lemma HeadAndTail(ts: seq<Token>, end: seq<Token>)
    requires ts != []
    ensures [ts[0]] + (ts[1..] + end) == ts + end
  {
  }

  lemma ScanOpenString(s: Text)
    requires forall i :: 0 <= i < |s| ==> IsNotQuote(s[i])
    ensures Lex([QUOTE] + s) == Some([Token(StringLit, s), Token(Eof, [])])
  {
    var all := [QUOTE] + s;
    OpenStringToken(s);
    LexNothing();
    assert all + [] == all;
    LexHead(all, [], Token(StringLit, s));
    assert [Token(StringLit, s)] + [Token(Eof, [])] == [Token(StringLit, s), Token(Eof, [])];
  }

  lemma OpenStringToken(s: Text)
    requires forall i :: 0 <= i < |s| ==> IsNotQuote(s[i])
    ensures ScanOne([QUOTE] + s) == Found(Token(StringLit, s), |s| + 1)
  {
    var all := [QUOTE] + s;
    assert all[1..] == s && s + [] == s && all[1..1 + |s|] == s;
    SpanExactly(IsNotQuote, s, []);
  }

  lemma LexNothing()
    ensures Lex([]) == Some([Token(Eof, [])])
  {
  }
}
