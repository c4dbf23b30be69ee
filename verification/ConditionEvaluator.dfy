/** `evaluateCondition`, and the expression language it accepts: printing an expression and
    evaluating the text gives what the expression means. */
module ConditionEvaluator {
  import opened Common
  import opened Json
  import opened ConditionLexer
  import opened ConditionQuotes
  import opened ConditionParser
  import opened ConditionGrammar

  // ---- evaluation of a text ----

  function TrimEnd(s: Text): Text {
    if s != [] && IsSpace(s[|s| - 1]) then TrimEnd(s[..|s| - 1]) else s
  }

  function Trim(s: Text): Text {
    TrimEnd(s[Span(IsSpace, s)..])
  }

  /** `None` is a condition error. Tokens after the expression are never looked at. */
  function Evaluate(env: Env, condition: Text): Option<bool> {
    if Trim(condition) == [] then Some(true)
    else
      var tokens := Lex(Trim(condition));
      if tokens.None? then None
      else
        LexEndsInEof(Trim(condition));
        var parsed := ParseOr(env, tokens.value);
        if parsed.Failed? then None else Some(parsed.value)
  }

  lemma {:induction false} LexEndsInEof(s: Text)
    ensures Lex(s).Some? ==> EofTerminated(Lex(s).value)
    decreases |s|
  {
    if s != [] {
      var scan := ScanOne(s);
      if !scan.Bad? {
        LexEndsInEof(s[scan.length..]);
      }
    }
  }

  method EvaluateCondition(env: Env, condition: Text) returns (r: Option<bool>)
    ensures r == Evaluate(env, condition)
  {
    var trimmed := Trim(condition);
    if |trimmed| == 0 {
      return Some(true);
    }
    var tokens := Tokenize(trimmed);
    if tokens.None? {
      return None;
    }
    LexEndsInEof(trimmed);
    var parser := new Parser(tokens.value, env);
    assert parser.Left() == tokens.value;
    r := parser.ParseOrExpr();
  }

  // ---- expressions ----

  /** What may open a comparison. A leading `true` or `false` never does. */
  datatype Literal = PathOperand(raw: Text) | NumberOperand(raw: Text) | TextOperand(raw: Text) | NullOperand

  datatype Argument = Plain(literal: Literal) | Flag(flag: bool)

  datatype Expr =
    | OrExpr(left: Expr, right: Expr)
    | AndExpr(left: Expr, right: Expr)
    | NotExpr(inner: Expr)
    | CompareExpr(lhs: Literal, op: Kind, rhs: Argument)
    | TruthyExpr(literal: Literal)
    | ConstExpr(value: bool)

  function LiteralToken(l: Literal): Token {
    match l
    case PathOperand(raw) => Token(DollarPath, raw)
    case NumberOperand(raw) => Token(Number, raw)
    case TextOperand(raw) => Token(StringLit, raw)
    case NullOperand => Token(NullLit, NULL_WORD)
  }

  function FlagToken(b: bool): Token {
    if b then Token(TrueLit, TRUE_WORD) else Token(FalseLit, FALSE_WORD)
  }

  function ArgumentToken(a: Argument): Token {
    match a
    case Plain(l) => LiteralToken(l)
    case Flag(b) => FlagToken(b)
  }

  function Mark(k: Kind): Token {
    Token(k, Spelling(k))
  }

  predicate WellFormed(e: Expr) {
    match e
    case OrExpr(l, r) => WellFormed(l) && WellFormed(r)
    case AndExpr(l, r) => WellFormed(l) && WellFormed(r)
    case NotExpr(x) => WellFormed(x)
    case CompareExpr(l, op, r) => Writable(LiteralToken(l)) && IsComparison(op) && Writable(ArgumentToken(r))
    case TruthyExpr(l) => Writable(LiteralToken(l))
    case ConstExpr(_) => true
  }

  // ---- meaning ----

  function LiteralValue(env: Env, l: Literal): Option<Value> {
    match l
    case PathOperand(raw) => env(raw)
    case NumberOperand(raw) => Some(NumberOf(raw))
    case TextOperand(raw) => Some(StrValue(raw))
    case NullOperand => Some(NullValue)
  }

  function ArgumentValue(env: Env, a: Argument): Option<Value> {
    match a
    case Plain(l) => LiteralValue(env, l)
    case Flag(b) => Some(BoolValue(b))
  }

  /** Both sides of every connective are evaluated, so one unresolvable path fails the whole. */
  function Meaning(env: Env, e: Expr): Option<bool> {
    match e
    case OrExpr(l, r) =>
      var a, b := Meaning(env, l), Meaning(env, r);
      if a.None? || b.None? then None else Some(a.value || b.value)
    case AndExpr(l, r) =>
      var a, b := Meaning(env, l), Meaning(env, r);
      if a.None? || b.None? then None else Some(a.value && b.value)
    case NotExpr(x) =>
      var a := Meaning(env, x);
      if a.None? then None else Some(!a.value)
    case CompareExpr(l, op, r) =>
      var a, b := LiteralValue(env, l), ArgumentValue(env, r);
      if a.None? || b.None? then None else Some(Compare(a.value, op, b.value))
    case TruthyExpr(l) =>
      var a := LiteralValue(env, l);
      if a.None? then None else Some(Truthy(a.value))
    case ConstExpr(b) => Some(b)
  }

  // ---- printing ----

  /** 0 for `||`, 1 for `&&`, 2 for `!`, 3 for what needs no parentheses anywhere. */
  function Level(e: Expr): nat {
    match e
    case OrExpr(_, _) => 0
    case AndExpr(_, _) => 1
    case NotExpr(_) => 2
    case _ => 3
  }

  /** The tokens of an expression where an operand of precedence `level` is expected. */
  function Tokens(e: Expr, level: nat): seq<Token>
    decreases e, if Level(e) < level then 1 else 0
  {
    if Level(e) < level then [Mark(LParen)] + Tokens(e, 0) + [Mark(RParen)]
    else
      match e
      case OrExpr(l, r) => Tokens(l, 0) + [Mark(Or)] + Tokens(r, 1)
      case AndExpr(l, r) => Tokens(l, 1) + [Mark(And)] + Tokens(r, 2)
      case NotExpr(x) => [Mark(Not)] + Tokens(x, 2)
      case CompareExpr(l, op, r) => [LiteralToken(l), Mark(op), ArgumentToken(r)]
      case TruthyExpr(l) => [LiteralToken(l)]
      case ConstExpr(b) => [FlagToken(b)]
  }

  function Print(e: Expr): Text {
    Render(Tokens(e, 0))
  }

  lemma {:induction false} TokensWritable(e: Expr, level: nat)
    requires WellFormed(e)
    ensures Tokens(e, level) != []
    ensures forall t :: t in Tokens(e, level) ==> Writable(t)
    decreases e, if Level(e) < level then 1 else 0
  {
    if Level(e) < level {
      TokensWritable(e, 0);
    } else {
      match e
      case OrExpr(l, r) => TokensWritable(l, 0); TokensWritable(r, 1);
      case AndExpr(l, r) => TokensWritable(l, 1); TokensWritable(r, 2);
      case NotExpr(x) => TokensWritable(x, 2);
      case CompareExpr(l, op, r) =>
      case TruthyExpr(l) =>
      case ConstExpr(b) =>
    }
  }

  // ---- printing and parsing back ----

  /** The derivation whose yield is the printed form. */
  function DerivationOf(e: Expr, level: nat): Tree
    decreases e, if Level(e) < level then 1 else 0
  {
    if Level(e) < level then Group(Mark(LParen), DerivationOf(e, 0), Mark(RParen))
    else
      match e
      case OrExpr(l, r) => Either(DerivationOf(l, 0), Mark(Or), DerivationOf(r, 1))
      case AndExpr(l, r) => Both(DerivationOf(l, 1), Mark(And), DerivationOf(r, 2))
      case NotExpr(x) => Negated(Mark(Not), DerivationOf(x, 2))
      case CompareExpr(l, op, r) => Compared(LiteralToken(l), Mark(op), ArgumentToken(r))
      case TruthyExpr(l) => Bare(LiteralToken(l))
      case ConstExpr(b) => Flagged(FlagToken(b))
  }

  /** Printing inserts exactly the parentheses the grammar needs, and means what was printed. */
  lemma {:induction false} PrintedDerives(env: Env, e: Expr, level: nat)
    requires WellFormed(e) && level <= 3
    ensures var t := DerivationOf(e, level);
            Yield(t) == Tokens(e, level) && Derived(t) && Rank(t) >= level && Denotes(env, t) == Meaning(env, e)
    decreases e, if Level(e) < level then 1 else 0
  {
    if Level(e) < level {
      PrintedDerives(env, e, 0);
    } else {
      match e
      case OrExpr(l, r) => PrintedDerives(env, l, 0); PrintedDerives(env, r, 1);
      case AndExpr(l, r) => PrintedDerives(env, l, 1); PrintedDerives(env, r, 2);
      case NotExpr(x) => PrintedDerives(env, x, 2);
      case CompareExpr(l, op, r) => OperandMeaning(env, l); ArgumentMeaning(env, r);
      case TruthyExpr(l) => OperandMeaning(env, l);
      case ConstExpr(_) =>
    }
  }

  lemma OperandMeaning(env: Env, l: Literal)
    ensures IsLeading(LiteralToken(l).kind) && OperandValue(env, LiteralToken(l)) == LiteralValue(env, l)
  {
  }

  lemma ArgumentMeaning(env: Env, a: Argument)
    ensures OperandValue(env, ArgumentToken(a)) == ArgumentValue(env, a)
    ensures IsLeading(ArgumentToken(a).kind) || IsFlag(ArgumentToken(a).kind)
  {
    if a.Plain? {
      OperandMeaning(env, a.literal);
    }
  }

  /** At every precedence level the printed tokens parse to the meaning and leave what follows. */
  lemma PrintedParses(env: Env, e: Expr, level: nat, post: seq<Token>)
    requires WellFormed(e) && level <= 3 && MayFollow(Tokens(e, level), level, post)
    ensures EofTerminated(Tokens(e, level) + post)
    ensures ParseAt(env, level, Tokens(e, level) + post) == Onwards(env, Meaning(env, e), level, post)
  {
    PrintedDerives(env, e, level);
    TreeParses(env, DerivationOf(e, level), level, post);
  }

  // ---- theorems ----

  /** Parsing the tokens of an expression gives its meaning and leaves exactly what follows, as
      long as what follows cannot continue the expression. */
  lemma ParsesToMeaning(env: Env, e: Expr, post: seq<Token>)
    requires WellFormed(e) && EofTerminated(post) && Stops(Tokens(e, 0), post[0].kind)
    ensures EofTerminated(Tokens(e, 0) + post)
    ensures ParseOr(env, Tokens(e, 0) + post) ==
            (if Meaning(env, e).None? then Failed else Done(Meaning(env, e).value, post))
  {
    PrintedParses(env, e, 0, post);
  }

  lemma {:induction false} RenderEnds(ts: seq<Token>)
    requires ts != [] && forall t :: t in ts ==> Writable(t)
    ensures Render(ts) != []
    ensures !IsSpace(Render(ts)[0]) && !IsSpace(Render(ts)[|Render(ts)| - 1])
    decreases |ts|
  {
    WrittenEnds(ts[0]);
    if |ts| > 1 {
      RenderEnds(ts[1..]);
    }
  }

  lemma WrittenEnds(t: Token)
    requires Writable(t)
    ensures Written(t) != []
    ensures !IsSpace(Written(t)[0]) && !IsSpace(Written(t)[|Written(t)| - 1])
  {
    match t.kind
    case DollarPath => assert IsPathChar(t.raw[|t.raw| - 1]);
    case Number => assert |t.raw| > 1 || IsDigit(t.raw[0]);
    case _ =>
  }

  lemma TrimIdentity(s: Text)
    requires s != [] && !IsSpace(s[0]) && !IsSpace(s[|s| - 1])
    ensures Trim(s) == s
  {
    assert s[0..] == s;
  }

  /** For every expression, evaluating its printed form gives its meaning: `||` binds weaker
      than `&&`, `&&` weaker than `!`, and `!` weaker than comparison. */
  lemma EvaluatesToMeaning(env: Env, e: Expr)
    requires WellFormed(e)
    ensures Evaluate(env, Print(e)) == Meaning(env, e)
  {
    var ts := Tokens(e, 0);
    TokensWritable(e, 0);
    RenderEnds(ts);
    TrimIdentity(Print(e));
    LexRender(ts);
    ParsesToMeaning(env, e, [Token(Eof, [])]);
  }

  ghost predicate SomePrefixDerives(env: Env, ts: seq<Token>, v: bool) {
    exists rest :: DerivesPrefix(env, ts, v, rest)
  }

  /** Exactly what is accepted: a blank condition is true; any other has the value `v` if and
      only if it scans to tokens a prefix of which derives `v`, before a token that cannot
      continue it. */
  lemma AcceptedIffDerived(env: Env, condition: Text, v: bool)
    ensures Evaluate(env, condition) == Some(v) <==>
            if Trim(condition) == [] then v
            else Lex(Trim(condition)).Some? && SomePrefixDerives(env, Lex(Trim(condition)).value, v)
  {
    if Trim(condition) != [] && Lex(Trim(condition)).Some? {
      LexEndsInEof(Trim(condition));
      var ts := Lex(Trim(condition)).value;
      if Evaluate(env, condition) == Some(v) {
        ParsesIffDerived(env, ts, v, ParseOr(env, ts).rest);
      }
      if rest :| DerivesPrefix(env, ts, v, rest) {
        ParsesIffDerived(env, ts, v, rest);
      }
    }
  }

  /** An accepted condition is one whole expression if and only if the parser stopped at the end
      token, which the source never checks. */
  lemma WholeIffAllConsumed(env: Env, condition: Text, v: bool)
    requires Trim(condition) != [] && Evaluate(env, condition) == Some(v)
    ensures Lex(Trim(condition)).Some? && EofTerminated(Lex(Trim(condition)).value)
    ensures var ts := Lex(Trim(condition)).value;
            Complete(env, ts, v) <==> |ParseOr(env, ts).rest| == 1
  {
    LexEndsInEof(Trim(condition));
    CompleteIffNothingLeft(env, Lex(Trim(condition)).value, v);
  }

  /** Tokens after a printed expression are left alone if and only if the first of them cannot
      continue it; then they are ignored, although the whole is no expression. */
  lemma TrailingTokensIgnored(env: Env, e: Expr, junk: seq<Token>)
    requires WellFormed(e) && Meaning(env, e).Some?
    requires junk != [] && forall t :: t in junk ==> Writable(t)
    ensures var ts, rest := Tokens(e, 0) + junk + [Token(Eof, [])], junk + [Token(Eof, [])];
            && Lex(Render(Tokens(e, 0) + junk)) == Some(ts) && EofTerminated(ts)
            && (ParseOr(env, ts) == Done(Meaning(env, e).value, rest) <==> Stops(Tokens(e, 0), junk[0].kind))
            && (Stops(Tokens(e, 0), junk[0].kind) ==>
                  && Evaluate(env, Render(Tokens(e, 0) + junk)) == Meaning(env, e)
                  && forall v :: !Complete(env, ts, v))
  {
    var ts, rest := Tokens(e, 0) + junk + [Token(Eof, [])], junk + [Token(Eof, [])];
    JunkRendered(env, e, junk);
    JunkLeftAlone(env, e, junk);
    if Stops(Tokens(e, 0), junk[0].kind) {
      forall v ensures !Complete(env, ts, v) {
        CompleteIffNothingLeft(env, ts, v);
      }
    }
  }

  lemma JunkRendered(env: Env, e: Expr, junk: seq<Token>)
    requires WellFormed(e) && forall t :: t in junk ==> Writable(t)
    ensures var text := Render(Tokens(e, 0) + junk);
            && Lex(text) == Some(Tokens(e, 0) + junk + [Token(Eof, [])]) && Trim(text) == text && text != []
  {
    TokensWritable(e, 0);
    RenderEnds(Tokens(e, 0) + junk);
    TrimIdentity(Render(Tokens(e, 0) + junk));
    LexRender(Tokens(e, 0) + junk);
  }

  lemma JunkLeftAlone(env: Env, e: Expr, junk: seq<Token>)
    requires WellFormed(e) && Meaning(env, e).Some? && junk != []
    ensures var ts, rest := Tokens(e, 0) + junk + [Token(Eof, [])], junk + [Token(Eof, [])];
            && EofTerminated(ts)
            && (ParseOr(env, ts) == Done(Meaning(env, e).value, rest) <==> Stops(Tokens(e, 0), junk[0].kind))
  {
    var rest := junk + [Token(Eof, [])];
    assert Tokens(e, 0) + junk + [Token(Eof, [])] == Tokens(e, 0) + rest;
    PrintedDerives(env, e, 0);
    LeftAloneIffStops(env, DerivationOf(e, 0), Meaning(env, e).value, rest);
  }

  /** Any condition whose quotes are odd in number evaluates, or fails, exactly like the trimmed
      condition with the missing quote supplied. */
  lemma OpenStringAccepted(env: Env, condition: Text)
    requires Odd(condition)
    ensures Evaluate(env, condition) == Evaluate(env, Trim(condition) + [QUOTE])
  {
    var t := Trim(condition);
    TrimQuotes(condition);
    ClosingQuoteSupplied(t);
    TrimStart(condition);
    TrimIdentity(t + [QUOTE]);
  }

  /** A condition that scans runs into a string that is never closed if and only if its quotes are
      odd in number. */
  lemma UnclosedIffOdd(condition: Text)
    requires Lex(Trim(condition)).Some?
    ensures ReachesOpen(Trim(condition)) <==> Odd(condition)
  {
    TrimQuotes(condition);
    OpenIffOdd(Trim(condition));
  }

  /** Trimming takes no quotes. */
  lemma TrimQuotes(s: Text)
    ensures Quotes(Trim(s)) == Quotes(s)
  {
    var n := Span(IsSpace, s);
    forall i | 0 <= i < n ensures s[..n][i] != QUOTE {
      assert IsSpace(s[i]);
    }
    NoQuotes(s[..n]);
    QuotesSplit(s, n);
    TrimEndQuotes(s[n..]);
  }

  lemma {:induction false} TrimEndQuotes(s: Text)
    ensures Quotes(TrimEnd(s)) == Quotes(s)
  {
    if s != [] && IsSpace(s[|s| - 1]) {
      QuotesSplit(s, |s| - 1);
      TrimEndQuotes(s[..|s| - 1]);
    }
  }

  lemma TrimStart(s: Text)
    ensures Trim(s) != [] ==> !IsSpace(Trim(s)[0])
  {
    TrimEndPrefix(s[Span(IsSpace, s)..]);
  }

  lemma {:induction false} TrimEndPrefix(s: Text)
    ensures TrimEnd(s) <= s
  {
    if s != [] && IsSpace(s[|s| - 1]) {
      TrimEndPrefix(s[..|s| - 1]);
    }
  }

  /** A text that is one string, closed or not, is true when it is not empty. */
  lemma StringAccepted(env: Env, s: Text)
    requires s != [] && !IsSpace(s[|s| - 1]) && forall i :: 0 <= i < |s| ==> IsNotQuote(s[i])
    ensures Evaluate(env, [QUOTE] + s) == Evaluate(env, [QUOTE] + s + [QUOTE]) == Some(true)
  {
    StringIsTrue(env, s);
    TrimIdentity([QUOTE] + s);
    ScanOpenString(s);
    EvaluateScanned(env, [QUOTE] + s, [Token(StringLit, s), Token(Eof, [])], true);
    ClosedStringAccepted(env, s);
  }

  lemma ClosedStringAccepted(env: Env, s: Text)
    requires s != [] && forall i :: 0 <= i < |s| ==> IsNotQuote(s[i])
    ensures Evaluate(env, [QUOTE] + s + [QUOTE]) == Some(true)
  {
    StringIsTrue(env, s);
    TrimIdentity([QUOTE] + s + [QUOTE]);
    LexOne(Token(StringLit, s));
    assert [Token(StringLit, s)] + [Token(Eof, [])] == [Token(StringLit, s), Token(Eof, [])];
    EvaluateScanned(env, [QUOTE] + s + [QUOTE], [Token(StringLit, s), Token(Eof, [])], true);
  }

  lemma EvaluateScanned(env: Env, s: Text, ts: seq<Token>, v: bool)
    requires s != [] && Trim(s) == s && Lex(s) == Some(ts) && EofTerminated(ts)
    requires ParseOr(env, ts).Done? && ParseOr(env, ts).value == v
    ensures Evaluate(env, s) == Some(v)
  {
  }

  lemma StringIsTrue(env: Env, s: Text)
    requires s != []
    ensures var ts := [Token(StringLit, s), Token(Eof, [])];
            EofTerminated(ts) && ParseOr(env, ts) == Done(true, [Token(Eof, [])])
  {
    var t := Bare(Token(StringLit, s));
    assert Denotes(env, t) == Some(true);
    assert Yield(t) + [Token(Eof, [])] == [Token(StringLit, s), Token(Eof, [])];
    TreeParses(env, t, 0, [Token(Eof, [])]);
  }
}
