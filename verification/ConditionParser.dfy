/** `ConditionParser`: recursive descent that evaluates as it parses. The parsing functions
    work on the tokens that are left and always need the last of them to be `Eof`. */
module ConditionParser {
  import opened Common
  import opened Ids
  import opened Json
  import opened ConditionLexer

  /** Operand values; numbers are exact, apart from literals with more than one point. */
  datatype Value = NullValue | BoolValue(flag: bool) | Num(number: real) | NaN | StrValue(text: Text)

  /** Path resolution: `None` when it throws, and objects and arrays already as JSON text. */
  type Env = Text -> Option<Value>

  // ---- values ----

  function DigitsValue(s: Text): nat {
    if s == [] then 0
    else
      var c := s[|s| - 1] as int;
      10 * DigitsValue(s[..|s| - 1]) + (if 0x30 <= c <= 0x39 then c - 0x30 else 0)
  }

  function PowerOfTen(n: nat): (r: nat)
    ensures r > 0
  {
    if n == 0 then 1 else 10 * PowerOfTen(n - 1)
  }

  function NumberOf(raw: Text): Value {
    var negative := raw != [] && raw[0] == MINUS;
    var body := if negative then raw[1..] else raw;
    var whole := Span(IsDigit, body);
    var magnitude :=
      if whole == |body| then Some(DigitsValue(body) as real)
      else
        var fraction := body[whole + 1..];
        if Span(IsDigit, fraction) == |fraction| then
          Some(DigitsValue(body[..whole]) as real + DigitsValue(fraction) as real / PowerOfTen(|fraction|) as real)
        else None;
    if magnitude.None? then NaN
    else Value.Num(if negative then -magnitude.value else magnitude.value)
  }

  function Truthy(v: Value): bool {
    match v
    case BoolValue(b) => b
    case Num(n) => n != 0.0
    case NaN => true
    case StrValue(t) => t != []
    case NullValue => false
  }

  function SameValue(a: Value, b: Value): bool {
    if a.NaN? then false else a == b
  }

  predicate IsComparison(k: Kind) {
    k == Gt || k == Gte || k == Lt || k == Lte || k == Eq || k == Neq
  }

  function Compare(a: Value, op: Kind, b: Value): bool {
    if op == Eq then SameValue(a, b)
    else if op == Neq then !SameValue(a, b)
    else if a.Num? && b.Num? then
      match op
      case Gt => a.number > b.number
      case Gte => a.number >= b.number
      case Lt => a.number < b.number
      case Lte => a.number <= b.number
      case _ => false
    else if a.StrValue? && b.StrValue? then
      match op
      case Gt => Less(b.text, a.text)
      case Gte => AtMost(b.text, a.text)
      case Lt => Less(a.text, b.text)
      case Lte => AtMost(a.text, b.text)
      case _ => false
    else false
  }

  // ---- parsing what is left ----

  predicate EofTerminated(ts: seq<Token>) {
    ts != [] && ts[|ts| - 1].kind == Eof
  }

  datatype Parsed = Done(value: bool, rest: seq<Token>) | Failed
  datatype Operand = Got(operand: Value, left: seq<Token>) | NoOperand

  function ParseValue(env: Env, ts: seq<Token>): (r: Operand)
    requires EofTerminated(ts)
    ensures r.Got? ==> EofTerminated(r.left) && |r.left| == |ts| - 1
  {
    var t := ts[0];
    match t.kind
    case DollarPath =>
      var v := env(t.raw);
      if v.None? then NoOperand else Got(v.value, ts[1..])
    case Number => Got(NumberOf(t.raw), ts[1..])
    case StringLit => Got(StrValue(t.raw), ts[1..])
    case TrueLit => Got(BoolValue(true), ts[1..])
    case FalseLit => Got(BoolValue(false), ts[1..])
    case NullLit => Got(NullValue, ts[1..])
    case _ => NoOperand
  }

  function ParseOr(env: Env, ts: seq<Token>): (r: Parsed)
    requires EofTerminated(ts)
    ensures r.Done? ==> EofTerminated(r.rest) && |r.rest| < |ts|
    decreases |ts|, 4
  {
    var left := ParseAnd(env, ts);
    if left.Failed? then Failed else OrRest(env, left.value, left.rest)
  }

  /** Further `|| and_expr` parts after a value. */
  function OrRest(env: Env, left: bool, ts: seq<Token>): (r: Parsed)
    requires EofTerminated(ts)
    ensures r.Done? ==> EofTerminated(r.rest) && |r.rest| <= |ts|
    decreases |ts|, 0
  {
    if ts[0].kind != Or then Done(left, ts)
    else
      var right := ParseAnd(env, ts[1..]);
      if right.Failed? then Failed else OrRest(env, left || right.value, right.rest)
  }

  function ParseAnd(env: Env, ts: seq<Token>): (r: Parsed)
    requires EofTerminated(ts)
    ensures r.Done? ==> EofTerminated(r.rest) && |r.rest| < |ts|
    decreases |ts|, 3
  {
    var left := ParseNot(env, ts);
    if left.Failed? then Failed else AndRest(env, left.value, left.rest)
  }

  function AndRest(env: Env, left: bool, ts: seq<Token>): (r: Parsed)
    requires EofTerminated(ts)
    ensures r.Done? ==> EofTerminated(r.rest) && |r.rest| <= |ts|
    decreases |ts|, 0
  {
    if ts[0].kind != And then Done(left, ts)
    else
      var right := ParseNot(env, ts[1..]);
      if right.Failed? then Failed else AndRest(env, left && right.value, right.rest)
  }

  function ParseNot(env: Env, ts: seq<Token>): (r: Parsed)
    requires EofTerminated(ts)
    ensures r.Done? ==> EofTerminated(r.rest) && |r.rest| < |ts|
    decreases |ts|, 2
  {
    if ts[0].kind == Not then
      var inner := ParseNot(env, ts[1..]);
      if inner.Failed? then Failed else Done(!inner.value, inner.rest)
    else ParseComparison(env, ts)
  }

  function ParseComparison(env: Env, ts: seq<Token>): (r: Parsed)
    requires EofTerminated(ts)
    ensures r.Done? ==> EofTerminated(r.rest) && |r.rest| < |ts|
    decreases |ts|, 1
  {
    if ts[0].kind == LParen then
      var inner := ParseOr(env, ts[1..]);
      if inner.Failed? || inner.rest[0].kind != RParen then Failed else Done(inner.value, inner.rest[1..])
    else if ts[0].kind == TrueLit then Done(true, ts[1..])
    else if ts[0].kind == FalseLit then Done(false, ts[1..])
    else
      var lhs := ParseValue(env, ts);
      if lhs.NoOperand? then Failed
      else if !IsComparison(lhs.left[0].kind) then Done(Truthy(lhs.operand), lhs.left)
      else
        var rhs := ParseValue(env, lhs.left[1..]);
        if rhs.NoOperand? then Failed
        else Done(Compare(lhs.operand, lhs.left[0].kind, rhs.operand), rhs.left)
  }

  // ---- the parser object ----

  /** The source's parser: a token array and a position. Every read of `tokens[pos]` is in
      bounds and every method terminates, for any token list that ends in `Eof`. `None` is a
      thrown error. */
  class Parser {
    const tokens: seq<Token>
    const env: Env
    var pos: nat

    constructor (tokens: seq<Token>, env: Env)
      requires EofTerminated(tokens)
      ensures this.tokens == tokens && this.env == env && pos == 0 && Ready()
    {
      this.tokens, this.env, this.pos := tokens, env, 0;
    }

    ghost predicate Ready()
      reads this
    {
      EofTerminated(tokens) && pos < |tokens|
    }

    ghost function Left(): (r: seq<Token>)
      requires Ready()
      reads this
      ensures EofTerminated(r) && |r| == |tokens| - pos
    {
      tokens[pos..]
    }

    /** The outcome of a method agrees with the outcome of the function on what was left. */
    ghost predicate Agrees(r: Option<bool>, parsed: Parsed)
      reads this
    {
      if parsed.Failed? then r == None
      else r == Some(parsed.value) && Ready() && Left() == parsed.rest
    }

    method Consume()
      requires Ready() && tokens[pos].kind != Eof
      modifies this
      ensures Ready() && pos == old(pos) + 1 && Left() == old(Left())[1..]
    {
      pos := pos + 1;
    }

    method ParseOrExpr() returns (r: Option<bool>)
      requires Ready()
      modifies this
      ensures Agrees(r, ParseOr(env, old(Left())))
      decreases |tokens| - pos, 4
    {
      ghost var start := Left();
      var left := ParseAndExpr();
      if left.None? {
        return None;
      }
      var value := left.value;
      while tokens[pos].kind == Or
        invariant Ready() && old(pos) < pos
        invariant ParseOr(env, start) == OrRest(env, value, Left())
        decreases |tokens| - pos
      {
        Consume();
        var right := ParseAndExpr();
        if right.None? {
          return None;
        }
        value := value || right.value;
      }
      return Some(value);
    }

    method ParseAndExpr() returns (r: Option<bool>)
      requires Ready()
      modifies this
      ensures Agrees(r, ParseAnd(env, old(Left())))
      decreases |tokens| - pos, 3
    {
      ghost var start := Left();
      var left := ParseNotExpr();
      if left.None? {
        return None;
      }
      var value := left.value;
      while tokens[pos].kind == And
        invariant Ready() && old(pos) < pos
        invariant ParseAnd(env, start) == AndRest(env, value, Left())
        decreases |tokens| - pos
      {
        Consume();
        var right := ParseNotExpr();
        if right.None? {
          return None;
        }
        value := value && right.value;
      }
      return Some(value);
    }

    method ParseNotExpr() returns (r: Option<bool>)
      requires Ready()
      modifies this
      ensures Agrees(r, ParseNot(env, old(Left())))
      decreases |tokens| - pos, 2
    {
      if tokens[pos].kind == Not {
        Consume();
        var inner := ParseNotExpr();
        if inner.None? {
          return None;
        }
        return Some(!inner.value);
      }
      r := ParseComparisonExpr();
    }

    method ParseComparisonExpr() returns (r: Option<bool>)
      requires Ready()
      modifies this
      ensures Agrees(r, ParseComparison(env, old(Left())))
      decreases |tokens| - pos, 1
    {
      if tokens[pos].kind == LParen {
        Consume();
        var inner := ParseOrExpr();
        if inner.None? || tokens[pos].kind != RParen {
          return None;
        }
        Consume();
        return inner;
      }
      if tokens[pos].kind == TrueLit {
        Consume();
        return Some(true);
      }
      if tokens[pos].kind == FalseLit {
        Consume();
        return Some(false);
      }
      var lhs := ParseOperand();
      if lhs.None? {
        return None;
      }
      var op := tokens[pos].kind;
      if !IsComparison(op) {
        return Some(Truthy(lhs.value));
      }
      Consume();
      var rhs := ParseOperand();
      if rhs.None? {
        return None;
      }
      return Some(Compare(lhs.value, op, rhs.value));
    }

    method ParseOperand() returns (r: Option<Value>)
      requires Ready()
      modifies this
      ensures var parsed := ParseValue(env, old(Left()));
              if parsed.NoOperand? then r == None
              else r == Some(parsed.operand) && Ready() && pos == old(pos) + 1 && Left() == parsed.left
      decreases |tokens| - pos, 0
    {
      var t := tokens[pos];
      match t.kind
      case DollarPath =>
        r := env(t.raw);
        if r.Some? { Consume(); }
      case Number => Consume(); r := Some(NumberOf(t.raw));
      case StringLit => Consume(); r := Some(StrValue(t.raw));
      case TrueLit => Consume(); r := Some(BoolValue(true));
      case FalseLit => Consume(); r := Some(BoolValue(false));
      case NullLit => Consume(); r := Some(NullValue);
      case _ => r := None;
    }
  }
}
