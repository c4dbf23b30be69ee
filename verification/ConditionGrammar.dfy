/** The grammar of conditions as derivation trees over tokens, redundant parentheses included,
    and exactly which token lists the parser accepts. */
module ConditionGrammar {
  import opened Common
  import opened ConditionLexer
  import opened ConditionParser

  // ---- derivations ----

  /** A derivation keeps every token it covers, so that it yields them back. */
  datatype Tree =
    | Either(left: Tree, bar: Token, right: Tree)
    | Both(left: Tree, amp: Token, right: Tree)
    | Negated(bang: Token, inner: Tree)
    | Group(open: Token, inner: Tree, close: Token)
    | Flagged(flag: Token)
    | Bare(operand: Token)
    | Compared(lhs: Token, op: Token, rhs: Token)

  /** 0 for `||`, 1 for `&&`, 2 for `!`, 3 for everything that binds tighter. */
  function Rank(t: Tree): nat {
    match t
    case Either(_, _, _) => 0
    case Both(_, _, _) => 1
    case Negated(_, _) => 2
    case _ => 3
  }

  predicate IsFlag(k: Kind) {
    k == TrueLit || k == FalseLit
  }

  /** What may open a comparison. A leading flag never does. */
  predicate IsLeading(k: Kind) {
    k == DollarPath || k == Number || k == StringLit || k == NullLit
  }

  /** The productions: `||` and `&&` associate to the left, and operands bind tighter. */
  predicate Derived(t: Tree) {
    match t
    case Either(l, bar, r) => bar.kind == Or && Derived(l) && Derived(r) && Rank(r) >= 1
    case Both(l, amp, r) => amp.kind == And && Derived(l) && Derived(r) && Rank(l) >= 1 && Rank(r) >= 2
    case Negated(bang, x) => bang.kind == Not && Derived(x) && Rank(x) >= 2
    case Group(open, x, close) => open.kind == LParen && Derived(x) && close.kind == RParen
    case Flagged(flag) => IsFlag(flag.kind)
    case Bare(operand) => IsLeading(operand.kind)
    case Compared(l, op, r) => IsLeading(l.kind) && IsComparison(op.kind) && (IsLeading(r.kind) || IsFlag(r.kind))
  }

  function Yield(t: Tree): (r: seq<Token>)
    ensures r != []
  {
    match t
    case Either(l, bar, r) => Yield(l) + [bar] + Yield(r)
    case Both(l, amp, r) => Yield(l) + [amp] + Yield(r)
    case Negated(bang, x) => [bang] + Yield(x)
    case Group(open, x, close) => [open] + Yield(x) + [close]
    case Flagged(flag) => [flag]
    case Bare(operand) => [operand]
    case Compared(l, op, r) => [l, op, r]
  }

  function OperandValue(env: Env, t: Token): Option<Value> {
    match t.kind
    case DollarPath => env(t.raw)
    case Number => Some(NumberOf(t.raw))
    case StringLit => Some(StrValue(t.raw))
    case TrueLit => Some(BoolValue(true))
    case FalseLit => Some(BoolValue(false))
    case NullLit => Some(NullValue)
    case _ => None
  }

  /** What a derivation denotes; `None` when a path in it does not resolve. */
  function Denotes(env: Env, t: Tree): Option<bool> {
    match t
    case Either(l, _, r) => OrOf(Denotes(env, l), Denotes(env, r))
    case Both(l, _, r) => AndOf(Denotes(env, l), Denotes(env, r))
    case Negated(_, x) => NotOf(Denotes(env, x))
    case Group(_, x, _) => Denotes(env, x)
    case Flagged(flag) => Some(flag.kind == TrueLit)
    case Bare(operand) =>
      var a := OperandValue(env, operand);
      if a.None? then None else Some(Truthy(a.value))
    case Compared(l, op, r) =>
      var a, b := OperandValue(env, l), OperandValue(env, r);
      if a.None? || b.None? then None else Some(Compare(a.value, op.kind, b.value))
  }

  /** Both sides of a connective are evaluated. */
  function OrOf(a: Option<bool>, b: Option<bool>): Option<bool> {
    if a.None? || b.None? then None else Some(a.value || b.value)
  }

  function AndOf(a: Option<bool>, b: Option<bool>): Option<bool> {
    if a.None? || b.None? then None else Some(a.value && b.value)
  }

  function NotOf(a: Option<bool>): Option<bool> {
    if a.None? then None else Some(!a.value)
  }

  // ---- where a derivation ends ----

  /** The tokens end in an operand that a comparison operator would still take. */
  predicate OpenEnd(ts: seq<Token>) {
    && ts != [] && IsLeading(ts[|ts| - 1].kind)
    && (|ts| > 1 ==> !IsComparison(ts[|ts| - 2].kind))
  }

  /** A token of this kind cannot continue the tokens before it. */
  predicate Stops(ts: seq<Token>, next: Kind) {
    next != Or && next != And && (IsComparison(next) ==> !OpenEnd(ts))
  }

  lemma OpenEndSuffix(front: seq<Token>, ts: seq<Token>)
    requires ts != [] && (front == [] || !IsComparison(front[|front| - 1].kind))
    ensures OpenEnd(front + ts) == OpenEnd(ts)
  {
  }

  lemma {:induction false} FirstOfYield(t: Tree)
    requires Derived(t)
    ensures Yield(t)[0].kind == Not ==> Rank(t) < 3
  {
  }

  // ---- derivations parse ----

  function ParseAt(env: Env, level: nat, ts: seq<Token>): Parsed
    requires EofTerminated(ts)
  {
    if level == 0 then ParseOr(env, ts)
    else if level == 1 then ParseAnd(env, ts)
    else if level == 2 then ParseNot(env, ts)
    else ParseComparison(env, ts)
  }

  /** What may come after `ts` where an operand of rank `level` is parsed: the loops of the lower
      ranks go on from there. */
  predicate MayFollow(ts: seq<Token>, level: nat, post: seq<Token>) {
    EofTerminated(post) && (IsComparison(post[0].kind) ==> !OpenEnd(ts)) && (level == 0 ==> post[0].kind != And)
  }

  /** Parsing a value of rank `level` and whatever loop that rank has. */
  function Onwards(env: Env, m: Option<bool>, level: nat, post: seq<Token>): Parsed
    requires EofTerminated(post)
  {
    if m.None? then Failed
    else if level == 0 then OrRest(env, m.value, post)
    else if level == 1 then AndRest(env, m.value, post)
    else Done(m.value, post)
  }

  lemma Appended(a: seq<Token>, post: seq<Token>)
    requires EofTerminated(post)
    ensures EofTerminated(a + post)
  {
    assert (a + post)[|a + post| - 1] == post[|post| - 1];
  }

  lemma {:induction false} TreeParses(env: Env, t: Tree, level: nat, post: seq<Token>)
    requires Derived(t) && level <= Rank(t) && MayFollow(Yield(t), level, post)
    ensures EofTerminated(Yield(t) + post)
    ensures ParseAt(env, level, Yield(t) + post) == Onwards(env, Denotes(env, t), level, post)
    decreases t, 4 - level
  {
    Appended(Yield(t), post);
    if level < Rank(t) {
      TreeParses(env, t, level + 1, post);
      RankPasses(env, t, level, post);
    } else {
      match t
      case Either(_, _, _) => EitherParses(env, t, post);
      case Both(_, _, _) => BothParses(env, t, post);
      case Negated(bang, x) =>
        OpenEndSuffix([bang], Yield(x));
        TreeParses(env, x, 2, post);
        NegatedParses(env, t, post);
      case Group(_, _, _) => InnerParses(env, t, post);
      case _ => AtomParses(env, t, post);
    }
  }

  /** A tree of a tighter rank passes through the looser parsing function. */
  lemma RankPasses(env: Env, t: Tree, level: nat, post: seq<Token>)
    requires Derived(t) && level < Rank(t) && MayFollow(Yield(t), level, post) && EofTerminated(Yield(t) + post)
    requires ParseAt(env, level + 1, Yield(t) + post) == Onwards(env, Denotes(env, t), level + 1, post)
    ensures ParseAt(env, level, Yield(t) + post) == Onwards(env, Denotes(env, t), level, post)
  {
    FirstOfYield(t);
  }

  lemma {:induction false} EitherParses(env: Env, t: Tree, post: seq<Token>)
    requires t.Either? && Derived(t) && MayFollow(Yield(t), 0, post) && EofTerminated(Yield(t) + post)
    ensures ParseOr(env, Yield(t) + post) == Onwards(env, Denotes(env, t), 0, post)
    decreases t, 0
  {
    var right := Yield(t.right) + post;
    InfixFollows(Yield(t.left), t.bar, Yield(t.right), 0, post);
    TreeParses(env, t.right, 1, post);
    TreeParses(env, t.left, 0, [t.bar] + right);
    OrContinues(env, Denotes(env, t.left), t.bar, right, Denotes(env, t.right), post);
    Reassociate(Yield(t.left), t.bar, Yield(t.right), post);
  }

  lemma {:induction false} BothParses(env: Env, t: Tree, post: seq<Token>)
    requires t.Both? && Derived(t) && MayFollow(Yield(t), 1, post) && EofTerminated(Yield(t) + post)
    ensures ParseAnd(env, Yield(t) + post) == Onwards(env, Denotes(env, t), 1, post)
    decreases t, 0
  {
    var right := Yield(t.right) + post;
    InfixFollows(Yield(t.left), t.amp, Yield(t.right), 1, post);
    TreeParses(env, t.right, 2, post);
    TreeParses(env, t.left, 1, [t.amp] + right);
    AndContinues(env, Denotes(env, t.left), t.amp, right, Denotes(env, t.right), post);
    Reassociate(Yield(t.left), t.amp, Yield(t.right), post);
  }

  lemma Reassociate(l: seq<Token>, mid: Token, r: seq<Token>, post: seq<Token>)
    ensures l + [mid] + r + post == l + ([mid] + (r + post))
  {
  }

  /** What follows the whole follows its right part; the left part is followed by the connective. */
  lemma InfixFollows(l: seq<Token>, mid: Token, r: seq<Token>, level: nat, post: seq<Token>)
    requires r != [] && MayFollow(l + [mid] + r, level, post)
    requires mid.kind == Or || (mid.kind == And && level > 0)
    ensures MayFollow(r, level + 1, post)
    ensures EofTerminated(r + post) && MayFollow(l, level, [mid] + (r + post))
  {
    OpenEndSuffix(l + [mid], r);
    Appended(r, post);
    Appended([mid], r + post);
  }

  lemma NegatedParses(env: Env, t: Tree, post: seq<Token>)
    requires t.Negated? && Derived(t) && EofTerminated(post) && EofTerminated(Yield(t.inner) + post)
    requires ParseNot(env, Yield(t.inner) + post) == Onwards(env, Denotes(env, t.inner), 2, post)
    ensures EofTerminated(Yield(t) + post)
    ensures ParseNot(env, Yield(t) + post) == Onwards(env, Denotes(env, t), 2, post)
  {
    YieldNegated(t, post);
    NotUnfolds(env, t.bang, Yield(t.inner) + post);
  }

  lemma YieldNegated(t: Tree, post: seq<Token>)
    requires t.Negated?
    ensures Yield(t) + post == [t.bang] + (Yield(t.inner) + post)
  {
  }

  lemma NotUnfolds(env: Env, bang: Token, inner: seq<Token>)
    requires bang.kind == Not && EofTerminated(inner)
    ensures EofTerminated([bang] + inner)
    ensures var p := ParseNot(env, inner);
            ParseNot(env, [bang] + inner) == if p.Failed? then Failed else Done(!p.value, p.rest)
  {
    Appended([bang], inner);
    assert ([bang] + inner)[1..] == inner;
  }

  lemma OrContinues(env: Env, a: Option<bool>, bar: Token, right: seq<Token>, b: Option<bool>, post: seq<Token>)
    requires bar.kind == Or && EofTerminated([bar] + right) && EofTerminated(right) && EofTerminated(post)
    requires post[0].kind != And && ParseAnd(env, right) == Onwards(env, b, 1, post)
    ensures Onwards(env, a, 0, [bar] + right) == Onwards(env, OrOf(a, b), 0, post)
  {
    assert ([bar] + right)[1..] == right;
  }

  lemma AndContinues(env: Env, a: Option<bool>, amp: Token, right: seq<Token>, b: Option<bool>, post: seq<Token>)
    requires amp.kind == And && EofTerminated([amp] + right) && EofTerminated(right) && EofTerminated(post)
    requires ParseNot(env, right) == Onwards(env, b, 2, post)
    ensures Onwards(env, a, 1, [amp] + right) == Onwards(env, AndOf(a, b), 1, post)
  {
    assert ([amp] + right)[1..] == right;
  }

  lemma {:induction false} InnerParses(env: Env, t: Tree, post: seq<Token>)
    requires t.Group? && Derived(t) && EofTerminated(post)
    ensures EofTerminated(Yield(t) + post)
    ensures ParseComparison(env, Yield(t) + post) == Onwards(env, Denotes(env, t), 3, post)
    decreases t, 0
  {
    Appended([t.close], post);
    TreeParses(env, t.inner, 0, [t.close] + post);
    GroupParses(env, t, post);
  }

  lemma GroupParses(env: Env, t: Tree, post: seq<Token>)
    requires t.Group? && Derived(t) && EofTerminated(post)
    requires EofTerminated(Yield(t.inner) + ([t.close] + post)) && EofTerminated([t.close] + post)
    requires ParseOr(env, Yield(t.inner) + ([t.close] + post))
             == Onwards(env, Denotes(env, t.inner), 0, [t.close] + post)
    ensures EofTerminated(Yield(t) + post)
    ensures ParseComparison(env, Yield(t) + post) == Onwards(env, Denotes(env, t), 3, post)
  {
    YieldGroup(t, post);
    Appended([t.open], Yield(t.inner) + ([t.close] + post));
    GroupUnfolds(env, t.open, Yield(t.inner) + ([t.close] + post));
    assert ([t.close] + post)[1..] == post;
  }

  lemma YieldGroup(t: Tree, post: seq<Token>)
    requires t.Group?
    ensures Yield(t) + post == [t.open] + (Yield(t.inner) + ([t.close] + post))
  {
  }

  lemma GroupUnfolds(env: Env, open: Token, inner: seq<Token>)
    requires open.kind == LParen && EofTerminated(inner) && EofTerminated([open] + inner)
    ensures var p := ParseOr(env, inner);
            ParseComparison(env, [open] + inner) ==
            if p.Failed? || p.rest[0].kind != RParen then Failed else Done(p.value, p.rest[1..])
  {
    assert ([open] + inner)[1..] == inner;
  }

  lemma AtomParses(env: Env, t: Tree, post: seq<Token>)
    requires t.Flagged? || t.Bare? || t.Compared?
    requires Derived(t) && MayFollow(Yield(t), 3, post)
    ensures EofTerminated(Yield(t) + post)
    ensures ParseComparison(env, Yield(t) + post) == Onwards(env, Denotes(env, t), 3, post)
  {
    Appended(Yield(t), post);
    if t.Compared? {
      ComparedParses(env, t, post);
    } else {
      assert (Yield(t) + post)[1..] == post;
    }
  }

  lemma ComparedParses(env: Env, t: Tree, post: seq<Token>)
    requires t.Compared? && Derived(t) && EofTerminated(post) && EofTerminated(Yield(t) + post)
    ensures ParseComparison(env, Yield(t) + post) == Onwards(env, Denotes(env, t), 3, post)
  {
    var ts := Yield(t) + post;
    assert ts[1..] == [t.op, t.rhs] + post;
    assert ts[1..][1..] == [t.rhs] + post;
    assert ts[1..][1..][1..] == post;
    OperandParses(env, ts);
    OperandParses(env, ts[1..][1..]);
  }

  lemma OperandParses(env: Env, ts: seq<Token>)
    requires EofTerminated(ts) && (IsLeading(ts[0].kind) || IsFlag(ts[0].kind))
    ensures var a := OperandValue(env, ts[0]);
            ParseValue(env, ts) == if a.None? then NoOperand else Got(a.value, ts[1..])
  {
  }

  // ---- what parses is derived ----

  /** What a parsing function of rank `level` is known to have left. */
  predicate LeftAt(ts: seq<Token>, level: nat, rest: seq<Token>) {
    MayFollow(ts, level, rest) && (level == 0 ==> rest[0].kind != Or) && (level <= 1 ==> rest[0].kind != And)
  }

  ghost predicate IsDerivation(env: Env, t: Tree, level: nat, ts: seq<Token>, v: bool, rest: seq<Token>) {
    && Derived(t) && Rank(t) >= level && Denotes(env, t) == Some(v)
    && ts == Yield(t) + rest && LeftAt(Yield(t), level, rest)
  }

  lemma {:induction false} ParsedTree(env: Env, level: nat, ts: seq<Token>) returns (t: Tree)
    requires level <= 3 && EofTerminated(ts) && ParseAt(env, level, ts).Done?
    ensures IsDerivation(env, t, level, ts, ParseAt(env, level, ts).value, ParseAt(env, level, ts).rest)
    decreases |ts|, 4 - level, 1
  {
    if level == 0 {
      var first := ParseAnd(env, ts);
      var t0 := ParsedTree(env, 1, ts);
      t := OrLoop(env, t0, first.value, first.rest);
    } else if level == 1 {
      var first := ParseNot(env, ts);
      var t0 := ParsedTree(env, 2, ts);
      t := AndLoop(env, t0, first.value, first.rest);
    } else if level == 2 {
      if ts[0].kind == Not {
        var x := ParsedTree(env, 2, ts[1..]);
        t := Negated(ts[0], x);
        NegatedDerives(env, ts, x);
      } else {
        t := ParsedTree(env, 3, ts);
      }
    } else if ts[0].kind == LParen {
      var x := ParsedTree(env, 0, ts[1..]);
      t := Group(ts[0], x, ParseOr(env, ts[1..]).rest[0]);
      GroupDerives(env, ts, x);
    } else {
      t := ParsedAtom(env, ts);
    }
  }

  lemma NegatedDerives(env: Env, ts: seq<Token>, x: Tree)
    requires EofTerminated(ts) && ts[0].kind == Not && ParseNot(env, ts).Done?
    requires var p := ParseNot(env, ts[1..]); IsDerivation(env, x, 2, ts[1..], p.value, p.rest)
    ensures var p := ParseNot(env, ts); IsDerivation(env, Negated(ts[0], x), 2, ts, p.value, p.rest)
  {
    var t := Negated(ts[0], x);
    OpenEndSuffix([ts[0]], Yield(x));
    YieldNegated(t, ParseNot(env, ts[1..]).rest);
    FirstAndRest(ts);
  }

  lemma FirstAndRest(ts: seq<Token>)
    requires ts != []
    ensures ts == [ts[0]] + ts[1..]
  {
  }

  lemma GroupDerives(env: Env, ts: seq<Token>, x: Tree)
    requires EofTerminated(ts) && ts[0].kind == LParen && ParseComparison(env, ts).Done?
    requires var p := ParseOr(env, ts[1..]); IsDerivation(env, x, 0, ts[1..], p.value, p.rest)
    ensures var p := ParseComparison(env, ts);
            IsDerivation(env, Group(ts[0], x, ParseOr(env, ts[1..]).rest[0]), 3, ts, p.value, p.rest)
  {
    Regrouped(ts, x, ParseOr(env, ts[1..]).rest);
  }

  lemma Regrouped(ts: seq<Token>, x: Tree, rest: seq<Token>)
    requires |ts| > 1 && rest != [] && ts[1..] == Yield(x) + rest
    ensures ts == [ts[0]] + Yield(x) + [rest[0]] + rest[1..]
  {
    assert rest == [rest[0]] + rest[1..];
    assert ts == [ts[0]] + ts[1..];
  }

  lemma ParsedAtom(env: Env, ts: seq<Token>) returns (t: Tree)
    requires EofTerminated(ts) && ts[0].kind != LParen && ParseComparison(env, ts).Done?
    ensures IsDerivation(env, t, 3, ts, ParseComparison(env, ts).value, ParseComparison(env, ts).rest)
  {
    if IsFlag(ts[0].kind) {
      t := Flagged(ts[0]);
      OneToken(ts);
    } else if !IsComparison(ParseValue(env, ts).left[0].kind) {
      t := Bare(ts[0]);
      OneToken(ts);
    } else {
      t := ParsedComparison(env, ts);
    }
  }

  lemma ParsedComparison(env: Env, ts: seq<Token>) returns (t: Tree)
    requires EofTerminated(ts) && ts[0].kind != LParen && !IsFlag(ts[0].kind) && ParseComparison(env, ts).Done?
    requires IsComparison(ParseValue(env, ts).left[0].kind)
    ensures IsDerivation(env, t, 3, ts, ParseComparison(env, ts).value, ParseComparison(env, ts).rest)
  {
    OperandTaken(env, ts);
    OperandTaken(env, ts[1..][1..]);
    ThreeTokens(ts);
    t := Compared(ts[0], ts[1], ts[2]);
  }

  lemma OperandTaken(env: Env, ts: seq<Token>)
    requires EofTerminated(ts) && ParseValue(env, ts).Got?
    ensures IsLeading(ts[0].kind) || IsFlag(ts[0].kind)
    ensures OperandValue(env, ts[0]) == Some(ParseValue(env, ts).operand)
    ensures ParseValue(env, ts).left == ts[1..] && |ts| > 1
  {
  }

  lemma OneToken(ts: seq<Token>)
    requires ts != []
    ensures ts == [ts[0]] + ts[1..] && !(|[ts[0]]| > 1)
  {
  }

  lemma ThreeTokens(ts: seq<Token>)
    requires |ts| >= 3
    ensures ts[1..][1..][1..] == ts[3..] && ts[1..][1..][0] == ts[2] && ts == [ts[0], ts[1], ts[2]] + ts[3..]
  {
  }

  lemma {:induction false} OrLoop(env: Env, t0: Tree, a: bool, ts: seq<Token>) returns (t: Tree)
    requires EofTerminated(ts) && Derived(t0) && Denotes(env, t0) == Some(a) && LeftAt(Yield(t0), 1, ts)
    requires OrRest(env, a, ts).Done?
    ensures IsDerivation(env, t, 0, Yield(t0) + ts, OrRest(env, a, ts).value, OrRest(env, a, ts).rest)
    decreases |ts|, 0, 0
  {
    if ts[0].kind != Or {
      t := t0;
    } else {
      var right := ParseAnd(env, ts[1..]);
      var r := ParsedTree(env, 1, ts[1..]);
      var t1 := Either(t0, ts[0], r);
      OpenEndSuffix(Yield(t0) + [ts[0]], Yield(r));
      t := OrLoop(env, t1, a || right.value, right.rest);
      Rejoined(Yield(t0), ts, Yield(r), right.rest);
    }
  }

  lemma {:induction false} AndLoop(env: Env, t0: Tree, a: bool, ts: seq<Token>) returns (t: Tree)
    requires EofTerminated(ts) && Derived(t0) && Rank(t0) >= 1 && Denotes(env, t0) == Some(a)
              && LeftAt(Yield(t0), 2, ts)
    requires AndRest(env, a, ts).Done?
    ensures IsDerivation(env, t, 1, Yield(t0) + ts, AndRest(env, a, ts).value, AndRest(env, a, ts).rest)
    decreases |ts|, 0, 0
  {
    if ts[0].kind != And {
      t := t0;
    } else {
      var right := ParseNot(env, ts[1..]);
      var r := ParsedTree(env, 2, ts[1..]);
      var t1 := Both(t0, ts[0], r);
      OpenEndSuffix(Yield(t0) + [ts[0]], Yield(r));
      t := AndLoop(env, t1, a && right.value, right.rest);
      Rejoined(Yield(t0), ts, Yield(r), right.rest);
    }
  }

  lemma Rejoined(front: seq<Token>, ts: seq<Token>, mid: seq<Token>, rest: seq<Token>)
    requires ts != [] && ts[1..] == mid + rest
    ensures front + ts == front + [ts[0]] + mid + rest
  {
    assert ts == [ts[0]] + ts[1..];
  }

  // ---- exactly what is accepted ----

  /** `ts` is a derivable prefix with value `v` followed by `rest`, which cannot continue it. */
  ghost predicate DerivesPrefix(env: Env, ts: seq<Token>, v: bool, rest: seq<Token>) {
    EofTerminated(rest) &&
    exists t :: Derived(t) && Denotes(env, t) == Some(v) && ts == Yield(t) + rest && Stops(Yield(t), rest[0].kind)
  }

  /** The parser returns a value and a rest if and only if the tokens derive that value before
      that rest. */
  lemma ParsesIffDerived(env: Env, ts: seq<Token>, v: bool, rest: seq<Token>)
    requires EofTerminated(ts)
    ensures ParseOr(env, ts) == Done(v, rest) <==> DerivesPrefix(env, ts, v, rest)
  {
    if ParseOr(env, ts) == Done(v, rest) {
      var t := ParsedTree(env, 0, ts);
      assert Stops(Yield(t), rest[0].kind);
    }
    if DerivesPrefix(env, ts, v, rest) {
      var t :| Derived(t) && Denotes(env, t) == Some(v) && ts == Yield(t) + rest && Stops(Yield(t), rest[0].kind);
      TreeParses(env, t, 0, rest);
    }
  }

  /** The tokens are one whole expression with value `v`, followed by the end token alone. */
  ghost predicate Complete(env: Env, ts: seq<Token>, v: bool) {
    ts != [] && DerivesPrefix(env, ts, v, [ts[|ts| - 1]])
  }

  /** An accepted token list is a complete expression, of the value it was given, if and only if
      nothing but the end token was left. */
  lemma CompleteIffNothingLeft(env: Env, ts: seq<Token>, v: bool)
    requires EofTerminated(ts) && ParseOr(env, ts).Done?
    ensures Complete(env, ts, v) <==> ParseOr(env, ts).value == v && |ParseOr(env, ts).rest| == 1
  {
    var p := ParseOr(env, ts);
    ParsesIffDerived(env, ts, v, [ts[|ts| - 1]]);
    var t := ParsedTree(env, 0, ts);
    if |p.rest| == 1 {
      LastIsEnd(Yield(t), p.rest);
    }
  }

  lemma LastIsEnd(front: seq<Token>, rest: seq<Token>)
    requires |rest| == 1
    ensures rest == [(front + rest)[|front + rest| - 1]]
  {
  }

  /** What follows a whole expression is left alone if and only if it cannot continue it. */
  lemma LeftAloneIffStops(env: Env, t: Tree, v: bool, junk: seq<Token>)
    requires Derived(t) && Denotes(env, t) == Some(v) && EofTerminated(junk)
    ensures EofTerminated(Yield(t) + junk)
    ensures ParseOr(env, Yield(t) + junk) == Done(v, junk) <==> Stops(Yield(t), junk[0].kind)
  {
    Appended(Yield(t), junk);
    if Stops(Yield(t), junk[0].kind) {
      TreeParses(env, t, 0, junk);
    }
    if ParseOr(env, Yield(t) + junk) == Done(v, junk) {
      var t' := ParsedTree(env, 0, Yield(t) + junk);
      assert Yield(t') == (Yield(t') + junk)[..|Yield(t) + junk| - |junk|] == Yield(t);
    }
  }
}
