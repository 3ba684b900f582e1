/** The stratified grammar, and why the parser accepts exactly its sentences with exactly their trees. */
module ExprGrammar {
  import opened Wrappers
  import opened ExprModel

  // ---- Concrete syntax: a derivation in the grammar, parentheses kept ----
  //
  //   Sum   ::= Prod  | Sum (+ -) Prod          level 0
  //   Prod  ::= Unary | Prod (* / %) Unary      level 1
  //   Unary ::= Power | - Unary                 level 2
  //   Power ::= Atom  | Atom ^ Unary            level 3
  //   Atom  ::= number | identifier | ( Sum )   level 4

  datatype Syn = SNum(n: real) | SIdent(name: string) | SParen(e: Syn) | SNeg(e: Syn) | SBin(op: Op, l: Syn, r: Syn)

  function OpLevel(op: Op): nat {
    match op
    case Add => 0
    case Sub => 0
    case Mul => 1
    case Div => 1
    case Rem => 1
    case Pow => 3
  }

  /** The grammar level of each operand. */
  function LeftLevel(op: Op): nat {
    if op.Pow? then 4 else OpLevel(op)
  }

  function RightLevel(op: Op): nat {
    if op.Pow? then 2 else OpLevel(op) + 1
  }

  function Level(s: Syn): nat {
    match s
    case SNeg(_) => 2
    case SBin(op, _, _) => OpLevel(op)
    case _ => 4
  }

  /** `s` is a derivation of the grammar. */
  predicate Derives(s: Syn) {
    match s
    case SNum(_) => true
    case SIdent(_) => true
    case SParen(e) => Derives(e)
    case SNeg(e) => Derives(e) && Level(e) >= 2
    case SBin(op, l, r) => Derives(l) && Derives(r) && Level(l) >= LeftLevel(op) && Level(r) >= RightLevel(op)
  }

  function OpSign(op: Op): Token {
    match op
    case Add => Plus
    case Sub => Minus
    case Mul => Star
    case Div => Slash
    case Rem => Percent
    case Pow => Caret
  }

  /** The sentence a derivation derives. */
  function Yield(s: Syn): (ts: seq<Token>)
    ensures ts != []
  {
    match s
    case SNum(n) => [NumTok(n)]
    case SIdent(name) => [Ident(name)]
    case SParen(e) => [LParen] + Yield(e) + [RParen]
    case SNeg(e) => [Minus] + Yield(e)
    case SBin(op, l, r) => Yield(l) + [OpSign(op)] + Yield(r)
  }

  /** The tree a derivation stands for. */
  function Tree(s: Syn): Node {
    match s
    case SNum(n) => Num(n)
    case SIdent(name) => IdentNode(name)
    case SParen(e) => Tree(e)
    case SNeg(e) => Neg(Tree(e))
    case SBin(op, l, r) => Bin(op, Tree(l), Tree(r))
  }

  function Greater(a: nat, b: nat): nat {
    if a < b then b else a
  }

  /** How deep the parser nests on it: right operands, negations and parentheses nest, left operands do not. */
  function Nesting(s: Syn): nat {
    match s
    case SNum(_) => 0
    case SIdent(_) => 0
    case SParen(e) => 1 + Nesting(e)
    case SNeg(e) => 1 + Nesting(e)
    case SBin(_, l, r) => Greater(Nesting(l), 1 + Nesting(r))
  }

  // ---- The parser reads back every derivation ----

  /** The level of the sentences `expr(minBp)` reads. */
  function MinLevel(minBp: nat): nat {
    if minBp <= 1 then 0 else if minBp <= 3 then 1 else 2
  }

  function RightBp(op: Op): nat {
    Infix(OpSign(op)).value.2
  }

  /** The loosest binding power at which the parser is still inside `s` when it reaches its end. */
  function TailBp(s: Syn): nat {
    match s
    case SNeg(e) => if TailBp(e) < 5 then TailBp(e) else 5
    case SBin(op, _, r) => if TailBp(r) < RightBp(op) then TailBp(r) else RightBp(op)
    case _ => 8
  }

  /** The left binding power of the operator at `pos`, or zero when there is none. */
  function HeadBp(ts: seq<Token>, pos: nat): nat {
    if pos < |ts| && Infix(ts[pos]).Some? then Infix(ts[pos]).value.1 else 0
  }

  predicate At(ts: seq<Token>, pos: nat, part: seq<Token>) {
    pos + |part| <= |ts| && ts[pos..pos + |part|] == part
  }

  lemma AtSplit(ts: seq<Token>, pos: nat, a: seq<Token>, b: seq<Token>)
    requires At(ts, pos, a + b)
    ensures At(ts, pos, a) && At(ts, pos + |a|, b)
  {
    assert a == (a + b)[..|a|] && b == (a + b)[|a|..];
  }

  lemma AtOne(ts: seq<Token>, pos: nat, t: Token)
    requires At(ts, pos, [t])
    ensures pos < |ts| && ts[pos] == t
  {
    assert ts[pos] == ts[pos..pos + 1][0];
  }

  /** A derivation's tail binds tighter than any operator that may follow it at a level. */
  lemma {:induction false} TailBindsTight(s: Syn)
    requires Derives(s)
    ensures TailBp(s) >= 2
    ensures Level(s) >= 1 ==> TailBp(s) >= 4
    ensures Level(s) >= 4 ==> TailBp(s) == 8
    ensures Level(s) < 4 ==> TailBp(s) <= 6
  {
    match s
    case SNeg(e) => TailBindsTight(e);
    case SBin(op, _, r) => TailBindsTight(r);
    case _ =>
  }

  /** Reading a derivation at its level leaves the parser's loop holding its tree, provided no operator that follows
      binds into its tail. */
  lemma {:induction false} ReadsDerivation(s: Syn, ts: seq<Token>, pos: nat, minBp: nat, depth: nat, max: nat)
    requires Derives(s) && Level(s) >= MinLevel(minBp) && minBp <= 7
    requires At(ts, pos, Yield(s)) && HeadBp(ts, pos + |Yield(s)|) < TailBp(s)
    requires depth + Nesting(s) <= max
    ensures ParsedExpr(ts, pos, minBp, depth, max) == ParsedLoop(ts, pos + |Yield(s)|, Tree(s), minBp, depth, max)
    decreases s, 2
  {
    hide ParsedExpr, ParsedLoop, At, TailBp, HeadBp, MinLevel;
    match s
    case SNum(_) => ReadsLeaf(s, ts, pos, minBp, depth, max);
    case SIdent(_) => ReadsLeaf(s, ts, pos, minBp, depth, max);
    case SParen(e) => ReadsParen(e, ts, pos, minBp, depth, max);
    case SNeg(e) => ReadsNeg(e, ts, pos, minBp, depth, max);
    case SBin(op, l, r) => ReadsBin(op, l, r, ts, pos, minBp, depth, max);
  }

  lemma ReadsLeaf(s: Syn, ts: seq<Token>, pos: nat, minBp: nat, depth: nat, max: nat)
    requires (s.SNum? || s.SIdent?) && At(ts, pos, Yield(s)) && depth <= max
    ensures ParsedExpr(ts, pos, minBp, depth, max) == ParsedLoop(ts, pos + |Yield(s)|, Tree(s), minBp, depth, max)
  {
    hide At, ParsedLoop;
    AtOne(ts, pos, Yield(s)[0]);
  }

  lemma {:induction false} ReadsParen(e: Syn, ts: seq<Token>, pos: nat, minBp: nat, depth: nat, max: nat)
    requires Derives(e) && minBp <= 7
    requires At(ts, pos, Yield(SParen(e))) && depth + 1 + Nesting(e) <= max
    ensures ParsedExpr(ts, pos, minBp, depth, max) == ParsedLoop(ts, pos + |Yield(e)| + 2, Tree(e), minBp, depth, max)
    decreases e, 3
  {
    hide Yield, At, Derives, TailBp, Level;
    ParenTokens(e, ts, pos);
    TailBindsTight(e);
    ReadsDerivation(e, ts, pos + 1, 0, depth + 1, max);
  }

  lemma ParenTokens(e: Syn, ts: seq<Token>, pos: nat)
    requires At(ts, pos, Yield(SParen(e)))
    ensures pos + |Yield(e)| + 2 <= |ts| && ts[pos] == LParen && ts[pos + 1 + |Yield(e)|] == RParen
    ensures At(ts, pos + 1, Yield(e))
  {
    hide At, Yield;
    YieldParen(e);
    AtAround(ts, pos, LParen, Yield(e), RParen);
  }

  lemma YieldParen(e: Syn)
    ensures Yield(SParen(e)) == [LParen] + Yield(e) + [RParen]
  {
  }

  lemma AtAround(ts: seq<Token>, pos: nat, first: Token, mid: seq<Token>, last: Token)
    requires At(ts, pos, [first] + mid + [last])
    ensures pos + |mid| + 2 <= |ts| && ts[pos] == first && ts[pos + 1 + |mid|] == last && At(ts, pos + 1, mid)
  {
    hide At;
    AtSplit(ts, pos, [first] + mid, [last]);
    AtSplit(ts, pos, [first], mid);
    AtOne(ts, pos, first);
    AtOne(ts, pos + 1 + |mid|, last);
  }

  lemma {:induction false} ReadsNeg(e: Syn, ts: seq<Token>, pos: nat, minBp: nat, depth: nat, max: nat)
    requires Derives(SNeg(e)) && minBp <= 7
    requires At(ts, pos, Yield(SNeg(e))) && HeadBp(ts, pos + |Yield(SNeg(e))|) < TailBp(SNeg(e))
    requires depth + 1 + Nesting(e) <= max
    ensures ParsedExpr(ts, pos, minBp, depth, max)
      == ParsedLoop(ts, pos + 1 + |Yield(e)|, Neg(Tree(e)), minBp, depth, max)
    decreases e, 3
  {
    hide At, ParsedExpr, ParsedLoop;
    assert Yield(SNeg(e)) == [Minus] + Yield(e);
    AtSplit(ts, pos, [Minus], Yield(e));
    AtOne(ts, pos, Minus);
    ReadsDerivation(e, ts, pos + 1, 5, depth + 1, max);
    var end := pos + 1 + |Yield(e)|;
    LoopStops(ts, end, Tree(e), 5, depth + 1, max);
    MinusReads(ts, pos, minBp, depth, max, Tree(e), end);
  }

  /** What the parser makes of a minus and the operand it reads after it. */
  lemma MinusReads(ts: seq<Token>, pos: nat, minBp: nat, depth: nat, max: nat, operand: Node, end: nat)
    requires pos < |ts| && ts[pos] == Minus && depth <= max
    requires ParsedExpr(ts, pos + 1, 5, depth + 1, max) == Ok((operand, end))
    ensures end <= |ts|
    ensures ParsedExpr(ts, pos, minBp, depth, max) == ParsedLoop(ts, end, Neg(operand), minBp, depth, max)
  {
  }

  lemma {:induction false} ReadsBin(op: Op, l: Syn, r: Syn, ts: seq<Token>, pos: nat, minBp: nat, depth: nat, max: nat)
    requires var s := SBin(op, l, r);
      && Derives(s) && Level(s) >= MinLevel(minBp) && minBp <= 7
      && At(ts, pos, Yield(s)) && HeadBp(ts, pos + |Yield(s)|) < TailBp(s)
      && depth + Nesting(s) <= max
    ensures var s := SBin(op, l, r);
      ParsedExpr(ts, pos, minBp, depth, max) == ParsedLoop(ts, pos + |Yield(s)|, Tree(s), minBp, depth, max)
    decreases SBin(op, l, r), 1
  {
    hide Yield, At, ParsedExpr, ParsedLoop, Derives, TailBp, MinLevel, Infix;
    BinTokens(op, l, r, ts, pos);
    BinFits(op, l, r, minBp);
    var mid, end := pos + |Yield(l)|, pos + |Yield(l)| + 1 + |Yield(r)|;
    OpHead(ts, mid, op);
    ReadsDerivation(l, ts, pos, minBp, depth, max);
    ReadsDerivation(r, ts, mid + 1, RightBp(op), depth + 1, max);
    LoopStops(ts, end, Tree(r), RightBp(op), depth + 1, max);
    LoopTurns(ts, mid, Tree(l), minBp, depth, max, op, Tree(r), end);
  }

  lemma OpHead(ts: seq<Token>, pos: nat, op: Op)
    requires pos < |ts| && ts[pos] == OpSign(op)
    ensures HeadBp(ts, pos) == Infix(OpSign(op)).value.1
  {
  }

  /** The parser's loop stops where no operator binds tightly enough. */
  lemma LoopStops(ts: seq<Token>, pos: nat, lhs: Node, minBp: nat, depth: nat, max: nat)
    requires pos <= |ts| && HeadBp(ts, pos) < minBp
    ensures ParsedLoop(ts, pos, lhs, minBp, depth, max) == Ok((lhs, pos))
  {
  }

  /** One turn of the parser's loop. */
  lemma LoopTurns(ts: seq<Token>, pos: nat, lhs: Node, minBp: nat, depth: nat, max: nat, op: Op, rhs: Node, p: nat)
    requires pos < |ts| && ts[pos] == OpSign(op) && minBp <= Infix(OpSign(op)).value.1
    requires ParsedExpr(ts, pos + 1, RightBp(op), depth + 1, max) == Ok((rhs, p))
    ensures p <= |ts|
    ensures ParsedLoop(ts, pos, lhs, minBp, depth, max) == ParsedLoop(ts, p, Bin(op, lhs, rhs), minBp, depth, max)
  {
  }

  /** The binding powers put each operand at its level and stop it where the grammar does. */
  lemma BinFits(op: Op, l: Syn, r: Syn, minBp: nat)
    requires Derives(SBin(op, l, r)) && OpLevel(op) >= MinLevel(minBp) && minBp <= 7
    ensures Level(l) >= MinLevel(minBp) && Level(r) >= MinLevel(RightBp(op)) && Derives(l) && Derives(r)
    ensures minBp <= Infix(OpSign(op)).value.1 < TailBp(l) && RightBp(op) <= 7
    ensures TailBp(SBin(op, l, r)) <= TailBp(r) && TailBp(SBin(op, l, r)) <= RightBp(op)
  {
    TailBindsTight(l);
  }

  lemma BinTokens(op: Op, l: Syn, r: Syn, ts: seq<Token>, pos: nat)
    requires At(ts, pos, Yield(SBin(op, l, r)))
    ensures |Yield(SBin(op, l, r))| == |Yield(l)| + 1 + |Yield(r)|
    ensures pos + |Yield(l)| + 1 + |Yield(r)| <= |ts| && ts[pos + |Yield(l)|] == OpSign(op)
    ensures At(ts, pos, Yield(l)) && At(ts, pos + |Yield(l)| + 1, Yield(r))
  {
    hide At;
    var yl, yr := Yield(l), Yield(r);
    assert Yield(SBin(op, l, r)) == yl + [OpSign(op)] + yr;
    AtSplit(ts, pos, yl + [OpSign(op)], yr);
    AtSplit(ts, pos, yl, [OpSign(op)]);
    AtOne(ts, pos + |yl|, OpSign(op));
  }

  /** Every sentence of the grammar within the caps parses to its derivation's tree. */
  lemma SentenceParses(s: Syn)
    requires Derives(s) && |Yield(s)| <= MAX_TOKENS && Nesting(s) <= MAX_DEPTH
    ensures ParsedTokens(Yield(s)) == Ok(Tree(s))
  {
    TailBindsTight(s);
    ReadsDerivation(s, Yield(s), 0, 0, 0, MAX_DEPTH);
  }

  /** The grammar is unambiguous: one sentence has one tree, whatever its length or nesting. */
  lemma SentenceHasOneTree(a: Syn, b: Syn)
    requires Derives(a) && Derives(b) && Yield(a) == Yield(b)
    ensures Tree(a) == Tree(b)
  {
    var ts, max := Yield(a), Greater(Nesting(a), Nesting(b));
    TailBindsTight(a);
    TailBindsTight(b);
    ReadsDerivation(a, ts, 0, 0, 0, max);
    ReadsDerivation(b, ts, 0, 0, 0, max);
  }

  // ---- Everything the parser accepts is a sentence ----

  lemma PartsJoin(ts: seq<Token>, a: nat, b: nat, c: nat)
    requires a <= b <= c <= |ts|
    ensures ts[a..b] + ts[b..c] == ts[a..c]
  {
  }

  lemma {:induction false} ExprDerives(ts: seq<Token>, pos: nat, minBp: nat, depth: nat, max: nat) returns (s: Syn)
    requires pos <= |ts| && minBp <= 6
    requires ParsedExpr(ts, pos, minBp, depth, max).Ok?
    ensures var (node, p) := ParsedExpr(ts, pos, minBp, depth, max).value;
      && Derives(s) && Level(s) >= MinLevel(minBp) && Tree(s) == node && Yield(s) == ts[pos..p]
      && depth + Nesting(s) <= max
      && HeadBp(ts, p) <= minBp && HeadBp(ts, p) < TailBp(s)
      && (HeadBp(ts, p) > 0 ==> HeadBp(ts, p) < minBp)
    decreases |ts| - pos, 1
  {
    var (lhs, p) := ParsedPrefix(ts, pos, depth, max).value;
    var l := PrefixDerives(ts, pos, depth, max);
    s := LoopDerives(ts, pos, p, l, minBp, depth, max);
  }

  lemma {:induction false} LoopDerives(ts: seq<Token>, start: nat, pos: nat, l: Syn, minBp: nat, depth: nat, max: nat)
    returns (s: Syn)
    requires start <= pos <= |ts| && minBp <= 6
    requires ParsedLoop(ts, pos, Tree(l), minBp, depth, max).Ok?
    requires Derives(l) && Level(l) >= MinLevel(minBp) && Yield(l) == ts[start..pos]
    requires depth + Nesting(l) <= max && HeadBp(ts, pos) < TailBp(l)
    ensures var (node, p) := ParsedLoop(ts, pos, Tree(l), minBp, depth, max).value;
      && Derives(s) && Level(s) >= MinLevel(minBp) && Tree(s) == node && Yield(s) == ts[start..p]
      && depth + Nesting(s) <= max
      && HeadBp(ts, p) < TailBp(s)
      && (HeadBp(ts, p) > 0 ==> HeadBp(ts, p) < minBp)
    decreases |ts| - pos, 0
  {
    if pos < |ts| && Infix(ts[pos]).Some? && Infix(ts[pos]).value.1 >= minBp {
      var (op, lBp, rBp) := Infix(ts[pos]).value;
      var (rhs, p) := ParsedExpr(ts, pos + 1, rBp, depth + 1, max).value;
      var r := ExprDerives(ts, pos + 1, rBp, depth + 1, max);
      var next := SBin(op, l, r);
      NextDerives(op, l, r, minBp);
      JoinedYield(op, l, r, ts, start, pos, p);
      s := LoopDerives(ts, start, p, next, minBp, depth, max);
    } else {
      s := l;
    }
  }

  /** An operator that the parser accepts after `l` finds its operands at their levels. */
  lemma NextDerives(op: Op, l: Syn, r: Syn, minBp: nat)
    requires Derives(l) && Derives(r) && Infix(OpSign(op)).value.1 < TailBp(l) && Level(r) >= MinLevel(RightBp(op))
    requires minBp <= 6 && minBp <= Infix(OpSign(op)).value.1
    ensures Derives(SBin(op, l, r)) && Level(SBin(op, l, r)) >= MinLevel(minBp)
  {
    TailBindsTight(l);
  }

  lemma JoinedYield(op: Op, l: Syn, r: Syn, ts: seq<Token>, start: nat, pos: nat, p: nat)
    requires start <= pos < p <= |ts| && ts[pos] == OpSign(op)
    requires Yield(l) == ts[start..pos] && Yield(r) == ts[pos + 1..p]
    ensures Yield(SBin(op, l, r)) == ts[start..p]
  {
    assert ts[pos..pos + 1] == [OpSign(op)];
    PartsJoin(ts, start, pos, pos + 1);
    PartsJoin(ts, start, pos + 1, p);
  }

  lemma JoinedParen(e: Syn, ts: seq<Token>, pos: nat, p: nat)
    requires pos + 1 <= p < |ts| && ts[pos] == LParen && ts[p] == RParen && Yield(e) == ts[pos + 1..p]
    ensures Yield(SParen(e)) == ts[pos..p + 1]
  {
    assert ts[pos..pos + 1] == [LParen] && ts[p..p + 1] == [RParen];
    PartsJoin(ts, pos, pos + 1, p);
    PartsJoin(ts, pos, p, p + 1);
  }

  lemma {:induction false} PrefixDerives(ts: seq<Token>, pos: nat, depth: nat, max: nat) returns (s: Syn)
    requires pos <= |ts| && depth <= max
    requires ParsedPrefix(ts, pos, depth, max).Ok?
    ensures var (node, p) := ParsedPrefix(ts, pos, depth, max).value;
      && Derives(s) && Level(s) >= 2 && Tree(s) == node && Yield(s) == ts[pos..p]
      && depth + Nesting(s) <= max && HeadBp(ts, p) < TailBp(s)
    decreases |ts| - pos, 0
  {
    match ts[pos]
    case Minus =>
      var (_, p) := ParsedExpr(ts, pos + 1, 5, depth + 1, max).value;
      var e := ExprDerives(ts, pos + 1, 5, depth + 1, max);
      PartsJoin(ts, pos, pos + 1, p);
      assert ts[pos..pos + 1] == [Minus];
      s := SNeg(e);
    case NumTok(n) => s := SNum(n);
    case Ident(name) => s := SIdent(name);
    case LParen =>
      var (_, p) := ParsedExpr(ts, pos + 1, 0, depth + 1, max).value;
      var e := ExprDerives(ts, pos + 1, 0, depth + 1, max);
      JoinedParen(e, ts, pos, p);
      s := SParen(e);
  }

  /** The parser accepts a token list with a tree exactly when the grammar derives it with that tree, within the token
      and nesting caps. */
  lemma AcceptsExactly(ts: seq<Token>, node: Node)
    ensures ParsedTokens(ts) == Ok(node)
      <==> |ts| <= 1024 && exists s :: Derives(s) && Yield(s) == ts && Tree(s) == node && Nesting(s) <= 64
  {
    if ParsedTokens(ts) == Ok(node) {
      var s := ExprDerives(ts, 0, 0, 0, MAX_DEPTH);
      assert ts[0..|ts|] == ts;
    }
    if s :| |ts| <= MAX_TOKENS && Derives(s) && Yield(s) == ts && Tree(s) == node && Nesting(s) <= MAX_DEPTH {
      SentenceParses(s);
    }
  }
}
