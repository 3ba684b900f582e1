/** The expression language said by its characters and its operators: what is one token, and what goes first. */
module ExprRules {
  import opened Wrappers
  import opened ExprModel
  import opened ExprGrammar

  // ---- Characters ----

  predicate LetterOrBar(c: char) {
    'a' <= c <= 'z' || 'A' <= c <= 'Z' || c == '_'
  }

  predicate Numeric(c: char) {
    '0' <= c <= '9'
  }

  /** A letter or underscore, then letters, underscores, digits and points. */
  predicate Word(s: string) {
    s != "" && LetterOrBar(s[0]) && forall i :: 1 <= i < |s| ==> LetterOrBar(s[i]) || Numeric(s[i]) || s[i] == '.'
  }

  lemma {:induction false} IdentSpans(s: string)
    requires forall i :: 0 <= i < |s| ==> LetterOrBar(s[i]) || Numeric(s[i]) || s[i] == '.'
    ensures IdentLength(s) == |s|
  {
    if s != "" { IdentSpans(s[1..]); }
  }

  lemma WordIsNoSign(c: char)
    requires LetterOrBar(c)
    ensures !IsSpace(c) && OpToken(c).None? && !IsDigit(c) && IsIdentStart(c)
  {
  }

  lemma NothingLexed()
    ensures Lexed("") == Ok([])
  {
  }

  /** A word lexes as one identifier. */
  lemma WordLexes(s: string)
    requires Word(s)
    ensures Lexed(s) == Ok([Ident(s)])
  {
    hide Lexed, IdentLength;
    IdentSpans(s);
    WordIsNoSign(s[0]);
    LexedFirst(s);
    NothingLexed();
    assert s[|s|..] == "" && s[..|s|] == s && [Ident(s)] + [] == [Ident(s)];
  }

  lemma {:induction false} DigitsSpan(s: string, rest: string)
    requires (forall i :: 0 <= i < |s| ==> Numeric(s[i])) && (rest == "" || !Numeric(rest[0]))
    ensures Digits(s + rest) == |s|
  {
    if s == "" {
      assert s + rest == rest;
    } else {
      assert (s + rest)[1..] == s[1..] + rest;
      DigitsSpan(s[1..], rest);
    }
  }

  lemma DigitIsNoSign(c: char)
    requires Numeric(c)
    ensures !IsSpace(c) && OpToken(c).None? && IsDigit(c)
  {
  }

  /** Digits, then perhaps a point and more digits, or none, lex as one number. */
  lemma NumberLexes(whole: string, point: bool, part: string)
    requires whole != "" && forall i :: 0 <= i < |whole| ==> Numeric(whole[i])
    requires (forall i :: 0 <= i < |part| ==> Numeric(part[i])) && (part != "" ==> point)
    ensures var s := whole + (if point then "." + part else ""); Lexed(s) == Ok([NumTok(NumberValue(s))])
  {
    hide Lexed, Digits, NumberValue;
    var tail := if point then "." + part else "";
    var s := whole + tail;
    DigitsSpan(whole, tail);
    DigitsSpan(part, "");
    assert part + "" == part && (point ==> s[|whole| + 1..] == part) && s[0] == whole[0];
    DigitIsNoSign(s[0]);
    LexedFirst(s);
    NothingLexed();
    assert NumberLength(s) == |s|;
    assert s[|s|..] == "" && s[..|s|] == s && [NumTok(NumberValue(s))] + [] == [NumTok(NumberValue(s))];
  }

  /** Blank, tab, line feed, form feed and carriage return are passed over, and each sign is a token. */
  lemma SignsLex(c: char, s: string)
    ensures c in " \t\n\r" || c == 12 as char ==> Lexed([c] + s) == Lexed(s)
    ensures c == '+' ==> Lexed([c] + s) == Prepend([Plus], Lexed(s))
    ensures c == '-' ==> Lexed([c] + s) == Prepend([Minus], Lexed(s))
    ensures c == '*' ==> Lexed([c] + s) == Prepend([Star], Lexed(s))
    ensures c == '/' ==> Lexed([c] + s) == Prepend([Slash], Lexed(s))
    ensures c == '%' ==> Lexed([c] + s) == Prepend([Percent], Lexed(s))
    ensures c == '^' ==> Lexed([c] + s) == Prepend([Caret], Lexed(s))
    ensures c == '(' ==> Lexed([c] + s) == Prepend([LParen], Lexed(s))
    ensures c == ')' ==> Lexed([c] + s) == Prepend([RParen], Lexed(s))
  {
    hide Lexed, Prepend, NumberLength, IdentLength, NumberValue;
    LexedFirst([c] + s);
    assert ([c] + s)[1..] == s;
  }

  /** Any other character starts no token. */
  lemma OthersFail(c: char, s: string)
    requires !LetterOrBar(c) && !Numeric(c) && c !in " \t\n\r+-*/%^()" && c != 12 as char
    ensures Lexed([c] + s) == Err(UnexpectedChar(c))
  {
    hide Lexed, Prepend, NumberLength, IdentLength, NumberValue;
    LexedFirst([c] + s);
  }

  // ---- Which operator goes first ----

  function SignTok(op: Op): Token {
    match op
    case Add => Plus
    case Sub => Minus
    case Mul => Star
    case Div => Slash
    case Rem => Percent
    case Pow => Caret
  }

  function Rank(op: Op): nat {
    match op
    case Add => 1
    case Sub => 1
    case Mul => 2
    case Div => 2
    case Rem => 2
    case Pow => 3
  }

  /** Of two operators in a row the first one goes first if it ranks higher, or as high and is not a power. */
  predicate FirstFirst(p: Op, q: Op) {
    Rank(p) > Rank(q) || (Rank(p) == Rank(q) && !p.Pow?)
  }

  lemma SignIs(op: Op)
    ensures OpSign(op) == SignTok(op)
  {
  }

  /** All that matters of a derivation to the parser. */
  predicate Reads(s: Syn, level: nat, nesting: nat, ts: seq<Token>, tree: Node) {
    Derives(s) && Level(s) == level && Nesting(s) <= nesting && Yield(s) == ts && Tree(s) == tree
  }

  lemma NumReads(a: real)
    ensures Reads(SNum(a), 4, 0, [NumTok(a)], Num(a))
  {
  }

  lemma NegReads(s: Syn, level: nat, nesting: nat, ts: seq<Token>, tree: Node)
    requires Reads(s, level, nesting, ts, tree) && level >= 2
    ensures Reads(SNeg(s), 2, nesting + 1, [Minus] + ts, Neg(tree))
  {
  }

  lemma ParenReads(s: Syn, level: nat, nesting: nat, ts: seq<Token>, tree: Node)
    requires Reads(s, level, nesting, ts, tree)
    ensures Reads(SParen(s), 4, nesting + 1, [LParen] + ts + [RParen], tree)
  {
  }

  lemma BinReads(op: Op, l: Syn, nl: nat, tl: seq<Token>, x: Node, r: Syn, nr: nat, tr: seq<Token>, y: Node)
    requires Reads(l, Level(l), nl, tl, x) && Reads(r, Level(r), nr, tr, y)
    requires Level(l) >= LeftLevel(op) && Level(r) >= RightLevel(op)
    ensures Reads(SBin(op, l, r), OpLevel(op), nl + nr + 1, tl + [SignTok(op)] + tr, Bin(op, x, y))
  {
    SignIs(op);
  }

  lemma ReadsParses(s: Syn, level: nat, nesting: nat, ts: seq<Token>, tree: Node)
    requires Reads(s, level, nesting, ts, tree) && |ts| <= 1024 && nesting <= 64
    ensures ParsedTokens(ts) == Ok(tree)
  {
    SentenceParses(s);
  }

  /** An operator between two numbers. */
  lemma PairReads(p: Op, a: real, b: real)
    ensures Reads(SBin(p, SNum(a), SNum(b)), OpLevel(p), 1, [NumTok(a), SignTok(p), NumTok(b)], Bin(p, Num(a), Num(b)))
  {
    NumReads(a);
    NumReads(b);
    BinReads(p, SNum(a), 0, [NumTok(a)], Num(a), SNum(b), 0, [NumTok(b)], Num(b));
    assert [NumTok(a)] + [SignTok(p)] + [NumTok(b)] == [NumTok(a), SignTok(p), NumTok(b)];
  }

  lemma TwoOperators(p: Op, q: Op, a: real, b: real, c: real)
    ensures ParsedTokens([NumTok(a), SignTok(p), NumTok(b), SignTok(q), NumTok(c)])
      == Ok(if FirstFirst(p, q) then Bin(q, Bin(p, Num(a), Num(b)), Num(c)) else Bin(p, Num(a), Bin(q, Num(b), Num(c))))
  {
    hide ParsedTokens, Derives, Yield, Tree, Nesting;
    var ts := [NumTok(a), SignTok(p), NumTok(b), SignTok(q), NumTok(c)];
    NumReads(a);
    NumReads(c);
    PairReads(p, a, b);
    PairReads(q, b, c);
    var ab, bc := [NumTok(a), SignTok(p), NumTok(b)], [NumTok(b), SignTok(q), NumTok(c)];
    assert ts == ab + [SignTok(q)] + [NumTok(c)] && ts == [NumTok(a)] + [SignTok(p)] + bc;
    if FirstFirst(p, q) {
      var l := SBin(p, SNum(a), SNum(b));
      BinReads(q, l, 1, ab, Bin(p, Num(a), Num(b)), SNum(c), 0, [NumTok(c)], Num(c));
      ReadsParses(SBin(q, l, SNum(c)), OpLevel(q), 2, ts, Bin(q, Bin(p, Num(a), Num(b)), Num(c)));
    } else {
      var r := SBin(q, SNum(b), SNum(c));
      BinReads(p, SNum(a), 0, [NumTok(a)], Num(a), r, 1, bc, Bin(q, Num(b), Num(c)));
      ReadsParses(SBin(p, SNum(a), r), OpLevel(p), 2, ts, Bin(p, Num(a), Bin(q, Num(b), Num(c))));
    }
  }

  /** A minus in front takes in a power, and no other operator; after an operator it is its operand's. */
  lemma MinusFirst(q: Op, a: real, b: real)
    ensures ParsedTokens([Minus, NumTok(a), SignTok(q), NumTok(b)])
      == Ok(if q.Pow? then Neg(Bin(Pow, Num(a), Num(b))) else Bin(q, Neg(Num(a)), Num(b)))
  {
    hide ParsedTokens, Derives, Yield, Tree, Nesting;
    var ts := [Minus, NumTok(a), SignTok(q), NumTok(b)];
    NumReads(a);
    NumReads(b);
    assert [Minus] + [NumTok(a)] == [Minus, NumTok(a)];
    assert ts == [Minus] + [NumTok(a), SignTok(q), NumTok(b)] && ts == [Minus, NumTok(a)] + [SignTok(q)] + [NumTok(b)];
    if q.Pow? {
      PairReads(q, a, b);
      NegReads(SBin(q, SNum(a), SNum(b)), 3, 1, [NumTok(a), SignTok(q), NumTok(b)], Bin(q, Num(a), Num(b)));
      ReadsParses(SNeg(SBin(q, SNum(a), SNum(b))), 2, 2, ts, Neg(Bin(q, Num(a), Num(b))));
    } else {
      NegReads(SNum(a), 4, 0, [NumTok(a)], Num(a));
      BinReads(q, SNeg(SNum(a)), 1, [Minus, NumTok(a)], Neg(Num(a)), SNum(b), 0, [NumTok(b)], Num(b));
      ReadsParses(SBin(q, SNeg(SNum(a)), SNum(b)), OpLevel(q), 2, ts, Bin(q, Neg(Num(a)), Num(b)));
    }
  }

  lemma MinusSecond(q: Op, a: real, b: real)
    ensures ParsedTokens([NumTok(a), SignTok(q), Minus, NumTok(b)]) == Ok(Bin(q, Num(a), Neg(Num(b))))
  {
    hide ParsedTokens, Derives, Yield, Tree, Nesting;
    var ts := [NumTok(a), SignTok(q), Minus, NumTok(b)];
    NumReads(a);
    NumReads(b);
    NegReads(SNum(b), 4, 0, [NumTok(b)], Num(b));
    assert [Minus] + [NumTok(b)] == [Minus, NumTok(b)];
    assert ts == [NumTok(a)] + [SignTok(q)] + [Minus, NumTok(b)];
    BinReads(q, SNum(a), 0, [NumTok(a)], Num(a), SNeg(SNum(b)), 1, [Minus, NumTok(b)], Neg(Num(b)));
    ReadsParses(SBin(q, SNum(a), SNeg(SNum(b))), OpLevel(q), 2, ts, Bin(q, Num(a), Neg(Num(b))));
  }

  /** Parentheses go first, and leave no trace. */
  lemma ParensFirst(p: Op, q: Op, a: real, b: real, c: real)
    ensures ParsedTokens([NumTok(a), SignTok(p), LParen, NumTok(b), SignTok(q), NumTok(c), RParen])
      == Ok(Bin(p, Num(a), Bin(q, Num(b), Num(c))))
  {
    hide ParsedTokens, Derives, Yield, Tree, Nesting;
    var bc := [NumTok(b), SignTok(q), NumTok(c)];
    var par := [LParen] + bc + [RParen];
    var ts := [NumTok(a), SignTok(p), LParen, NumTok(b), SignTok(q), NumTok(c), RParen];
    NumReads(a);
    PairReads(q, b, c);
    var r := SBin(q, SNum(b), SNum(c));
    ParenReads(r, OpLevel(q), 1, bc, Bin(q, Num(b), Num(c)));
    assert ts == [NumTok(a)] + [SignTok(p)] + par;
    BinReads(p, SNum(a), 0, [NumTok(a)], Num(a), SParen(r), 2, par, Bin(q, Num(b), Num(c)));
    ReadsParses(SBin(p, SNum(a), SParen(r)), OpLevel(p), 3, ts, Bin(p, Num(a), Bin(q, Num(b), Num(c))));
  }

  // ---- Why a text is turned away ----

  /** Nothing at all, too many tokens, something left over, a parenthesis left open, and an operator without operand. */
  lemma Rejections(ts: seq<Token>, a: real, b: real)
    ensures ParsedTokens([]) == Err(EmptyExpr)
    ensures |ts| > 1024 ==> ParsedTokens(ts) == Err(TooLong)
    ensures ParsedTokens([NumTok(a), NumTok(b)]) == Err(Trailing)
    ensures ParsedTokens([LParen, NumTok(a)]) == Err(ExpectedRParen)
    ensures ParsedTokens([Plus]) == Err(UnexpectedToken) && ParsedTokens([NumTok(a), Plus]) == Err(UnexpectedToken)
  {
    LeafAt([NumTok(a), NumTok(b)], 0, 0);
    LeftOpen(a);
    assert ParsedPrefix([Plus], 0, 0, 64) == Err(UnexpectedToken);
    DanglingPlus(a);
  }

  lemma LeftOpen(a: real)
    ensures ParsedTokens([LParen, NumTok(a)]) == Err(ExpectedRParen)
  {
    var ts := [LParen, NumTok(a)];
    LeafAt(ts, 1, 1);
    assert ParsedPrefix(ts, 0, 0, 64) == Err(ExpectedRParen);
  }

  lemma LeafAt(ts: seq<Token>, pos: nat, depth: nat)
    requires pos < |ts| && ts[pos].NumTok? && depth <= 64 && (pos + 1 < |ts| ==> Infix(ts[pos + 1]).None?)
    ensures ParsedExpr(ts, pos, 0, depth, 64) == Ok((Num(ts[pos].n), pos + 1))
  {
  }

  lemma DanglingPlus(a: real)
    ensures ParsedTokens([NumTok(a), Plus]) == Err(UnexpectedToken)
  {
    var ts := [NumTok(a), Plus];
    assert ParsedPrefix(ts, 2, 1, 64) == Err(UnexpectedToken);
    assert ParsedExpr(ts, 2, 2, 1, 64) == Err(UnexpectedToken);
    assert ParsedPrefix(ts, 0, 0, 64) == Ok((Num(a), 1));
    assert ParsedLoop(ts, 1, Num(a), 0, 0, 64) == Err(UnexpectedToken);
  }

  /** More than 64 levels of parentheses or minuses are too deep, whatever they enclose. */
  lemma {:induction false} TooDeepNesting(ts: seq<Token>, pos: nat, minBp: nat, depth: nat)
    requires pos <= |ts| && depth <= 65 && pos + (65 - depth) <= |ts|
    requires forall i :: pos <= i < pos + (65 - depth) ==> ts[i] == LParen || ts[i] == Minus
    ensures ParsedExpr(ts, pos, minBp, depth, 64) == Err(TooDeep)
    decreases 65 - depth
  {
    if depth < 65 {
      TooDeepNesting(ts, pos + 1, if ts[pos] == Minus then 5 else 0, depth + 1);
    }
  }
}
