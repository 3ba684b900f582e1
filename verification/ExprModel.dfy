/** The expression language: lexer, Pratt parser and evaluator. */
module ExprModel {
  import opened Wrappers
  import opened Records

  const MAX_TOKENS: nat := 1024
  const MAX_DEPTH: nat := 64

  datatype Op = Add | Sub | Mul | Div | Rem | Pow

  datatype Node = Num(n: real) | Value | Field(name: string) | Neg(e: Node) | Bin(op: Op, l: Node, r: Node)

  datatype Token =
    | NumTok(n: real)
    | Ident(name: string)
    | Plus
    | Minus
    | Star
    | Slash
    | Percent
    | Caret
    | LParen
    | RParen

  datatype ParseError =
    UnexpectedChar(c: char) | EmptyExpr | TooLong | TooDeep | ExpectedRParen | UnexpectedToken | Trailing

  type ParseResult<+T> = Result<T, ParseError>

  // ---- Characters ----

  predicate IsSpace(c: char) {
    c == ' ' || c == '\t' || c == '\n' || c == '\r' || c == 12 as char
  }

  predicate IsDigit(c: char) {
    '0' <= c <= '9'
  }

  predicate IsIdentStart(c: char) {
    'a' <= c <= 'z' || 'A' <= c <= 'Z' || c == '_'
  }

  predicate IsIdentPart(c: char) {
    IsIdentStart(c) || IsDigit(c) || c == '.'
  }

  function OpToken(c: char): Option<Token> {
    match c
    case '+' => Some(Plus)
    case '-' => Some(Minus)
    case '*' => Some(Star)
    case '/' => Some(Slash)
    case '%' => Some(Percent)
    case '^' => Some(Caret)
    case '(' => Some(LParen)
    case ')' => Some(RParen)
    case _ => None
  }

  /** How many leading characters are digits. */
  function Digits(s: string): (n: nat)
    ensures n <= |s|
  {
    if s == "" || !IsDigit(s[0]) then 0 else 1 + Digits(s[1..])
  }

  /** The length of the number `s` starts with: digits, then perhaps a point and more digits. */
  function NumberLength(s: string): (n: nat)
    ensures Digits(s) <= n <= |s|
  {
    var whole := Digits(s);
    if whole < |s| && s[whole] == '.' then whole + 1 + Digits(s[whole + 1..]) else whole
  }

  function IdentLength(s: string): (n: nat)
    ensures n <= |s|
  {
    if s == "" || !IsIdentPart(s[0]) then 0 else 1 + IdentLength(s[1..])
  }

  function WholeValue(s: string): nat
    requires forall i :: 0 <= i < |s| ==> IsDigit(s[i])
  {
    if s == "" then 0
    else
      assert IsDigit(s[|s| - 1]);
      10 * WholeValue(s[..|s| - 1]) + (s[|s| - 1] as nat - '0' as nat)
  }

  function PowerOfTen(n: nat): (p: real)
    ensures p > 0.0
  {
    if n == 0 then 1.0 else 10.0 * PowerOfTen(n - 1)
  }

  lemma {:induction false} DigitsAreDigits(s: string)
    ensures forall i :: 0 <= i < Digits(s) ==> IsDigit(s[i])
    ensures Digits(s) < |s| ==> !IsDigit(s[Digits(s)])
  {
    if s != "" && IsDigit(s[0]) {
      DigitsAreDigits(s[1..]);
      assert forall i :: 1 <= i < |s| ==> s[i] == s[1..][i - 1];
    }
  }

  /** The exact number a numeral denotes. */
  function NumberValue(s: string): real {
    DigitsAreDigits(s);
    var whole := Digits(s);
    var frac := if whole < |s| && s[whole] == '.' then s[whole + 1..] else "";
    DigitsAreDigits(frac);
    var places := Digits(frac);
    WholeValue(s[..whole]) as real + WholeValue(frac[..places]) as real / PowerOfTen(places)
  }

  // ---- The lexer ----

  function Lexed(s: string): ParseResult<seq<Token>>
    decreases |s|
  {
    if s == "" then Ok([])
    else
      var c := s[0];
      if IsSpace(c) then Lexed(s[1..])
      else if OpToken(c).Some? then
        var rest :- Lexed(s[1..]);
        Ok([OpToken(c).value] + rest)
      else if IsDigit(c) then
        var n := NumberLength(s);
        var rest :- Lexed(s[n..]);
        Ok([NumTok(NumberValue(s[..n]))] + rest)
      else if IsIdentStart(c) then
        var n := IdentLength(s);
        var rest :- Lexed(s[n..]);
        Ok([Ident(s[..n])] + rest)
      else Err(UnexpectedChar(c))
  }

  /** The tokens of the whole, given those already read and the outcome for the rest. */
  function Prepend(tokens: seq<Token>, rest: ParseResult<seq<Token>>): ParseResult<seq<Token>> {
    if rest.Ok? then Ok(tokens + rest.value) else rest
  }

  lemma PrependNone(rest: ParseResult<seq<Token>>)
    ensures Prepend([], rest) == rest
  {
    if rest.Ok? { assert [] + rest.value == rest.value; }
  }

  lemma PrependOne(tokens: seq<Token>, t: Token, rest: ParseResult<seq<Token>>)
    ensures Prepend(tokens + [t], rest) == Prepend(tokens, Prepend([t], rest))
  {
    if rest.Ok? { assert tokens + [t] + rest.value == tokens + ([t] + rest.value); }
  }

  method ScanDigits(s: string, from: nat) returns (i: nat)
    requires from <= |s|
    ensures i == from + Digits(s[from..])
  {
    i := from;
    while i < |s| && IsDigit(s[i])
      invariant from <= i <= |s|
      invariant from + Digits(s[from..]) == i + Digits(s[i..])
    {
      assert s[i..][1..] == s[i + 1..];
      i := i + 1;
    }
  }

  method ScanNumber(s: string, from: nat) returns (i: nat)
    requires from <= |s|
    ensures i == from + NumberLength(s[from..])
  {
    i := ScanDigits(s, from);
    if i < |s| && s[i] == '.' {
      assert s[from..][i - from + 1..] == s[i + 1..];
      i := ScanDigits(s, i + 1);
    }
  }

  method ScanIdent(s: string, from: nat) returns (i: nat)
    requires from <= |s|
    ensures i == from + IdentLength(s[from..])
  {
    i := from;
    while i < |s| && IsIdentPart(s[i])
      invariant from <= i <= |s|
      invariant from + IdentLength(s[from..]) == i + IdentLength(s[i..])
    {
      assert s[i..][1..] == s[i + 1..];
      i := i + 1;
    }
  }

  /** What is left of the input after its first `n` characters. */
  lemma Suffix(s: string, from: nat, n: nat)
    requires from + n <= |s|
    ensures s[from..][..n] == s[from..from + n] && s[from..][n..] == s[from + n..]
  {
  }

  lemma LengthsPositive(s: string)
    requires s != ""
    ensures IsDigit(s[0]) ==> NumberLength(s) > 0
    ensures IsIdentStart(s[0]) ==> IdentLength(s) > 0
  {
  }

  /** What the first token of a text is, how much of it that takes, and what is left to lex. */
  lemma LexedFirst(s: string)
    requires s != ""
    ensures IsSpace(s[0]) ==> Lexed(s) == Lexed(s[1..])
    ensures !IsSpace(s[0]) && OpToken(s[0]).Some? ==> Lexed(s) == Prepend([OpToken(s[0]).value], Lexed(s[1..]))
    ensures !IsSpace(s[0]) && OpToken(s[0]).None? && IsDigit(s[0]) ==>
      var n := NumberLength(s); n > 0 && Lexed(s) == Prepend([NumTok(NumberValue(s[..n]))], Lexed(s[n..]))
    ensures !IsSpace(s[0]) && OpToken(s[0]).None? && !IsDigit(s[0]) && IsIdentStart(s[0]) ==>
      var n := IdentLength(s); n > 0 && Lexed(s) == Prepend([Ident(s[..n])], Lexed(s[n..]))
    ensures !IsSpace(s[0]) && OpToken(s[0]).None? && !IsDigit(s[0]) && !IsIdentStart(s[0]) ==>
      Lexed(s) == Err(UnexpectedChar(s[0]))
  {
    hide NumberValue, NumberLength, IdentLength, IsSpace, IsDigit, IsIdentStart, OpToken;
    LengthsPositive(s);
  }

  method Lex(input: string) returns (r: ParseResult<seq<Token>>)
    ensures r == Lexed(input)
  {
    hide NumberValue, NumberLength, IdentLength, Prepend, IsSpace, IsDigit, IsIdentStart, OpToken, Lexed;
    var tokens := [];
    var i := 0;
    assert input[0..] == input;
    PrependNone(Lexed(input));
    while i < |input|
      invariant i <= |input|
      invariant Lexed(input) == Prepend(tokens, Lexed(input[i..]))
    {
      var c := input[i];
      LexedFirst(input[i..]);
      var token: Token;
      var next: nat;
      if IsSpace(c) {
        Suffix(input, i, 1);
        i := i + 1;
        continue;
      } else if OpToken(c).Some? {
        token, next := OpToken(c).value, i + 1;
      } else if IsDigit(c) {
        next := ScanNumber(input, i);
        token := NumTok(NumberValue(input[i..next]));
      } else if IsIdentStart(c) {
        next := ScanIdent(input, i);
        token := Ident(input[i..next]);
      } else {
        BadChar(tokens, c);
        return Err(UnexpectedChar(c));
      }
      Suffix(input, i, next - i);
      PrependOne(tokens, token, Lexed(input[next..]));
      tokens := tokens + [token];
      i := next;
    }
    AllRead(tokens, input[i..]);
    r := Ok(tokens);
  }

  lemma BadChar(tokens: seq<Token>, c: char)
    ensures Prepend(tokens, Err(UnexpectedChar(c))) == Err(UnexpectedChar(c))
  {
  }

  lemma AllRead(tokens: seq<Token>, s: string)
    requires s == ""
    ensures Prepend(tokens, Lexed(s)) == Ok(tokens)
  {
    assert tokens + [] == tokens;
  }

  // ---- The parser ----

  /** A binary operator with its left and right binding powers. */
  function Infix(t: Token): Option<(Op, nat, nat)> {
    match t
    case Plus => Some((Add, 1, 2))
    case Minus => Some((Sub, 1, 2))
    case Star => Some((Mul, 3, 4))
    case Slash => Some((Div, 3, 4))
    case Percent => Some((Rem, 3, 4))
    case Caret => Some((Pow, 7, 6))
    case _ => None
  }

  function IdentNode(name: string): Node {
    if name == "value" then Value else Field(name)
  }

  /** What parsing from `pos` yields and where it stops, with nesting capped at `max`. */
  function ParsedExpr(ts: seq<Token>, pos: nat, minBp: nat, depth: nat, max: nat): (r: ParseResult<(Node, nat)>)
    requires pos <= |ts|
    ensures r.Ok? ==> pos < r.value.1 <= |ts|
    decreases |ts| - pos, 1
  {
    if depth > max then Err(TooDeep)
    else
      var (lhs, p) :- ParsedPrefix(ts, pos, depth, max);
      ParsedLoop(ts, p, lhs, minBp, depth, max)
  }

  function ParsedLoop(ts: seq<Token>, pos: nat, lhs: Node, minBp: nat, depth: nat, max: nat)
    : (r: ParseResult<(Node, nat)>)
    requires pos <= |ts|
    ensures r.Ok? ==> pos <= r.value.1 <= |ts|
    decreases |ts| - pos, 0
  {
    if pos < |ts| && Infix(ts[pos]).Some? && Infix(ts[pos]).value.1 >= minBp then
      var (op, _, rBp) := Infix(ts[pos]).value;
      var (rhs, p) :- ParsedExpr(ts, pos + 1, rBp, depth + 1, max);
      ParsedLoop(ts, p, Bin(op, lhs, rhs), minBp, depth, max)
    else Ok((lhs, pos))
  }

  function ParsedPrefix(ts: seq<Token>, pos: nat, depth: nat, max: nat): (r: ParseResult<(Node, nat)>)
    requires pos <= |ts|
    ensures r.Ok? ==> pos < r.value.1 <= |ts|
    decreases |ts| - pos, 0
  {
    if pos == |ts| then Err(UnexpectedToken)
    else
      match ts[pos]
      case Minus =>
        var (e, p) :- ParsedExpr(ts, pos + 1, 5, depth + 1, max);
        Ok((Neg(e), p))
      case NumTok(n) => Ok((Num(n), pos + 1))
      case Ident(name) => Ok((IdentNode(name), pos + 1))
      case LParen =>
        var (e, p) :- ParsedExpr(ts, pos + 1, 0, depth + 1, max);
        if p < |ts| && ts[p] == RParen then Ok((e, p + 1)) else Err(ExpectedRParen)
      case _ => Err(UnexpectedToken)
  }

  class Parser {
    const tokens: seq<Token>
    var pos: nat

    constructor (tokens: seq<Token>)
      ensures this.tokens == tokens && pos == 0
    {
      this.tokens, pos := tokens, 0;
    }

    method Peek() returns (t: Option<Token>)
      ensures t == if pos < |tokens| then Some(tokens[pos]) else None
    {
      t := if pos < |tokens| then Some(tokens[pos]) else None;
    }

    method Next() returns (t: Option<Token>)
      modifies this
      ensures t == if old(pos) < |tokens| then Some(tokens[old(pos)]) else None
      ensures pos == old(pos) + 1
    {
      t := Peek();
      pos := pos + 1;
    }

    method Expr(minBp: nat, depth: nat) returns (r: ParseResult<Node>)
      requires pos <= |tokens|
      modifies this
      ensures var spec := ParsedExpr(tokens, old(pos), minBp, depth, MAX_DEPTH);
        if spec.Ok? then r == Ok(spec.value.0) && pos == spec.value.1 else r == Err(spec.error)
      decreases |tokens| - pos, 1
    {
      if depth > MAX_DEPTH {
        return Err(TooDeep);
      }
      ghost var start := pos;
      var first := Prefix(depth);
      if first.Err? {
        return Err(first.error);
      }
      var lhs := first.value;
      while true
        invariant start < pos <= |tokens|
        invariant ParsedExpr(tokens, start, minBp, depth, MAX_DEPTH)
          == ParsedLoop(tokens, pos, lhs, minBp, depth, MAX_DEPTH)
        decreases |tokens| - pos
      {
        var t := Peek();
        if t.None? || Infix(t.value).None? {
          break;
        }
        var (op, lBp, rBp) := Infix(t.value).value;
        if lBp < minBp {
          break;
        }
        pos := pos + 1;
        var rhs := Expr(rBp, depth + 1);
        if rhs.Err? {
          return Err(rhs.error);
        }
        lhs := Bin(op, lhs, rhs.value);
      }
      r := Ok(lhs);
    }

    method Prefix(depth: nat) returns (r: ParseResult<Node>)
      requires pos <= |tokens|
      modifies this
      ensures var spec := ParsedPrefix(tokens, old(pos), depth, MAX_DEPTH);
        if spec.Ok? then r == Ok(spec.value.0) && pos == spec.value.1 else r == Err(spec.error)
      decreases |tokens| - pos, 0
    {
      var t := Next();
      match t {
        case Some(Minus) =>
          var e := Expr(5, depth + 1);
          r := if e.Ok? then Ok(Neg(e.value)) else e;
        case Some(NumTok(n)) =>
          r := Ok(Num(n));
        case Some(Ident(name)) =>
          r := Ok(if name == "value" then Value else Field(name));
        case Some(LParen) =>
          var inner := Expr(0, depth + 1);
          if inner.Err? {
            return inner;
          }
          var close := Next();
          r := if close == Some(RParen) then inner else Err(ExpectedRParen);
        case _ =>
          r := Err(UnexpectedToken);
      }
    }
  }

  /** What the tokens of a whole expression parse to. */
  function ParsedTokens(ts: seq<Token>): ParseResult<Node> {
    if ts == [] then Err(EmptyExpr)
    else if |ts| > MAX_TOKENS then Err(TooLong)
    else
      var (node, p) :- ParsedExpr(ts, 0, 0, 0, MAX_DEPTH);
      if p == |ts| then Ok(node) else Err(Trailing)
  }

  function Parsed(input: string): ParseResult<Node> {
    var ts :- Lexed(input);
    ParsedTokens(ts)
  }

  method Parse(input: string) returns (r: ParseResult<Node>)
    ensures r == Parsed(input)
  {
    var tokens := Lex(input);
    if tokens.Err? {
      return Err(tokens.error);
    }
    if tokens.value == [] {
      return Err(EmptyExpr);
    }
    if |tokens.value| > MAX_TOKENS {
      return Err(TooLong);
    }
    var parser := new Parser(tokens.value);
    r := parser.Expr(0, 0);
    if r.Ok? && parser.pos != |parser.tokens| {
      r := Err(Trailing);
    }
  }

  // ---- Evaluation ----

  /** Floating-point arithmetic, left abstract: how numbers enter it, combine, and leave it when finite. */
  datatype Arith<!F> = Arith(of: real -> F, neg: F -> F, bin: (Op, F, F) -> F, finite: F -> Option<real>)

  /** A lexed name as the bytes an attribute is looked up by. */
  function NameBytes(name: string): Str
    requires |name| < 0x8000_0000_0000_0000
  {
    seq(|name|, i requires 0 <= i < |name| => (name[i] as nat % 256) as byte)
  }

  function Eval<F>(ar: Arith<F>, node: Node, rec: Record): Result<F, Fault> {
    match node
    case Num(n) => Ok(ar.of(n))
    case Value => Ok(ar.of(rec.value))
    case Field(name) =>
      if |name| >= 0x8000_0000_0000_0000 then Err(Missing)
      else
        var v :- Numeric(rec, Some(NameBytes(name)));
        Ok(ar.of(v))
    case Neg(e) =>
      var v :- Eval(ar, e, rec);
      Ok(ar.neg(v))
    case Bin(op, l, r) =>
      var a :- Eval(ar, l, rec);
      var b :- Eval(ar, r, rec);
      Ok(ar.bin(op, a, b))
  }
}
