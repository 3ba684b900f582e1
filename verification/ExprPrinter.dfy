/** A printer with the fewest parentheses, and the round trip from trees through text and back. */
module ExprPrinter {
  import opened Wrappers
  import opened ExprModel
  import opened ExprGrammar

  /** Parenthesised only where its level does not fit. */
  function Fit(s: Syn, level: nat): Syn {
    if Level(s) >= level then s else SParen(s)
  }

  function ToSyn(node: Node): Syn {
    match node
    case Num(n) => SNum(n)
    case Value => SIdent("value")
    case Field(name) => SIdent(name)
    case Neg(e) => SNeg(Fit(ToSyn(e), 2))
    case Bin(op, l, r) => SBin(op, Fit(ToSyn(l), LeftLevel(op)), Fit(ToSyn(r), RightLevel(op)))
  }

  /** No field is called like the record's own value, which the language writes `value`. */
  predicate NamesFields(node: Node) {
    match node
    case Field(name) => name != "value"
    case Neg(e) => NamesFields(e)
    case Bin(_, l, r) => NamesFields(l) && NamesFields(r)
    case _ => true
  }

  lemma {:induction false} ToSynDerives(node: Node)
    ensures Derives(ToSyn(node))
    ensures NamesFields(node) ==> Tree(ToSyn(node)) == node
  {
    match node
    case Neg(e) => ToSynDerives(e);
    case Bin(_, l, r) =>
      ToSynDerives(l);
      ToSynDerives(r);
    case _ =>
  }

  /** The printed sentence is a shortest one: every derivation of the tree is at least as long. */
  lemma {:induction false} ToSynShortest(s: Syn, level: nat)
    requires Derives(s) && Level(s) >= level && level <= 4
    ensures |Yield(Fit(ToSyn(Tree(s)), level))| <= |Yield(s)|
  {
    hide MinLevel;
    match s
    case SNum(_) =>
    case SIdent(_) =>
    case SParen(e) => ToSynShortest(e, 0);
    case SNeg(e) => ToSynShortest(e, 2);
    case SBin(op, l, r) =>
      ToSynShortest(l, LeftLevel(op));
      ToSynShortest(r, RightLevel(op));
  }

  // ---- Text ----

  predicate IsNumeral(s: string) {
    s != "" && IsDigit(s[0]) && NumberLength(s) == |s|
  }

  predicate IsName(s: string) {
    s != "" && IsIdentStart(s[0]) && IdentLength(s) == |s|
  }

  // ---- Numerals ----

  function DigitChar(d: nat): (c: char)
    requires d < 10
    ensures IsDigit(c) && c as nat - '0' as nat == d
  {
    "0123456789"[d]
  }

  /** The last `k` decimal digits of `m`, with leading zeros. */
  function LastDigits(m: nat, k: nat): (s: string)
    ensures |s| == k
  {
    if k == 0 then "" else LastDigits(m / 10, k - 1) + [DigitChar(m % 10)]
  }

  /** How many digits `m` takes. */
  function Width(m: nat): (n: nat)
    ensures n > 0
  {
    if m < 10 then 1 else 1 + Width(m / 10)
  }

  function TenTo(k: nat): (n: nat)
    ensures n > 0
  {
    if k == 0 then 1 else 10 * TenTo(k - 1)
  }

  /** `m` without its last `k` decimal digits. */
  function WithoutLast(m: nat, k: nat): nat {
    if k == 0 then m else WithoutLast(m / 10, k - 1)
  }

  /** `m` with a point before its last `k` decimal digits. */
  function DecimalText(m: nat, k: nat): string {
    var whole := WithoutLast(m, k);
    LastDigits(whole, Width(whole)) + (if k == 0 then "" else "." + LastDigits(m, k))
  }

  lemma {:induction false} LastDigitsAreDigits(m: nat, k: nat)
    ensures forall i :: 0 <= i < k ==> IsDigit(LastDigits(m, k)[i])
  {
    if k > 0 { LastDigitsAreDigits(m / 10, k - 1); }
  }

  lemma {:induction false} LastDigitsValue(m: nat, k: nat)
    ensures forall i :: 0 <= i < k ==> IsDigit(LastDigits(m, k)[i])
    ensures WholeValue(LastDigits(m, k)) + WithoutLast(m, k) * TenTo(k) == m
  {
    LastDigitsAreDigits(m, k);
    if k > 0 {
      LastDigitsValue(m / 10, k - 1);
      var s := LastDigits(m, k);
      assert s[..k - 1] == LastDigits(m / 10, k - 1);
      CarryDigit(m, WholeValue(s[..k - 1]), WithoutLast(m, k), TenTo(k - 1));
    }
  }

  lemma CarryDigit(m: nat, digits: nat, rest: nat, unit: nat)
    requires digits + rest * unit == m / 10
    ensures 10 * digits + m % 10 + rest * (10 * unit) == m
  {
    assert rest * (10 * unit) == 10 * (rest * unit);
  }

  lemma {:induction false} WidthCovers(m: nat)
    ensures WithoutLast(m, Width(m)) == 0
  {
    if m >= 10 { WidthCovers(m / 10); }
  }

  lemma {:induction false} TenToIsPower(k: nat)
    ensures TenTo(k) as real == PowerOfTen(k)
  {
    if k > 0 { TenToIsPower(k - 1); }
  }

  lemma {:induction false} DigitsBefore(s: string, rest: string)
    requires forall i :: 0 <= i < |s| ==> IsDigit(s[i])
    requires rest == "" || !IsDigit(rest[0])
    ensures Digits(s + rest) == |s|
  {
    if s == "" {
      assert s + rest == rest;
    } else {
      assert (s + rest)[1..] == s[1..] + rest;
      DigitsBefore(s[1..], rest);
    }
  }

  /** The text of a decimal is a numeral and denotes it. */
  lemma DecimalReads(m: nat, k: nat)
    ensures IsNumeral(DecimalText(m, k)) && NumberValue(DecimalText(m, k)) == m as real / PowerOfTen(k)
  {
    hide PowerOfTen, Digits, WholeValue, LastDigits, Width, TenTo, WithoutLast;
    var whole := WithoutLast(m, k);
    WidthCovers(whole);
    LastDigitsValue(whole, Width(whole));
    LastDigitsValue(m, k);
    var (w, f, s) := (LastDigits(whole, Width(whole)), LastDigits(m, k), DecimalText(m, k));
    var tail := if k == 0 then "" else "." + f;
    assert s == w + tail && s[0] == w[0];
    DigitsBefore(w, tail);
    DigitsBefore(f, "");
    assert f + "" == f;
    assert s[..|w|] == w;
    NothingToRead();
    if k > 0 { assert s[|w| + 1..] == f && f[..k] == f; }
    TenToIsPower(k);
    ShiftedSum(whole, WholeValue(f), TenTo(k), m);
  }

  lemma NothingToRead()
    ensures Digits("") == 0 && WholeValue("") == 0 && PowerOfTen(0) == 1.0 && TenTo(0) == 1
  {
  }

  lemma ShiftedSum(whole: nat, part: nat, unit: nat, m: nat)
    requires unit > 0 && m == whole * unit + part
    ensures whole as real + part as real / unit as real == m as real / unit as real
  {
    assert m as real == whole as real * unit as real + part as real;
  }

  /** A number with finitely many decimal places, and no sign. */
  ghost predicate Writable(n: real) {
    exists m: nat, k: nat :: IsDecimal(n, m, k)
  }

  predicate IsDecimal(n: real, m: nat, k: nat) {
    n == m as real / PowerOfTen(k)
  }

  /** The decimals are exactly the numbers that numerals denote. */
  lemma WritableIff(n: real)
    ensures Writable(n) <==> exists s :: IsNumeral(s) && NumberValue(s) == n
  {
    hide IsNumeral, NumberValue;
    if Writable(n) {
      var m, k :| IsDecimal(n, m, k);
      DecimalReads(m, k);
    }
    if s :| IsNumeral(s) && NumberValue(s) == n {
      NumeralIsDecimal(s);
    }
  }

  lemma NumeralIsDecimal(s: string)
    ensures Writable(NumberValue(s))
  {
    hide PowerOfTen, Digits, WholeValue;
    DigitsAreDigits(s);
    var whole := Digits(s);
    var frac := if whole < |s| && s[whole] == '.' then s[whole + 1..] else "";
    DigitsAreDigits(frac);
    var k := Digits(frac);
    var w, f := WholeValue(s[..whole]), WholeValue(frac[..k]);
    TenToIsPower(k);
    ShiftedSum(w, f, TenTo(k), w * TenTo(k) + f);
    assert IsDecimal(NumberValue(s), w * TenTo(k) + f, k);
  }

  ghost predicate LexableToken(t: Token) {
    (t.NumTok? ==> Writable(t.n)) && (t.Ident? ==> IsName(t.name))
  }

  /** A number written out in decimal. */
  ghost function Numeral(n: real): (s: string)
    requires Writable(n)
    ensures IsNumeral(s) && NumberValue(s) == n
  {
    var m, k :| IsDecimal(n, m, k);
    DecimalReads(m, k);
    DecimalText(m, k)
  }

  ghost function TokenText(t: Token): string
    requires LexableToken(t)
  {
    match t
    case NumTok(n) => Numeral(n)
    case Ident(name) => name
    case Plus => "+"
    case Minus => "-"
    case Star => "*"
    case Slash => "/"
    case Percent => "%"
    case Caret => "^"
    case LParen => "("
    case RParen => ")"
  }

  /** Tokens written out with a space after each. */
  ghost function Written(ts: seq<Token>): string
    requires forall t :: t in ts ==> LexableToken(t)
  {
    if ts == [] then "" else TokenText(ts[0]) + (" " + Written(ts[1..]))
  }

  lemma {:induction false} DigitsStop(s: string, rest: string)
    requires Digits(s) == |s|
    ensures Digits(s + (" " + rest)) == |s|
  {
    if s != "" {
      assert (s + (" " + rest))[1..] == s[1..] + (" " + rest);
      DigitsStop(s[1..], rest);
    } else {
      assert (s + (" " + rest))[0] == ' ';
    }
  }

  lemma {:induction false} DigitsWithin(s: string, rest: string)
    requires Digits(s) < |s|
    ensures Digits(s + rest) == Digits(s)
  {
    if IsDigit(s[0]) {
      assert (s + rest)[1..] == s[1..] + rest;
      DigitsWithin(s[1..], rest);
    }
  }

  lemma NumberStops(s: string, rest: string)
    requires NumberLength(s) == |s|
    ensures NumberLength(s + (" " + rest)) == |s|
  {
    var whole, full := Digits(s), s + (" " + rest);
    if whole < |s| {
      DigitsWithin(s, " " + rest);
      assert full[whole + 1..] == s[whole + 1..] + (" " + rest);
      DigitsStop(s[whole + 1..], rest);
    } else {
      DigitsStop(s, rest);
      assert full[whole] == ' ';
    }
  }

  lemma {:induction false} IdentStops(s: string, rest: string)
    requires IdentLength(s) == |s|
    ensures IdentLength(s + (" " + rest)) == |s|
  {
    if s != "" {
      assert (s + (" " + rest))[1..] == s[1..] + (" " + rest);
      IdentStops(s[1..], rest);
    } else {
      assert (s + (" " + rest))[0] == ' ';
    }
  }

  /** A token's text followed by a space is lexed as that token. */
  lemma LexOne(t: Token, rest: string)
    requires LexableToken(t)
    ensures Lexed(TokenText(t) + (" " + rest)) == Prepend([t], Lexed(rest))
  {
    hide Lexed, IsName, Writable, IsNumeral, NumberValue;
    match t
    case NumTok(n) => LexNumeral(Numeral(n), rest);
    case Ident(name) => LexName(name, rest);
    case _ => LexSign(t, rest);
  }

  /** What follows a text and a space is lexed on its own. */
  lemma AfterSpace(text: string, rest: string)
    ensures var s := text + (" " + rest);
      s[..|text|] == text && s[|text|..] == " " + rest && Lexed(" " + rest) == Lexed(rest)
  {
    assert (" " + rest)[0] == ' ' && (" " + rest)[1..] == rest;
  }

  lemma LexNumeral(text: string, rest: string)
    requires IsNumeral(text)
    ensures Lexed(text + (" " + rest)) == Prepend([NumTok(NumberValue(text))], Lexed(rest))
  {
    hide NumberValue, NumberLength, IdentLength, Digits;
    AfterSpace(text, rest);
    NumberStops(text, rest);
  }

  lemma LexName(text: string, rest: string)
    requires IsName(text)
    ensures Lexed(text + (" " + rest)) == Prepend([Ident(text)], Lexed(rest))
  {
    hide NumberValue, NumberLength, IdentLength, Digits;
    AfterSpace(text, rest);
    IdentStops(text, rest);
  }

  lemma LexSign(t: Token, rest: string)
    requires !t.NumTok? && !t.Ident?
    ensures Lexed(TokenText(t) + (" " + rest)) == Prepend([t], Lexed(rest))
  {
    hide NumberValue, NumberLength, IdentLength, Digits;
    AfterSpace(TokenText(t), rest);
    assert |TokenText(t)| == 1;
  }

  lemma {:induction false} LexWritten(ts: seq<Token>)
    requires forall t :: t in ts ==> LexableToken(t)
    ensures Lexed(Written(ts)) == Ok(ts)
  {
    hide Lexed, LexableToken;
    if ts != [] {
      LexWritten(ts[1..]);
      LexOne(ts[0], Written(ts[1..]));
      assert ts == [ts[0]] + ts[1..];
    } else {
      LexNothing();
    }
  }

  lemma LexNothing()
    ensures Lexed("") == Ok([])
  {
  }

  /** Every leaf can be written and read back. */
  ghost predicate Printable(node: Node) {
    match node
    case Num(n) => Writable(n)
    case Value => true
    case Field(name) => IsName(name) && name != "value"
    case Neg(e) => Printable(e)
    case Bin(_, l, r) => Printable(l) && Printable(r)
  }

  lemma {:induction false} PrintableLexes(node: Node)
    requires Printable(node)
    ensures NamesFields(node)
    ensures forall t :: t in Yield(ToSyn(node)) ==> LexableToken(t)
  {
    hide Writable, IsName, LexableToken;
    LeafTokens();
    match node
    case Num(_) =>
    case Value => ValueIsName();
    case Field(_) =>
    case Neg(e) =>
      PrintableLexes(e);
      FitTokens(ToSyn(e), 2);
    case Bin(op, l, r) =>
      PrintableLexes(l);
      PrintableLexes(r);
      FitTokens(ToSyn(l), LeftLevel(op));
      FitTokens(ToSyn(r), RightLevel(op));
  }

  /** Parentheses and operators are lexable, and so is a leaf that is. */
  lemma LeafTokens()
    ensures forall op :: LexableToken(OpSign(op))
    ensures LexableToken(Minus) && LexableToken(LParen) && LexableToken(RParen)
    ensures forall n :: Writable(n) ==> LexableToken(NumTok(n))
    ensures forall name :: IsName(name) ==> LexableToken(Ident(name))
  {
    hide Writable, IsName;
  }

  lemma FitTokens(s: Syn, level: nat)
    requires forall t :: t in Yield(s) ==> LexableToken(t)
    ensures forall t :: t in Yield(Fit(s, level)) ==> LexableToken(t)
  {
    hide LexableToken, Level;
    LeafTokens();
  }

  lemma ValueIsName()
    ensures IsName("value")
  {
    assert IdentLength("e") == 1;
    assert "ue"[1..] == "e" && "lue"[1..] == "ue" && "alue"[1..] == "lue" && "value"[1..] == "alue";
  }

  /** Printing then parsing returns the tree, for every printable tree whose text fits the caps. */
  lemma PrintParse(node: Node)
    requires Printable(node)
    requires |Yield(ToSyn(node))| <= MAX_TOKENS && Nesting(ToSyn(node)) <= MAX_DEPTH
    ensures forall t :: t in Yield(ToSyn(node)) ==> LexableToken(t)
    ensures Parsed(Written(Yield(ToSyn(node)))) == Ok(node)
  {
    hide Lexed, ParsedTokens, LexableToken;
    PrintableLexes(node);
    ToSynDerives(node);
    LexWritten(Yield(ToSyn(node)));
    SentenceParses(ToSyn(node));
  }

  // ---- Every accepted text can be printed back ----

  /** The printed sentence nests no deeper than any derivation of the tree. */
  lemma {:induction false} ToSynNestsLeast(s: Syn, level: nat)
    requires Derives(s) && Level(s) >= level && level <= 4
    ensures Nesting(Fit(ToSyn(Tree(s)), level)) <= Nesting(s)
  {
    match s
    case SNum(_) =>
    case SIdent(_) =>
    case SParen(e) => ToSynNestsLeast(e, 0);
    case SNeg(e) => ToSynNestsLeast(e, 2);
    case SBin(op, l, r) =>
      ToSynNestsLeast(l, LeftLevel(op));
      ToSynNestsLeast(r, RightLevel(op));
  }

  lemma {:induction false} IdentPrefix(s: string)
    ensures IdentLength(s[..IdentLength(s)]) == IdentLength(s)
  {
    if s != "" && IsIdentPart(s[0]) {
      IdentPrefix(s[1..]);
      assert s[..IdentLength(s)][1..] == s[1..][..IdentLength(s[1..])];
    }
  }

  /** `name` is read somewhere in the expression. */
  predicate Mentions(node: Node, name: string) {
    match node
    case Field(f) => f == name
    case Neg(e) => Mentions(e, name)
    case Bin(_, l, r) => Mentions(l, name) || Mentions(r, name)
    case _ => false
  }

  lemma {:induction false} MentionedIsName(node: Node, name: string)
    requires Printable(node) && Mentions(node, name)
    ensures IsName(name) && name != "value"
  {
    hide IsName, Writable;
    match node
    case Neg(e) => MentionedIsName(e, name);
    case Bin(_, l, r) => if Mentions(l, name) { MentionedIsName(l, name); } else { MentionedIsName(r, name); }
    case _ =>
  }

  /** An expression can read a field exactly when its name lexes as one identifier, and not the one for the value. */
  lemma ReadableIff(name: string)
    ensures (exists text :: Parsed(text) == Ok(Field(name))) <==> IsName(name) && name != "value"
    ensures (exists text :: Parsed(text).Ok? && Mentions(Parsed(text).value, name)) <==> IsName(name) && name != "value"
  {
    hide Parsed, IsName, Written;
    if IsName(name) && name != "value" {
      FieldTokens(name);
      PrintParse(Field(name));
      assert Parsed(Written(Yield(ToSyn(Field(name))))) == Ok(Field(name));
    }
    if text :| Parsed(text).Ok? && Mentions(Parsed(text).value, name) {
      AcceptedTextReprints(text);
      MentionedIsName(Parsed(text).value, name);
    }
    forall text | Parsed(text) == Ok(Field(name)) ensures Mentions(Parsed(text).value, name) {}
  }

  lemma FieldTokens(name: string)
    ensures |Yield(ToSyn(Field(name)))| <= MAX_TOKENS && Nesting(ToSyn(Field(name))) <= MAX_DEPTH
  {
  }

  /** A name with a dash, which a node may have, is no identifier. */
  lemma DashedIsNoName()
    ensures !IsName("cpu-a")
  {
    assert "cpu-a"[1..] == "pu-a" && "pu-a"[1..] == "u-a" && "u-a"[1..] == "-a";
    assert IdentLength("-a") == 0 && IdentLength("u-a") == 1 && IdentLength("pu-a") == 2;
  }

  lemma {:induction false} LexedAreLexable(s: string)
    requires Lexed(s).Ok?
    ensures forall t :: t in Lexed(s).value ==> LexableToken(t)
    decreases |s|
  {
    hide NumberValue, NumberLength, IdentLength, IsSpace, IsNumeral;
    if s != "" {
      LengthsPositive(s);
      if IsSpace(s[0]) || OpToken(s[0]).Some? {
        LexedAreLexable(s[1..]);
        OperatorsLex(s[0]);
      } else if IsDigit(s[0]) {
        NumeralIsDecimal(s[..NumberLength(s)]);
        LexedAreLexable(s[NumberLength(s)..]);
      } else if IsIdentStart(s[0]) {
        NamePrefix(s);
        LexedAreLexable(s[IdentLength(s)..]);
      }
    }
  }

  lemma OperatorsLex(c: char)
    ensures OpToken(c).Some? ==> LexableToken(OpToken(c).value)
  {
  }

  lemma NamePrefix(s: string)
    requires s != "" && IsIdentStart(s[0])
    ensures IsName(s[..IdentLength(s)])
  {
    LengthsPositive(s);
    IdentPrefix(s);
  }

  lemma {:induction false} LexableTreePrints(s: Syn)
    requires forall t :: t in Yield(s) ==> LexableToken(t)
    ensures Printable(Tree(s))
  {
    hide Writable, IsName;
    match s
    case SNum(n) => assert NumTok(n) in Yield(s);
    case SIdent(name) => assert Ident(name) in Yield(s);
    case SParen(e) =>
      assert forall t :: t in Yield(e) ==> t in Yield(s);
      LexableTreePrints(e);
    case SNeg(e) =>
      assert forall t :: t in Yield(e) ==> t in Yield(s);
      LexableTreePrints(e);
    case SBin(op, l, r) =>
      assert forall t :: t in Yield(l) || t in Yield(r) ==> t in Yield(s);
      LexableTreePrints(l);
      LexableTreePrints(r);
  }

  /** Any accepted text parses to a printable tree, and printing that tree and parsing again returns it: the caps that
      admitted the text admit its shortest form. */
  lemma AcceptedTextReprints(input: string)
    requires Parsed(input).Ok?
    ensures Printable(Parsed(input).value)
    ensures forall t :: t in Yield(ToSyn(Parsed(input).value)) ==> LexableToken(t)
    ensures Parsed(Written(Yield(ToSyn(Parsed(input).value)))) == Parsed(input)
  {
    hide Lexed, ParsedTokens, LexableToken, Derives;
    var ts := Lexed(input).value;
    var node := Parsed(input).value;
    LexedAreLexable(input);
    AcceptsExactly(ts, node);
    var s :| Derives(s) && Yield(s) == ts && Tree(s) == node && Nesting(s) <= MAX_DEPTH;
    LexableTreePrints(s);
    ToSynShortest(s, 0);
    ToSynNestsLeast(s, 0);
    PrintParse(node);
  }
}
