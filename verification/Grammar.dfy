/** The grammar: what the parser returns for a token sequence, a printer, and the proof that parsing inverts printing. */
module Grammar {
  import opened Words
  import opened Lang

  datatype Token =
    | Num(v: Int32) | Name(name: string)
    | OpTok(op: Operator)  // the operator symbols; a minus sign is OpTok(Minus), also as a prefix
    | KwThreadIdx | KwBlockIdx | KwBlockDim | KwMem
    | BuiltinTok(op: Operator)
    | LParen | RParen | LBracket | RBracket | LBrace | RBrace | Comma | Semicolon | AssignTok
    | KwInt | KwVoid | KwKernel | KwFunc | KwIf | KwElse | KwFor | KwReturn
    | Eof

  type Parsed<T> = Option<(T, seq<Token>)>

  /** The current token; behind the last one it is the end of the file. */
  function Head(toks: seq<Token>): (t: Token)
    ensures t != Eof ==> toks != []
  {
    if toks == [] then Eof else toks[0]
  }

  predicate IsCompareTok(t: Token) { t.OpTok? && IsComparison(t.op) }

  predicate IsAddOp(op: Operator) { op.Plus? || op.Minus? }

  predicate IsMulOp(op: Operator) {
    op.Star? || op.Slash? || op.Percent? || op.Sar? || op.Shl? || op.Amp? || op.Pipe? || op.Caret?
  }

  predicate IsAddTok(t: Token) { t.OpTok? && IsAddOp(t.op) }

  predicate IsMulTok(t: Token) { t.OpTok? && IsMulOp(t.op) }

  predicate IsPrefixTok(t: Token) { t == OpTok(Minus) || t == OpTok(Tilde) }

  function PrefixOp(t: Token): Operator { if t == OpTok(Minus) then Neg else Tilde }

  // ----- expressions -----

  /** A token that must come next is skipped. */
  function Skip<T>(r: Parsed<T>, t: Token): Parsed<T> {
    if r.Some? && t != Eof && Head(r.value.1) == t then Some((r.value.0, r.value.1[1..])) else None
  }

  function ParseExpr(toks: seq<Token>): (r: Parsed<Expr>)
    ensures r.Some? ==> |r.value.1| < |toks|
    decreases |toks|, 4
  {
    var l := ParseAdd(toks);
    if l.None? then None
    else if !IsCompareTok(Head(l.value.1)) then l
    else
      var r := ParseAdd(l.value.1[1..]);
      if r.None? then None else Some((Op(Head(l.value.1).op, [l.value.0, r.value.0]), r.value.1))
  }

  function ParseAdd(toks: seq<Token>): (r: Parsed<Expr>)
    ensures r.Some? ==> |r.value.1| < |toks|
    decreases |toks|, 3
  {
    var l := ParseMul(toks);
    if l.None? then None else AddLoop(l.value.0, l.value.1)
  }

  /** Further summands, associated to the left. */
  function AddLoop(left: Expr, toks: seq<Token>): (r: Parsed<Expr>)
    ensures r.Some? ==> |r.value.1| <= |toks|
    decreases |toks|, 3
  {
    if !IsAddTok(Head(toks)) then Some((left, toks))
    else
      var r := ParseMul(toks[1..]);
      if r.None? then None else AddLoop(Op(Head(toks).op, [left, r.value.0]), r.value.1)
  }

  function ParseMul(toks: seq<Token>): (r: Parsed<Expr>)
    ensures r.Some? ==> |r.value.1| < |toks|
    decreases |toks|, 2
  {
    var l := ParseUnary(toks);
    if l.None? then None else MulLoop(l.value.0, l.value.1)
  }

  function MulLoop(left: Expr, toks: seq<Token>): (r: Parsed<Expr>)
    ensures r.Some? ==> |r.value.1| <= |toks|
    decreases |toks|, 2
  {
    if !IsMulTok(Head(toks)) then Some((left, toks))
    else
      var r := ParseUnary(toks[1..]);
      if r.None? then None else MulLoop(Op(Head(toks).op, [left, r.value.0]), r.value.1)
  }

  function ParseUnary(toks: seq<Token>): (r: Parsed<Expr>)
    ensures r.Some? ==> |r.value.1| < |toks|
    decreases |toks|, 1
  {
    if IsPrefixTok(Head(toks)) then
      var r := ParseUnary(toks[1..]);
      if r.None? then None else Some((Op(PrefixOp(Head(toks)), [r.value.0]), r.value.1))
    else ParsePrimary(toks)
  }

  function ParsePrimary(toks: seq<Token>): (r: Parsed<Expr>)
    ensures r.Some? ==> |r.value.1| < |toks|
    decreases |toks|, 0
  {
    match Head(toks)
    case Num(v) => Some((Lit(v), toks[1..]))
    case KwThreadIdx => Some((ThreadIdx, toks[1..]))
    case KwBlockIdx => Some((BlockIdx, toks[1..]))
    case KwBlockDim => Some((BlockDim, toks[1..]))
    case KwMem =>
      if Head(toks[1..]) != LBracket then None
      else
        var r := Skip(ParseExpr(toks[2..]), RBracket);
        if r.None? then None else Some((MemLoad(r.value.0), r.value.1))
    case BuiltinTok(op) =>
      if Head(toks[1..]) != LParen then None
      else
        var r := ParseFixed(toks[2..], Arity(op));
        if r.None? then None else Some((Op(op, r.value.0), r.value.1))
    case Name(x) =>
      if Head(toks[1..]) != LParen then Some((Var(x), toks[1..]))
      else
        var r := ParseList(toks[2..]);
        if r.None? then None else Some((CallF(x, r.value.0), r.value.1))
    case LParen => Skip(ParseExpr(toks[1..]), RParen)
    case _ => None
  }

  /** Exactly `n` operands and the closing parenthesis. */
  function ParseFixed(toks: seq<Token>, n: nat): (r: Parsed<seq<Expr>>)
    ensures r.Some? ==> |r.value.1| < |toks|
    decreases |toks|, 5
  {
    var e := Skip(ParseExpr(toks), if n <= 1 then RParen else Comma);
    if e.None? then None
    else if n <= 1 then Some(([e.value.0], e.value.1))
    else
      var r := ParseFixed(e.value.1, n - 1);
      if r.None? then None else Some(([e.value.0] + r.value.0, r.value.1))
  }

  /** The arguments of a call up to the closing parenthesis; a comma may stand before it. */
  function ParseList(toks: seq<Token>): (r: Parsed<seq<Expr>>)
    ensures r.Some? ==> |r.value.1| < |toks|
    decreases |toks|, 5
  {
    if Head(toks) == RParen then Some(([], toks[1..]))
    else
      var e := ParseExpr(toks);
      if e.None? then None
      else if Head(e.value.1) == RParen then Some(([e.value.0], e.value.1[1..]))
      else if Head(e.value.1) == Comma then
        var r := ParseList(e.value.1[1..]);
        if r.None? then None else Some(([e.value.0] + r.value.0, r.value.1))
      else None
  }

  // ----- printing, in front of the tokens that follow -----

  /** The level of a binary operator: comparison, sum, product. */
  function LevelOf(op: Operator): nat {
    if IsComparison(op) then 0 else if IsAddOp(op) then 1 else 2
  }

  function PrefixTok(op: Operator): Token { if op.Neg? then OpTok(Minus) else OpTok(Tilde) }

  /** The tokens of an expression where the grammar wants one of the given level, followed by `rest`. */
  function PrintK(e: Expr, level: nat, rest: seq<Token>): seq<Token>
    decreases e, 1
  {
    match e
    case Lit(v) => [Num(v)] + rest
    case Var(x) => [Name(x)] + rest
    case ThreadIdx => [KwThreadIdx] + rest
    case BlockIdx => [KwBlockIdx] + rest
    case BlockDim => [KwBlockDim] + rest
    case MemLoad(a) => [KwMem, LBracket] + PrintK(a, 0, [RBracket] + rest)
    case CallF(f, args) => [Name(f), LParen] + PrintListK(args, [RParen] + rest)
    case Op(op, args) =>
      if |args| != Arity(op) then rest
      else if IsUnary(op) then [PrefixTok(op)] + PrintK(args[0], 3, rest)
      else if IsBuiltin(op) then [BuiltinTok(op), LParen] + PrintListK(args, [RParen] + rest)
      else if level <= LevelOf(op) then PrintBinaryK(op, args, rest)
      else [LParen] + PrintBinaryK(op, args, [RParen] + rest)
  }

  function PrintBinaryK(op: Operator, args: seq<Expr>, rest: seq<Token>): seq<Token>
    requires |args| == 2
    decreases args, 0
  {
    var lv := LevelOf(op);
    PrintK(args[0], if lv == 0 then 1 else lv, [OpTok(op)] + PrintK(args[1], lv + 1, rest))
  }

  function PrintListK(es: seq<Expr>, rest: seq<Token>): seq<Token>
    decreases es, 0
  {
    if es == [] then rest
    else if |es| == 1 then PrintK(es[0], 0, rest)
    else PrintK(es[0], 0, [Comma] + PrintListK(es[1..], rest))
  }

  /** Every operator has its operands. */
  predicate WellFormed(e: Expr)
    decreases e, 1
  {
    match e
    case Op(op, args) => |args| == Arity(op) && WellFormedAll(args)
    case MemLoad(a) => WellFormed(a)
    case CallF(_, args) => WellFormedAll(args)
    case _ => true
  }

  predicate WellFormedAll(es: seq<Expr>)
    decreases es, 0
  {
    es == [] || (WellFormed(es[0]) && WellFormedAll(es[1..]))
  }

  predicate Binary(e: Expr) {
    e.Op? && |e.args| == 2 && !IsUnary(e.op) && !IsBuiltin(e.op)
  }

  lemma BinaryParts(e: Expr)
    requires Binary(e) && WellFormed(e)
    ensures WellFormed(e.args[0]) && WellFormed(e.args[1]) && e == Op(e.op, [e.args[0], e.args[1]])
    ensures IsComparison(e.op) || IsAddOp(e.op) || IsMulOp(e.op)
  {
    var es := e.args;
    assert WellFormedAll(es) && WellFormedAll(es[1..]) && es[1..][0] == es[1];
    assert es == [es[0], es[1]];
  }

  // ----- parsing what was printed -----

  lemma MulBinary(e: Expr, rest: seq<Token>)
    requires Binary(e) && IsMulOp(e.op) && WellFormed(e) && Head(rest) != LParen
    ensures ParseMul(PrintBinaryK(e.op, e.args, rest)) == MulLoop(e, rest)
    decreases e, 0
  {
    hide PrintK, ParseUnary, WellFormed;
    BinaryParts(e);
    var l, r := e.args[0], e.args[1];
    var after := [OpTok(e.op)] + PrintK(r, 3, rest);
    MulPrinted(l, after);
    assert after[1..] == PrintK(r, 3, rest);
    UnaryPrinted(r, rest);
  }

  lemma AddBinary(e: Expr, rest: seq<Token>)
    requires Binary(e) && IsAddOp(e.op) && WellFormed(e) && Head(rest) != LParen && !IsMulTok(Head(rest))
    ensures ParseAdd(PrintBinaryK(e.op, e.args, rest)) == AddLoop(e, rest)
    decreases e, 0
  {
    hide PrintK, ParseMul, WellFormed;
    BinaryParts(e);
    var l, r := e.args[0], e.args[1];
    var after := [OpTok(e.op)] + PrintK(r, 2, rest);
    AddPrinted(l, after);
    assert after[1..] == PrintK(r, 2, rest);
    MulPrinted(r, rest);
  }

  /** What may follow a complete expression: nothing that would continue it. */
  predicate Stops(rest: seq<Token>) {
    Head(rest) != LParen && !Head(rest).OpTok?
  }

  lemma BinaryPrinted(e: Expr, rest: seq<Token>)
    requires Binary(e) && WellFormed(e) && Stops(rest)
    ensures ParseExpr(PrintBinaryK(e.op, e.args, rest)) == Some((e, rest))
    decreases e, 1
  {
    hide PrintK, ParseMul, ParseUnary, WellFormed;
    BinaryParts(e);
    var l, r := e.args[0], e.args[1];
    if IsComparison(e.op) {
      var after := [OpTok(e.op)] + PrintK(r, 1, rest);
      AddPrinted(l, after);
      assert after[1..] == PrintK(r, 1, rest);
      AddPrinted(r, rest);
    } else if IsAddOp(e.op) {
      AddBinary(e, rest);
    } else {
      MulBinary(e, rest);
    }
  }

  lemma UnaryPrinted(e: Expr, rest: seq<Token>)
    requires WellFormed(e) && Head(rest) != LParen
    ensures ParseUnary(PrintK(e, 3, rest)) == Some((e, rest))
    decreases e, 2
  {
    if e.Op? && IsUnary(e.op) {
      var toks := PrintK(e, 3, rest);
      assert toks[1..] == PrintK(e.args[0], 3, rest);
      UnaryPrinted(e.args[0], rest);
      assert e.args == [e.args[0]];
    } else if Binary(e) {
      var inner := PrintBinaryK(e.op, e.args, [RParen] + rest);
      var toks := PrintK(e, 3, rest);
      BinaryPrinted(e, [RParen] + rest);
      assert toks == [LParen] + inner && toks[1..] == inner;
      assert ([RParen] + rest)[1..] == rest;
    } else {
      PrimaryPrinted(e, rest);
    }
  }

  lemma PrimaryPrinted(e: Expr, rest: seq<Token>)
    requires WellFormed(e) && Head(rest) != LParen && !(e.Op? && IsUnary(e.op)) && !Binary(e)
    ensures ParsePrimary(PrintK(e, 3, rest)) == Some((e, rest)) && !IsPrefixTok(Head(PrintK(e, 3, rest)))
    decreases e, 1
  {
    hide ParseExpr, ParseFixed, ParseList, Stops, Skip;
    var toks := PrintK(e, 3, rest);
    match e
    case MemLoad(a) =>
      assert toks[1..][0] == LBracket && toks[2..] == PrintK(a, 0, [RBracket] + rest);
      BracketPrinted(a, rest);
    case CallF(f, args) =>
      assert toks[1..][0] == LParen && toks[2..] == PrintListK(args, [RParen] + rest);
      ListPrinted(args, rest);
    case Op(op, args) =>
      assert toks[1..][0] == LParen && toks[2..] == PrintListK(args, [RParen] + rest);
      FixedPrinted(args, rest);
    case _ =>
      assert toks[1..] == rest;
  }

  lemma BracketPrinted(a: Expr, rest: seq<Token>)
    requires WellFormed(a)
    ensures Skip(ParseExpr(PrintK(a, 0, [RBracket] + rest)), RBracket) == Some((a, rest))
    decreases a, 7
  {
    hide ParseExpr, PrintK, WellFormed, Skip;
    ExprThen(a, RBracket, rest);
  }

  /** Behind the printed form of a factor the loop over factors goes on. */
  lemma MulPrinted(e: Expr, rest: seq<Token>)
    requires WellFormed(e) && Head(rest) != LParen
    ensures ParseMul(PrintK(e, 2, rest)) == MulLoop(e, rest)
    decreases e, 3
  {
    if Binary(e) && IsMulOp(e.op) {
      MulBinary(e, rest);
    } else {
      SamePrint(e, 2, 3, rest);
      UnaryPrinted(e, rest);
    }
  }

  lemma AddPrinted(e: Expr, rest: seq<Token>)
    requires WellFormed(e) && Head(rest) != LParen && !IsMulTok(Head(rest))
    ensures ParseAdd(PrintK(e, 1, rest)) == AddLoop(e, rest)
    decreases e, 4
  {
    if Binary(e) && IsAddOp(e.op) {
      AddBinary(e, rest);
    } else {
      SamePrint(e, 1, 2, rest);
      MulPrinted(e, rest);
    }
  }

  /** Two levels print alike where no binary operator lies between them. */
  lemma SamePrint(e: Expr, lo: nat, hi: nat, rest: seq<Token>)
    requires WellFormed(e) && lo <= hi && !(Binary(e) && lo <= LevelOf(e.op) < hi)
    ensures PrintK(e, lo, rest) == PrintK(e, hi, rest)
  {
  }

  /** Parsing inverts printing: the same tree, and exactly the printed tokens are consumed. */
  lemma ExprPrinted(e: Expr, rest: seq<Token>)
    requires WellFormed(e) && Stops(rest)
    ensures ParseExpr(PrintK(e, 0, rest)) == Some((e, rest))
    decreases e, 5
  {
    if Binary(e) && IsComparison(e.op) {
      BinaryPrinted(e, rest);
    } else {
      SamePrint(e, 0, 1, rest);
      AddPrinted(e, rest);
    }
  }

  lemma ListPrinted(es: seq<Expr>, rest: seq<Token>)
    requires WellFormedAll(es)
    ensures ParseList(PrintListK(es, [RParen] + rest)) == Some((es, rest))
    decreases es, 0
  {
    hide ParseExpr, PrintK;
    var close := [RParen] + rest;
    assert close[1..] == rest;
    if es == [] {
    } else if |es| == 1 {
      ExprPrinted(es[0], close);
      NotAtParen(es[0], 0, close);
      assert es == [es[0]];
    } else {
      var after := [Comma] + PrintListK(es[1..], close);
      ExprPrinted(es[0], after);
      NotAtParen(es[0], 0, after);
      assert after[1..] == PrintListK(es[1..], close);
      ListPrinted(es[1..], rest);
      assert es == [es[0]] + es[1..];
    }
  }

  /** No expression begins with a closing parenthesis. */
  lemma NotAtParen(e: Expr, level: nat, rest: seq<Token>)
    requires WellFormed(e)
    ensures Head(PrintK(e, level, rest)) != RParen
    decreases e
  {
    if Binary(e) {
      BinaryParts(e);
      var lv := LevelOf(e.op);
      NotAtParen(e.args[0], if lv == 0 then 1 else lv, [OpTok(e.op)] + PrintK(e.args[1], lv + 1, rest));
    }
  }

  /** An expression and the token behind it. */
  lemma ExprThen(e: Expr, t: Token, rest: seq<Token>)
    requires WellFormed(e) && Stops([t] + rest) && t != Eof
    ensures Skip(ParseExpr(PrintK(e, 0, [t] + rest)), t) == Some((e, rest))
    decreases e, 6
  {
    hide ParseExpr, PrintK;
    ExprPrinted(e, [t] + rest);
    assert ([t] + rest)[1..] == rest;
  }

  lemma FixedPrinted(es: seq<Expr>, rest: seq<Token>)
    requires es != [] && WellFormedAll(es)
    ensures ParseFixed(PrintListK(es, [RParen] + rest), |es|) == Some((es, rest))
    decreases es, 0
  {
    hide ParseExpr, PrintK, WellFormed;
    if |es| == 1 {
      ExprThen(es[0], RParen, rest);
      assert es == [es[0]];
    } else {
      ExprThen(es[0], Comma, PrintListK(es[1..], [RParen] + rest));
      FixedPrinted(es[1..], rest);
      assert es == [es[0]] + es[1..];
    }
  }

  // ----- nothing but well-formed trees -----

  lemma PairWellFormed(op: Operator, a: Expr, b: Expr)
    requires WellFormed(a) && WellFormed(b) && Arity(op) == 2
    ensures WellFormed(Op(op, [a, b]))
  {
    var es := [a, b];
    assert es[1..] == [b] && es[1..][1..] == [];
    assert WellFormedAll(es[1..][1..]) && WellFormedAll(es[1..]) && WellFormedAll(es);
  }

  lemma ParsedExpr(toks: seq<Token>)
    ensures ParseExpr(toks).Some? ==> WellFormed(ParseExpr(toks).value.0)
    decreases |toks|, 4
  {
    hide ParseAdd;
    var l := ParseAdd(toks);
    ParsedSum(toks);
    if l.Some? && IsCompareTok(Head(l.value.1)) {
      var r := ParseAdd(l.value.1[1..]);
      ParsedSum(l.value.1[1..]);
      if r.Some? {
        PairWellFormed(Head(l.value.1).op, l.value.0, r.value.0);
      }
    }
  }

  lemma ParsedSum(toks: seq<Token>)
    ensures ParseAdd(toks).Some? ==> WellFormed(ParseAdd(toks).value.0)
    decreases |toks|, 3
  {
    hide ParseMul, AddLoop;
    ParsedProduct(toks);
    var l := ParseMul(toks);
    if l.Some? {
      ParsedSummands(l.value.0, l.value.1);
    }
  }

  lemma ParsedSummands(left: Expr, toks: seq<Token>)
    requires WellFormed(left)
    ensures AddLoop(left, toks).Some? ==> WellFormed(AddLoop(left, toks).value.0)
    decreases |toks|, 3
  {
    hide ParseMul;
    if IsAddTok(Head(toks)) {
      ParsedProduct(toks[1..]);
      var r := ParseMul(toks[1..]);
      if r.Some? {
        PairWellFormed(Head(toks).op, left, r.value.0);
        ParsedSummands(Op(Head(toks).op, [left, r.value.0]), r.value.1);
      }
    }
  }

  lemma ParsedProduct(toks: seq<Token>)
    ensures ParseMul(toks).Some? ==> WellFormed(ParseMul(toks).value.0)
    decreases |toks|, 2
  {
    hide ParseUnary, MulLoop;
    ParsedPrefix(toks);
    var l := ParseUnary(toks);
    if l.Some? {
      ParsedFactors(l.value.0, l.value.1);
    }
  }

  lemma ParsedFactors(left: Expr, toks: seq<Token>)
    requires WellFormed(left)
    ensures MulLoop(left, toks).Some? ==> WellFormed(MulLoop(left, toks).value.0)
    decreases |toks|, 2
  {
    hide ParseUnary;
    if IsMulTok(Head(toks)) {
      ParsedPrefix(toks[1..]);
      var r := ParseUnary(toks[1..]);
      if r.Some? {
        PairWellFormed(Head(toks).op, left, r.value.0);
        ParsedFactors(Op(Head(toks).op, [left, r.value.0]), r.value.1);
      }
    }
  }

  lemma ParsedPrefix(toks: seq<Token>)
    ensures ParseUnary(toks).Some? ==> WellFormed(ParseUnary(toks).value.0)
    decreases |toks|, 1
  {
    hide ParsePrimary;
    if IsPrefixTok(Head(toks)) {
      ParsedPrefix(toks[1..]);
      var r := ParseUnary(toks[1..]);
      if r.Some? {
        var es := [r.value.0];
        assert es[1..] == [] && WellFormedAll(es);
      }
    } else {
      ParsedPrimary(toks);
    }
  }

  lemma ParsedPrimary(toks: seq<Token>)
    ensures ParsePrimary(toks).Some? ==> WellFormed(ParsePrimary(toks).value.0)
    decreases |toks|, 0
  {
    hide ParseExpr, ParseFixed, ParseList;
    match Head(toks)
    case KwMem => if Head(toks[1..]) == LBracket { ParsedExpr(toks[2..]); }
    case BuiltinTok(op) => if Head(toks[1..]) == LParen { ParsedFixed(toks[2..], Arity(op)); }
    case Name(_) => if Head(toks[1..]) == LParen { ParsedList(toks[2..]); }
    case LParen => ParsedExpr(toks[1..]);
    case _ =>
  }

  lemma ParsedFixed(toks: seq<Token>, n: nat)
    requires n >= 1
    ensures var r := ParseFixed(toks, n); r.Some? ==> |r.value.0| == n && WellFormedAll(r.value.0)
    decreases |toks|, 5
  {
    hide ParseExpr;
    ParsedExpr(toks);
    var e := Skip(ParseExpr(toks), if n <= 1 then RParen else Comma);
    if e.Some? {
      if n > 1 {
        ParsedFixed(e.value.1, n - 1);
        var r := ParseFixed(e.value.1, n - 1);
        if r.Some? {
          assert ([e.value.0] + r.value.0)[1..] == r.value.0;
        }
      } else {
        assert [e.value.0][1..] == [];
      }
    }
  }

  lemma ParsedList(toks: seq<Token>)
    ensures ParseList(toks).Some? ==> WellFormedAll(ParseList(toks).value.0)
    decreases |toks|, 5
  {
    hide ParseExpr;
    if Head(toks) != RParen {
      ParsedExpr(toks);
      var e := ParseExpr(toks);
      if e.Some? {
        if Head(e.value.1) == Comma {
          ParsedList(e.value.1[1..]);
          var r := ParseList(e.value.1[1..]);
          if r.Some? {
            assert ([e.value.0] + r.value.0)[1..] == r.value.0;
          }
        } else {
          assert [e.value.0][1..] == [];
        }
      }
    }
  }

  /** The parser builds well-formed trees and all of them: a tree is the value of some token sequence,
      consumed to the end, exactly if every operator in it has its operands. */
  lemma ParserOnto(e: Expr)
    ensures WellFormed(e) <==> exists toks :: ParseExpr(toks) == Some((e, []))
  {
    hide ParseExpr, WellFormed, PrintK;
    if WellFormed(e) {
      ExprPrinted(e, []);
    }
    forall toks | ParseExpr(toks) == Some((e, []))
      ensures WellFormed(e)
    {
      ParsedExpr(toks);
    }
  }
}
