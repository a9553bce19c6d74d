/** What an expression may look like, apart from any parser: concrete trees with their tokens, and the proof that the
    parser reads exactly the tokens they spell. */
module Spelling {
  import opened Words
  import opened Lang
  import opened Grammar

  /** A concrete expression: redundant parentheses and a comma behind the last argument of a call are kept. */
  datatype Spelling =
    | Atom(e: Expr)
    | Load(a: Spelling)
    | Builtin(op: Operator, args: seq<Spelling>)
    | CallOf(f: string, args: seq<Spelling>, comma: bool)
    | Paren(s: Spelling)
    | Prefix(op: Operator, s: Spelling)
    | Infix(op: Operator, l: Spelling, r: Spelling)

  /** How tightly an infix operator binds: comparisons, sums, then all other binary operators alike. */
  function Tightness(op: Operator): nat {
    match op
    case Lt => 0
    case Gt => 0
    case Leq => 0
    case Geq => 0
    case EqEq => 0
    case Neq => 0
    case Plus => 1
    case Minus => 1
    case Star => 2
    case Slash => 2
    case Percent => 2
    case Sar => 2
    case Shl => 2
    case Amp => 2
    case Pipe => 2
    case Caret => 2
    case _ => 9
  }

  function Level(s: Spelling): nat {
    match s
    case Infix(op, _, _) => Tightness(op)
    case Prefix(_, _) => 3
    case _ => 4
  }

  function Operands(op: Operator): nat {
    match op
    case Fma => 3
    case Exp8Of => 1
    case Relu => 1
    case Clamp => 1
    case Neg => 1
    case Tilde => 1
    case _ => 2
  }

  /** Operands bind more tightly than their operator; to its left an equally tight one may stand, except a comparison. */
  predicate Spelled(s: Spelling)
    decreases s, 1
  {
    match s
    case Atom(e) => e.Lit? || e.Var? || e.ThreadIdx? || e.BlockIdx? || e.BlockDim?
    case Load(a) => Spelled(a)
    case Builtin(op, args) => |args| == Operands(op) && SpelledAll(args)
    case CallOf(_, args, comma) => SpelledAll(args) && (comma ==> args != [])
    case Paren(t) => Spelled(t)
    case Prefix(op, t) => (op.Neg? || op.Tilde?) && Spelled(t) && Level(t) >= 3
    case Infix(op, l, r) =>
      && Tightness(op) <= 2 && Spelled(l) && Spelled(r) && Level(r) > Tightness(op)
      && Level(l) >= (if Tightness(op) == 0 then 1 else Tightness(op))
  }

  predicate SpelledAll(ss: seq<Spelling>)
    decreases ss, 0
  {
    ss == [] || (Spelled(ss[0]) && SpelledAll(ss[1..]))
  }

  function AtomTok(e: Expr): Token {
    match e
    case Lit(v) => Num(v)
    case Var(x) => Name(x)
    case ThreadIdx => KwThreadIdx
    case BlockIdx => KwBlockIdx
    case _ => KwBlockDim
  }

  /** The tokens of a concrete expression, in front of those that follow. */
  function Spell(s: Spelling, rest: seq<Token>): seq<Token>
    decreases s, 1
  {
    match s
    case Atom(e) => [AtomTok(e)] + rest
    case Load(a) => [KwMem, LBracket] + Spell(a, [RBracket] + rest)
    case Builtin(op, args) => [BuiltinTok(op), LParen] + SpellList(args, false, rest)
    case CallOf(f, args, comma) => [Name(f), LParen] + SpellList(args, comma, rest)
    case Paren(t) => [LParen] + Spell(t, [RParen] + rest)
    case Prefix(op, t) => [OpTok(if op.Neg? then Minus else Tilde)] + Spell(t, rest)
    case Infix(op, l, r) => Spell(l, [OpTok(op)] + Spell(r, rest))
  }

  /** Arguments, commas between them, and the closing parenthesis. */
  function SpellList(ss: seq<Spelling>, comma: bool, rest: seq<Token>): seq<Token>
    decreases ss, 0
  {
    if ss == [] then [RParen] + rest
    else if |ss| == 1 then Spell(ss[0], (if comma then [Comma, RParen] else [RParen]) + rest)
    else Spell(ss[0], [Comma] + SpellList(ss[1..], comma, rest))
  }

  /** The tree that is meant. */
  function Meant(s: Spelling): Expr
    decreases s, 1
  {
    match s
    case Atom(e) => e
    case Load(a) => MemLoad(Meant(a))
    case Builtin(op, args) => Op(op, MeantAll(args))
    case CallOf(f, args, _) => CallF(f, MeantAll(args))
    case Paren(t) => Meant(t)
    case Prefix(op, t) => Op(op, [Meant(t)])
    case Infix(op, l, r) => Op(op, [Meant(l), Meant(r)])
  }

  function MeantAll(ss: seq<Spelling>): (es: seq<Expr>)
    ensures |es| == |ss|
    decreases ss, 0
  {
    if ss == [] then [] else [Meant(ss[0])] + MeantAll(ss[1..])
  }

  lemma OperatorsAre(op: Operator)
    ensures IsComparison(op) <==> Tightness(op) == 0
    ensures IsAddOp(op) <==> Tightness(op) == 1
    ensures IsMulOp(op) <==> Tightness(op) == 2
    ensures Operands(op) == Arity(op) >= 1
  {
  }

  // ----- what is spelled is read -----

  lemma ReadExpr(s: Spelling, rest: seq<Token>)
    requires Spelled(s) && Stops(rest)
    ensures ParseExpr(Spell(s, rest)) == Some((Meant(s), rest))
    decreases s, 5
  {
    hide ParseAdd, Spelled;
    if s.Infix? && Tightness(s.op) == 0 {
      InfixParts(s);
      OperatorsAre(s.op);
      var after := [OpTok(s.op)] + Spell(s.r, rest);
      ReadSum(s.l, after);
      assert after[1..] == Spell(s.r, rest);
      ReadSum(s.r, rest);
    } else {
      ReadSum(s, rest);
    }
  }

  lemma InfixParts(s: Spelling)
    requires s.Infix? && Spelled(s)
    ensures Tightness(s.op) <= 2 && Spelled(s.l) && Spelled(s.r) && Level(s.r) > Tightness(s.op)
    ensures Level(s.l) >= (if Tightness(s.op) == 0 then 1 else Tightness(s.op))
  {
  }

  lemma ReadSum(s: Spelling, rest: seq<Token>)
    requires Spelled(s) && Level(s) >= 1 && Head(rest) != LParen && !IsMulTok(Head(rest))
    ensures ParseAdd(Spell(s, rest)) == AddLoop(Meant(s), rest)
    decreases s, 4
  {
    hide ParseMul, Spelled;
    if s.Infix? && Tightness(s.op) == 1 {
      InfixParts(s);
      OperatorsAre(s.op);
      var after := [OpTok(s.op)] + Spell(s.r, rest);
      ReadSum(s.l, after);
      assert after[1..] == Spell(s.r, rest);
      ReadProduct(s.r, rest);
    } else {
      ReadProduct(s, rest);
    }
  }

  lemma ReadProduct(s: Spelling, rest: seq<Token>)
    requires Spelled(s) && Level(s) >= 2 && Head(rest) != LParen
    ensures ParseMul(Spell(s, rest)) == MulLoop(Meant(s), rest)
    decreases s, 3
  {
    hide ParseUnary, Spelled;
    if s.Infix? {
      InfixParts(s);
      OperatorsAre(s.op);
      var after := [OpTok(s.op)] + Spell(s.r, rest);
      ReadProduct(s.l, after);
      assert after[1..] == Spell(s.r, rest);
      ReadPrefix(s.r, rest);
    } else {
      ReadPrefix(s, rest);
    }
  }

  lemma ReadPrefix(s: Spelling, rest: seq<Token>)
    requires Spelled(s) && Level(s) >= 3 && Head(rest) != LParen
    ensures ParseUnary(Spell(s, rest)) == Some((Meant(s), rest))
    decreases s, 2
  {
    hide ParsePrimary;
    if s.Prefix? {
      assert Spell(s, rest)[1..] == Spell(s.s, rest);
      ReadPrefix(s.s, rest);
    } else {
      ReadAtom(s, rest);
    }
  }

  lemma ReadAtom(s: Spelling, rest: seq<Token>)
    requires Spelled(s) && Level(s) == 4 && Head(rest) != LParen
    ensures ParsePrimary(Spell(s, rest)) == Some((Meant(s), rest)) && !IsPrefixTok(Head(Spell(s, rest)))
    decreases s, 1
  {
    hide ParseExpr, ParseFixed, ParseList, Skip, SpellList, MeantAll, SpelledAll;
    var toks := Spell(s, rest);
    match s
    case Atom(_) => assert toks[1..] == rest;
    case Load(a) =>
      assert toks[1..][0] == LBracket && toks[2..] == Spell(a, [RBracket] + rest);
      ReadThen(a, RBracket, rest);
    case Builtin(op, args) =>
      OperatorsAre(op);
      assert toks[1..][0] == LParen && toks[2..] == SpellList(args, false, rest);
      ReadFixed(args, rest);
    case CallOf(_, args, comma) =>
      assert toks[1..][0] == LParen && toks[2..] == SpellList(args, comma, rest);
      ReadList(args, comma, rest);
    case Paren(t) =>
      assert toks[1..] == Spell(t, [RParen] + rest);
      ReadThen(t, RParen, rest);
    case _ =>
  }

  /** An expression and the token that closes it. */
  lemma ReadThen(s: Spelling, t: Token, rest: seq<Token>)
    requires Spelled(s) && Stops([t] + rest) && t != Eof
    ensures Skip(ParseExpr(Spell(s, [t] + rest)), t) == Some((Meant(s), rest))
    decreases s, 6
  {
    hide ParseExpr, Spell;
    ReadExpr(s, [t] + rest);
    assert ([t] + rest)[1..] == rest;
  }

  lemma StopsAt(t: Token, rest: seq<Token>)
    requires t != LParen && !t.OpTok?
    ensures Stops([t] + rest)
  {
  }

  lemma ReadFixed(ss: seq<Spelling>, rest: seq<Token>)
    requires SpelledAll(ss) && ss != []
    ensures ParseFixed(SpellList(ss, false, rest), |ss|) == Some((MeantAll(ss), rest))
    decreases ss, 0
  {
    hide ParseExpr, Spell, Spelled, Meant, Stops;
    assert Stops([RParen] + rest) && Stops([Comma] + SpellList(ss[1..], false, rest)) by { StopsAt(RParen, rest); StopsAt(Comma, SpellList(ss[1..], false, rest)); }
    if |ss| == 1 {
      ReadThen(ss[0], RParen, rest);
      assert MeantAll(ss[1..]) == [] && MeantAll(ss) == [Meant(ss[0])];
    } else {
      ReadThen(ss[0], Comma, SpellList(ss[1..], false, rest));
      ReadFixed(ss[1..], rest);
    }
  }

  lemma ReadList(ss: seq<Spelling>, comma: bool, rest: seq<Token>)
    requires SpelledAll(ss) && (comma ==> ss != [])
    ensures ParseList(SpellList(ss, comma, rest)) == Some((MeantAll(ss), rest))
    decreases ss, 0
  {
    hide ParseExpr, Spell, Spelled, Meant;
    if ss == [] {
      assert ([RParen] + rest)[1..] == rest;
    } else {
      var after := if |ss| > 1 then [Comma] + SpellList(ss[1..], comma, rest) else if comma then [Comma, RParen] + rest else [RParen] + rest;
      assert SpellList(ss, comma, rest) == Spell(ss[0], after);
      ReadExpr(ss[0], after);
      SpellNotParen(ss[0], after);
      if |ss| > 1 {
        assert after[1..] == SpellList(ss[1..], comma, rest);
        ReadList(ss[1..], comma, rest);
      } else {
        assert MeantAll(ss[1..]) == [] && MeantAll(ss) == [Meant(ss[0])] && [Meant(ss[0])] + [] == [Meant(ss[0])];
        if comma {
          assert after[1..][0] == RParen && after[1..][1..] == rest;
        } else {
          assert after[1..] == rest;
        }
      }
    }
  }

  lemma SpellNotParen(s: Spelling, rest: seq<Token>)
    requires Spelled(s)
    ensures Head(Spell(s, rest)) != RParen
    decreases s
  {
    if s.Infix? {
      SpellNotParen(s.l, [OpTok(s.op)] + Spell(s.r, rest));
    }
  }

  // ----- what is read was spelled -----

  lemma FoundExpr(toks: seq<Token>) returns (s: Spelling)
    requires ParseExpr(toks).Some?
    ensures Spelled(s) && Meant(s) == ParseExpr(toks).value.0 && Spell(s, ParseExpr(toks).value.1) == toks
    decreases |toks|, 4
  {
    hide ParseAdd;
    s := FoundSum(toks);
    var l := ParseAdd(toks);
    var t := Head(l.value.1);
    if IsCompareTok(t) {
      var r := FoundSum(l.value.1[1..]);
      OperatorsAre(t.op);
      assert [t] + l.value.1[1..] == l.value.1;
      s := Infix(t.op, s, r);
    }
  }

  lemma FoundSum(toks: seq<Token>) returns (s: Spelling)
    requires ParseAdd(toks).Some?
    ensures Spelled(s) && Level(s) >= 1 && Meant(s) == ParseAdd(toks).value.0 && Spell(s, ParseAdd(toks).value.1) == toks
    decreases |toks|, 3
  {
    hide ParseMul;
    var l := FoundProduct(toks);
    s := FoundSummands(l, ParseMul(toks).value.1);
  }

  lemma FoundSummands(l: Spelling, toks: seq<Token>) returns (s: Spelling)
    requires Spelled(l) && Level(l) >= 1 && AddLoop(Meant(l), toks).Some?
    ensures Spelled(s) && Level(s) >= 1 && Meant(s) == AddLoop(Meant(l), toks).value.0
    ensures Spell(s, AddLoop(Meant(l), toks).value.1) == Spell(l, toks)
    decreases |toks|, 3
  {
    hide ParseMul;
    s := l;
    var t := Head(toks);
    if IsAddTok(t) {
      var r := FoundProduct(toks[1..]);
      OperatorsAre(t.op);
      assert [t] + toks[1..] == toks;
      s := FoundSummands(Infix(t.op, l, r), ParseMul(toks[1..]).value.1);
    }
  }

  lemma FoundProduct(toks: seq<Token>) returns (s: Spelling)
    requires ParseMul(toks).Some?
    ensures Spelled(s) && Level(s) >= 2 && Meant(s) == ParseMul(toks).value.0 && Spell(s, ParseMul(toks).value.1) == toks
    decreases |toks|, 2
  {
    hide ParseUnary;
    var l := FoundPrefix(toks);
    s := FoundFactors(l, ParseUnary(toks).value.1);
  }

  lemma FoundFactors(l: Spelling, toks: seq<Token>) returns (s: Spelling)
    requires Spelled(l) && Level(l) >= 2 && MulLoop(Meant(l), toks).Some?
    ensures Spelled(s) && Level(s) >= 2 && Meant(s) == MulLoop(Meant(l), toks).value.0
    ensures Spell(s, MulLoop(Meant(l), toks).value.1) == Spell(l, toks)
    decreases |toks|, 2
  {
    hide ParseUnary;
    s := l;
    var t := Head(toks);
    if IsMulTok(t) {
      var r := FoundPrefix(toks[1..]);
      OperatorsAre(t.op);
      assert [t] + toks[1..] == toks;
      s := FoundFactors(Infix(t.op, l, r), ParseUnary(toks[1..]).value.1);
    }
  }

  lemma FoundPrefix(toks: seq<Token>) returns (s: Spelling)
    requires ParseUnary(toks).Some?
    ensures Spelled(s) && Level(s) >= 3 && Meant(s) == ParseUnary(toks).value.0 && Spell(s, ParseUnary(toks).value.1) == toks
    decreases |toks|, 1
  {
    hide ParsePrimary;
    var t := Head(toks);
    if IsPrefixTok(t) {
      s := FoundPrefix(toks[1..]);
      assert [t] + toks[1..] == toks;
      s := Prefix(if t == OpTok(Minus) then Neg else Tilde, s);
    } else {
      s := FoundAtom(toks);
    }
  }

  lemma FoundAtom(toks: seq<Token>) returns (s: Spelling)
    requires ParsePrimary(toks).Some?
    ensures Spelled(s) && Level(s) == 4 && Meant(s) == ParsePrimary(toks).value.0 && Spell(s, ParsePrimary(toks).value.1) == toks
    decreases |toks|, 0
  {
    hide ParseExpr, ParseFixed, ParseList, Skip;
    var t := Head(toks);
    assert [t] + toks[1..] == toks;
    match t
    case KwMem =>
      TwoTokens(toks);
      s := FoundThen(toks[2..], RBracket);
      s := Load(s);
    case BuiltinTok(op) =>
      TwoTokens(toks);
      OperatorsAre(op);
      var args := FoundFixed(toks[2..], Arity(op));
      s := Builtin(op, args);
    case Name(x) =>
      if Head(toks[1..]) == LParen {
        TwoTokens(toks);
        var args, comma := FoundList(toks[2..]);
        s := CallOf(x, args, comma);
      } else {
        s := Atom(Var(x));
      }
    case LParen =>
      s := FoundThen(toks[1..], RParen);
      s := Paren(s);
    case Num(v) => s := Atom(Lit(v));
    case KwThreadIdx => s := Atom(ThreadIdx);
    case KwBlockIdx => s := Atom(BlockIdx);
    case KwBlockDim => s := Atom(BlockDim);
    case _ => assert false;
  }

  lemma TwoTokens(toks: seq<Token>)
    ensures toks != [] && Head(toks[1..]) != Eof ==> toks == [toks[0], Head(toks[1..])] + toks[2..]
  {
  }

  lemma FoundThen(toks: seq<Token>, t: Token) returns (s: Spelling)
    requires Skip(ParseExpr(toks), t).Some?
    ensures Spelled(s) && Meant(s) == Skip(ParseExpr(toks), t).value.0 && Spell(s, [t] + Skip(ParseExpr(toks), t).value.1) == toks
    decreases |toks|, 5
  {
    hide ParseExpr, Spell;
    s := FoundExpr(toks);
    var after := ParseExpr(toks).value.1;
    assert [t] + after[1..] == after;
  }

  lemma FoundFixed(toks: seq<Token>, n: nat) returns (ss: seq<Spelling>)
    requires ParseFixed(toks, n).Some? && n >= 1
    ensures |ss| == n && SpelledAll(ss) && MeantAll(ss) == ParseFixed(toks, n).value.0
    ensures SpellList(ss, false, ParseFixed(toks, n).value.1) == toks
    decreases |toks|, 6
  {
    hide ParseExpr, Spell, Spelled, Meant;
    var s := FoundThen(toks, if n == 1 then RParen else Comma);
    ss := [s];
    assert ss[1..] == [];
    if n > 1 {
      var more := FoundFixed(Skip(ParseExpr(toks), Comma).value.1, n - 1);
      ss := [s] + more;
      assert ss[1..] == more;
    }
  }

  lemma FoundList(toks: seq<Token>) returns (ss: seq<Spelling>, comma: bool)
    requires ParseList(toks).Some?
    ensures SpelledAll(ss) && (comma ==> ss != []) && MeantAll(ss) == ParseList(toks).value.0
    ensures SpellList(ss, comma, ParseList(toks).value.1) == toks
    decreases |toks|, 6
  {
    hide ParseExpr, Spell, Spelled, Meant;
    ss, comma := [], false;
    if Head(toks) == RParen {
      assert [RParen] + toks[1..] == toks;
    } else {
      var s := FoundExpr(toks);
      var after := ParseExpr(toks).value.1;
      ss := [s];
      assert ss[1..] == [];
      assert [Head(after)] + after[1..] == after;
      if Head(after) == Comma {
        var more: seq<Spelling>;
        more, comma := FoundList(after[1..]);
        if more == [] {
          comma := true;
          assert [Comma] + ([RParen] + ParseList(toks).value.1) == [Comma, RParen] + ParseList(toks).value.1;
          assert [Meant(s)] + [] == [Meant(s)];
        } else {
          ss := [s] + more;
          assert ss[1..] == more;
        }
      }
    }
  }

  /** The parser returns a tree just if the tokens begin with a spelling of it that what follows does not continue. */
  lemma ExprExactly(toks: seq<Token>, e: Expr, rest: seq<Token>)
    requires Stops(rest)
    ensures ParseExpr(toks) == Some((e, rest)) <==> exists s :: Spelled(s) && Meant(s) == e && Spell(s, rest) == toks
  {
    hide ParseExpr, Spelled, Spell, Meant;
    if ParseExpr(toks) == Some((e, rest)) {
      var s := FoundExpr(toks);
    }
    if s :| Spelled(s) && Meant(s) == e && Spell(s, rest) == toks {
      ReadExpr(s, rest);
    }
  }
}
