/** The parser as it runs: one token of lookahead, an error flag, and lists built in loops. Every method is proved
    against the grammar. Once an error has been reported, parsing goes on only to find more of them. */
module Parser {
  import opened Words
  import opened Lang
  import opened Grammar
  import opened ProgramGrammar

  /** The outcome of a parsing method: an error already reported stays; otherwise the method returns the tree the
      grammar gives and leaves the tokens behind it, or reports an error where the grammar gives none. */
  ghost predicate Follows<T>(failed: bool, spec: Parsed<T>, r: Option<T>, failed': bool, rest: seq<Token>) {
    if failed then failed'
    else if spec.None? then failed' && r.None?
    else !failed' && r == Some(spec.value.0) && rest == spec.value.1
  }

  class TokenParser {
    const tokens: seq<Token>
    var pos: nat
    var hadError: bool

    constructor (toks: seq<Token>)
      ensures Valid() && Rest() == toks && !hadError
    {
      tokens := toks;
      pos := 0;
      hadError := false;
    }

    ghost predicate Valid()
      reads this
    {
      pos <= |tokens|
    }

    /** The tokens still to come. */
    ghost function Rest(): seq<Token>
      requires Valid()
      reads this
    {
      tokens[pos..]
    }

    function Cur(): Token
      requires Valid()
      reads this
      ensures Cur() == Head(Rest())
    {
      if pos < |tokens| then tokens[pos] else Eof
    }

    method Adv()
      requires Valid()
      modifies this`pos
      ensures Valid()
      ensures if old(Cur()) == Eof then pos == old(pos) else pos == old(pos) + 1 && Rest() == old(Rest())[1..]
    {
      if Cur() != Eof {
        pos := pos + 1;
      }
    }

    method Expect(t: Token) returns (ok: bool)
      requires Valid() && t != Eof
      modifies this
      ensures Valid() && ok == (old(Cur()) == t)
      ensures ok ==> pos == old(pos) + 1 && Rest() == old(Rest())[1..] && hadError == old(hadError)
      ensures !ok ==> pos == old(pos) && hadError
    {
      if Cur() == t {
        pos := pos + 1;
        return true;
      }
      hadError := true;
      return false;
    }

    method EatIdent() returns (name: Option<string>)
      requires Valid()
      modifies this
      ensures Valid() && name.Some? == old(Cur()).Name?
      ensures name.Some? ==> name.value == old(Cur()).name && pos == old(pos) + 1 && Rest() == old(Rest())[1..] && hadError == old(hadError)
      ensures name.None? ==> pos == old(pos) && hadError
    {
      if !Cur().Name? {
        hadError := true;
        return None;
      }
      name := Some(Cur().name);
      pos := pos + 1;
    }

    // ----- expressions -----

    method ParseExpression() returns (r: Option<Expr>)
      requires Valid()
      modifies this
      ensures Valid() && pos >= old(pos) && (r.Some? ==> pos > old(pos))
      ensures Follows(old(hadError), ParseExpr(old(Rest())), r, hadError, Rest())
      decreases |tokens| - pos, 5
    {
      hide ParseAdd, ParseMul, ParseUnary, ParsePrimary;
      var left := ParseSum();
      if left.None? {
        return None;
      }
      if !IsCompareTok(Cur()) {
        return left;
      }
      var op := Cur().op;
      Adv();
      var right := ParseSum();
      if right.None? {
        return None;
      }
      r := Some(Op(op, [left.value, right.value]));
    }

    method ParseSum() returns (r: Option<Expr>)
      requires Valid()
      modifies this
      ensures Valid() && pos >= old(pos) && (r.Some? ==> pos > old(pos))
      ensures Follows(old(hadError), ParseAdd(old(Rest())), r, hadError, Rest())
      decreases |tokens| - pos, 4
    {
      hide ParseMul, ParseUnary, ParsePrimary;
      r := ParseProduct();
      if r.None? {
        return;
      }
      while IsAddTok(Cur())
        invariant Valid() && pos > old(pos) && r.Some? && (old(hadError) ==> hadError)
        invariant !old(hadError) ==> !hadError && ParseAdd(old(Rest())) == AddLoop(r.value, Rest())
        decreases |tokens| - pos
      {
        var op := Cur().op;
        Adv();
        var right := ParseProduct();
        if right.None? {
          return None;
        }
        r := Some(Op(op, [r.value, right.value]));
      }
    }

    method ParseProduct() returns (r: Option<Expr>)
      requires Valid()
      modifies this
      ensures Valid() && pos >= old(pos) && (r.Some? ==> pos > old(pos))
      ensures Follows(old(hadError), ParseMul(old(Rest())), r, hadError, Rest())
      decreases |tokens| - pos, 3
    {
      hide ParseUnary, ParsePrimary;
      r := ParsePrefix();
      if r.None? {
        return;
      }
      while IsMulTok(Cur())
        invariant Valid() && pos > old(pos) && r.Some? && (old(hadError) ==> hadError)
        invariant !old(hadError) ==> !hadError && ParseMul(old(Rest())) == MulLoop(r.value, Rest())
        decreases |tokens| - pos
      {
        var op := Cur().op;
        Adv();
        var right := ParsePrefix();
        if right.None? {
          return None;
        }
        r := Some(Op(op, [r.value, right.value]));
      }
    }

    method ParsePrefix() returns (r: Option<Expr>)
      requires Valid()
      modifies this
      ensures Valid() && pos >= old(pos) && (r.Some? ==> pos > old(pos))
      ensures Follows(old(hadError), ParseUnary(old(Rest())), r, hadError, Rest())
      decreases |tokens| - pos, 2
    {
      hide ParsePrimary;
      if IsPrefixTok(Cur()) {
        var op := PrefixOp(Cur());
        Adv();
        var operand := ParsePrefix();
        if operand.None? {
          return None;
        }
        r := Some(Op(op, [operand.value]));
      } else {
        r := ParseAtom();
      }
    }

    /** An expression and a token that must follow it. */
    method ParseThen(t: Token) returns (r: Option<Expr>)
      requires Valid() && t != Eof
      modifies this
      ensures Valid() && pos >= old(pos) && (r.Some? ==> pos > old(pos))
      ensures Follows(old(hadError), Skip(ParseExpr(old(Rest())), t), r, hadError, Rest())
      decreases |tokens| - pos, 6
    {
      hide ParseExpr;
      r := ParseExpression();
      if r.None? {
        return;
      }
      var ok := Expect(t);
      if !ok {
        return None;
      }
    }

    method ParseAtom() returns (r: Option<Expr>)
      requires Valid()
      modifies this
      ensures Valid() && pos >= old(pos) && (r.Some? ==> pos > old(pos))
      ensures Follows(old(hadError), ParsePrimary(old(Rest())), r, hadError, Rest())
      decreases |tokens| - pos, 1
    {
      hide ParseExpr, ParseFixed, ParseList;
      match Cur()
      case Num(v) => Adv(); r := Some(Lit(v));
      case KwThreadIdx => Adv(); r := Some(ThreadIdx);
      case KwBlockIdx => Adv(); r := Some(BlockIdx);
      case KwBlockDim => Adv(); r := Some(BlockDim);
      case KwMem => r := ParseLoad();
      case BuiltinTok(_) => r := ParseBuiltin();
      case Name(_) => r := ParseNamed();
      case LParen => Adv(); r := ParseThen(RParen);
      case _ =>
        hadError := true;
        r := None;
    }

    method ParseLoad() returns (r: Option<Expr>)
      requires Valid() && Cur() == KwMem
      modifies this
      ensures Valid() && pos > old(pos)
      ensures Follows(old(hadError), ParsePrimary(old(Rest())), r, hadError, Rest())
      decreases |tokens| - pos, 0
    {
      hide ParseExpr, ParseFixed, ParseList;
      Adv();
      var ok := Expect(LBracket);
      if !ok {
        return None;
      }
      assert Rest() == old(Rest())[2..];
      var addr := ParseThen(RBracket);
      if addr.None? {
        return None;
      }
      r := Some(MemLoad(addr.value));
    }

    method ParseBuiltin() returns (r: Option<Expr>)
      requires Valid() && Cur().BuiltinTok?
      modifies this
      ensures Valid() && pos > old(pos)
      ensures Follows(old(hadError), ParsePrimary(old(Rest())), r, hadError, Rest())
      decreases |tokens| - pos, 0
    {
      hide ParseExpr, ParseFixed, ParseList;
      var op := Cur().op;
      Adv();
      var ok := Expect(LParen);
      if !ok {
        return None;
      }
      assert Rest() == old(Rest())[2..];
      var args := ParseArgs(Arity(op));
      if args.None? {
        return None;
      }
      r := Some(Op(op, args.value));
    }

    /** A name is a call if a parenthesis follows. */
    method ParseNamed() returns (r: Option<Expr>)
      requires Valid() && Cur().Name?
      modifies this
      ensures Valid() && pos > old(pos)
      ensures Follows(old(hadError), ParsePrimary(old(Rest())), r, hadError, Rest())
      decreases |tokens| - pos, 0
    {
      hide ParseExpr, ParseFixed, ParseList;
      var x := Cur().name;
      Adv();
      if Cur() != LParen {
        return Some(Var(x));
      }
      Adv();
      assert Rest() == old(Rest())[2..];
      var args := ParseCallArgs();
      if hadError || args.None? {
        return None;
      }
      r := Some(CallF(x, args.value));
    }

    method ParseArgs(n: nat) returns (r: Option<seq<Expr>>)
      requires Valid()
      modifies this
      ensures Valid() && pos >= old(pos) && (r.Some? ==> pos > old(pos))
      ensures Follows(old(hadError), ParseFixed(old(Rest()), n), r, hadError, Rest())
      decreases |tokens| - pos, 7
    {
      hide ParseExpr;
      if n <= 1 {
        var e := ParseThen(RParen);
        if e.None? {
          return None;
        }
        return Some([e.value]);
      }
      var e := ParseThen(Comma);
      if e.None? {
        return None;
      }
      var more := ParseArgs(n - 1);
      if more.None? {
        return None;
      }
      r := Some([e.value] + more.value);
    }

    /** Arguments are collected until the closing parenthesis. */
    method ParseCallArgs() returns (r: Option<seq<Expr>>)
      requires Valid()
      modifies this
      ensures Valid() && pos >= old(pos) && (r.Some? ==> pos > old(pos))
      ensures Follows(old(hadError), ParseList(old(Rest())), r, hadError, Rest())
      decreases |tokens| - pos, 7
    {
      hide ParseExpr;
      var args: seq<Expr> := [];
      ListNothing(ParseList(Rest()));
      while Cur() != RParen && Cur() != Eof
        invariant Valid() && pos >= old(pos) && (old(hadError) ==> hadError)
        invariant !old(hadError) ==> !hadError && ParseList(old(Rest())) == ListBehind(args, ParseList(Rest()))
        decreases |tokens| - pos
      {
        ListOne(args, Rest());
        var arg := ParseExpression();
        if arg.None? {
          return None;
        }
        args := args + [arg.value];
        if Cur() != RParen {
          var ok := Expect(Comma);
          if !ok {
            return None;
          }
        }
      }
      ListEnd(args, Rest());
      var ok := Expect(RParen);
      if !ok {
        return None;
      }
      r := Some(args);
    }

    // ----- statements -----

    method ParseStatement() returns (r: Option<Stmt>)
      requires Valid()
      modifies this
      ensures Valid() && pos >= old(pos) && (old(Cur()) != Eof ==> pos > old(pos))
      ensures Follows(old(hadError), ParseStmt(old(Rest())), r, hadError, Rest())
      decreases |tokens| - pos, 2
    {
      hide ParseStmt;
      StmtKinds(Rest());
      match Cur()
      case KwInt => r := ParseDecl();
      case KwMem => r := ParseStore();
      case Name(_) => r := ParseAssign();
      case KwIf => Adv(); r := ParseIfStmt();
      case KwFor => Adv(); r := ParseForStmt();
      case KwReturn => r := ParseReturn();
      case _ =>
        hadError := true;
        Adv();
        r := None;
    }

    method ParseDecl() returns (r: Option<Stmt>)
      requires Valid() && Cur() == KwInt
      modifies this
      ensures Valid() && pos > old(pos)
      ensures Follows(old(hadError), ParseStmt(old(Rest())), r, hadError, Rest())
    {
      hide ParseExpr, ParseIf, ParseFor;
      Adv();
      var name := EatIdent();
      if name.None? {
        return None;
      }
      assert Rest() == old(Rest())[2..];
      var ok := Expect(AssignTok);
      if !ok {
        return None;
      }
      assert Rest() == old(Rest())[3..];
      var init := ParseThen(Semicolon);
      if init.None? {
        return None;
      }
      r := Some(Decl(name.value, init.value));
    }

    method ParseStore() returns (r: Option<Stmt>)
      requires Valid() && Cur() == KwMem
      modifies this
      ensures Valid() && pos > old(pos)
      ensures Follows(old(hadError), ParseStmt(old(Rest())), r, hadError, Rest())
    {
      hide ParseExpr, ParseIf, ParseFor;
      Adv();
      var ok := Expect(LBracket);
      if !ok {
        return None;
      }
      assert Rest() == old(Rest())[2..];
      var addr := ParseThen(RBracket);
      if addr.None? {
        return None;
      }
      ok := Expect(AssignTok);
      if !ok {
        return None;
      }
      var val := ParseThen(Semicolon);
      if val.None? {
        return None;
      }
      r := Some(Store(addr.value, val.value));
    }

    method ParseAssign() returns (r: Option<Stmt>)
      requires Valid() && Cur().Name?
      modifies this
      ensures Valid() && pos > old(pos)
      ensures Follows(old(hadError), ParseStmt(old(Rest())), r, hadError, Rest())
    {
      hide ParseExpr, ParseIf, ParseFor;
      var x := Cur().name;
      Adv();
      var ok := Expect(AssignTok);
      if !ok {
        return None;
      }
      assert Rest() == old(Rest())[2..];
      var val := ParseThen(Semicolon);
      if val.None? {
        return None;
      }
      r := Some(Assign(x, val.value));
    }

    method ParseReturn() returns (r: Option<Stmt>)
      requires Valid() && Cur() == KwReturn
      modifies this
      ensures Valid() && pos > old(pos)
      ensures Follows(old(hadError), ParseStmt(old(Rest())), r, hadError, Rest())
    {
      hide ParseExpr, ParseIf, ParseFor;
      Adv();
      if Cur() == Semicolon {
        Adv();
        assert Rest() == old(Rest())[2..];
        return Some(Return(None));
      }
      var val := ParseThen(Semicolon);
      if val.None? {
        return None;
      }
      r := Some(Return(Some(val.value)));
    }

    method ParseBlock() returns (r: Option<Block>)
      requires Valid()
      modifies this
      ensures Valid() && pos >= old(pos)
      ensures Follows(old(hadError), ParseBraces(old(Rest())), r, hadError, Rest())
      decreases |tokens| - pos, 4
    {
      hide ParseStmts;
      var ok := Expect(LBrace);
      if !ok {
        return None;
      }
      var b := ParseStmtList();
      if hadError {
        return None;
      }
      ok := Expect(RBrace);
      if !ok {
        return None;
      }
      r := Some(b);
    }

    method ParseIfStmt() returns (r: Option<Stmt>)
      requires Valid()
      modifies this
      ensures Valid() && pos >= old(pos)
      ensures Follows(old(hadError), ParseIf(old(Rest())), r, hadError, Rest())
      decreases |tokens| - pos, 5
    {
      hide ParseExpr, ParseBraces;
      var ok := Expect(LParen);
      if !ok {
        return None;
      }
      var cond := ParseThen(RParen);
      if cond.None? {
        return None;
      }
      var thn := ParseBlock();
      if thn.None? {
        return None;
      }
      var els: Block := End;
      if Cur() == KwElse {
        Adv();
        var b := ParseBlock();
        if b.None? {
          return None;
        }
        els := b.value;
      }
      r := Some(If(cond.value, thn.value, els));
    }

    /** The head of a loop up to its initial value: the variable and that value. */
    method ParseForHead() returns (r: Option<(string, Expr)>)
      requires Valid()
      modifies this
      ensures Valid() && pos >= old(pos)
      ensures Follows(old(hadError), ForHead(old(Rest())), r, hadError, Rest())
    {
      hide ParseExpr;
      var ok := Expect(LParen);
      if !ok {
        return None;
      }
      ok := Expect(KwInt);
      if !ok {
        return None;
      }
      assert Rest() == old(Rest())[2..];
      var x := EatIdent();
      if x.None? {
        return None;
      }
      assert Rest() == old(Rest())[3..];
      ok := Expect(AssignTok);
      if !ok {
        return None;
      }
      assert Rest() == old(Rest())[4..];
      var init := ParseThen(Semicolon);
      if init.None? {
        return None;
      }
      r := Some((x.value, init.value));
    }

    /** The condition: the loop variable, `<`, the bound. */
    method ParseForBound(x: string) returns (r: Option<Expr>)
      requires Valid()
      modifies this
      ensures Valid() && pos >= old(pos)
      ensures Follows(old(hadError), ForBound(x, old(Rest())), r, hadError, Rest())
    {
      hide ParseExpr;
      if Cur() != Name(x) {
        hadError := true;
        return None;
      }
      Adv();
      var ok := Expect(OpTok(Lt));
      if !ok {
        return None;
      }
      assert Rest() == old(Rest())[2..];
      r := ParseThen(Semicolon);
    }

    /** The increment: the loop variable, two plus signs, the parenthesis. */
    method ParseForStep(x: string) returns (r: Option<bool>)
      requires Valid()
      modifies this
      ensures Valid() && pos >= old(pos)
      ensures Follows(old(hadError), ForStep(x, old(Rest())), r, hadError, Rest())
    {
      if Cur() != Name(x) {
        hadError := true;
        return None;
      }
      Adv();
      var ok := Expect(OpTok(Plus));
      if !ok {
        return None;
      }
      assert Rest() == old(Rest())[2..];
      ok := Expect(OpTok(Plus));
      if !ok {
        return None;
      }
      assert Rest() == old(Rest())[3..];
      ok := Expect(RParen);
      if !ok {
        return None;
      }
      assert Rest() == old(Rest())[4..];
      r := Some(true);
    }

    method ParseForStmt() returns (r: Option<Stmt>)
      requires Valid()
      modifies this
      ensures Valid() && pos >= old(pos)
      ensures Follows(old(hadError), ParseFor(old(Rest())), r, hadError, Rest())
      decreases |tokens| - pos, 5
    {
      hide ForHead, ForBound, ForStep, ParseBraces;
      var head := ParseForHead();
      if head.None? {
        return None;
      }
      var bound := ParseForBound(head.value.0);
      if bound.None? {
        return None;
      }
      var step := ParseForStep(head.value.0);
      if step.None? {
        return None;
      }
      var body := ParseBlock();
      if body.None? {
        return None;
      }
      r := Some(For(head.value.0, head.value.1, bound.value, body.value));
    }

    /** Statements are appended until the closing brace; behind a faulty one the parser looks for the next semicolon. */
    method ParseStmtList() returns (list: Block)
      requires Valid()
      modifies this
      ensures Valid() && pos >= old(pos) && (old(hadError) ==> hadError)
      ensures !old(hadError) ==> (hadError <==> ParseStmts(old(Rest())).None?)
      ensures !hadError ==> (list, Rest()) == ParseStmts(old(Rest())).value
      decreases |tokens| - pos, 3
    {
      hide ParseStmt;
      list := End;
      BlockNothing(ParseStmts(Rest()));
      while Cur() != RBrace && Cur() != Eof
        invariant Valid() && pos >= old(pos) && (old(hadError) ==> hadError)
        invariant !hadError ==> ParseStmts(old(Rest())) == BlockBehind(list, ParseStmts(Rest()))
        invariant hadError && !old(hadError) ==> ParseStmts(old(Rest())).None?
        decreases |tokens| - pos
      {
        BlockOne(list, Rest());
        var s := ParseStatement();
        if s.None? {
          while Cur() != Semicolon && Cur() != RBrace && Cur() != Eof
            invariant Valid() && pos > old(pos) && hadError
            invariant !old(hadError) ==> ParseStmts(old(Rest())).None?
            decreases |tokens| - pos
          {
            Adv();
          }
          if Cur() == Semicolon {
            Adv();
          }
        } else {
          list := Appended(list, s.value);
        }
      }
      BlockEnd(list, Rest());
    }

    // ----- whole programs -----

    method ParseParameters() returns (r: Option<seq<string>>)
      requires Valid()
      modifies this
      ensures Valid() && pos >= old(pos)
      ensures Follows(old(hadError), ParseParams(old(Rest())), r, hadError, Rest())
    {
      var params: seq<string> := [];
      ParamsNothing(ParseParams(Rest()));
      while Cur() != RParen && Cur() != Eof
        invariant Valid() && pos >= old(pos) && (old(hadError) ==> hadError)
        invariant !old(hadError) ==> !hadError && ParseParams(old(Rest())) == ParamsBehind(params, ParseParams(Rest()))
        decreases |tokens| - pos
      {
        ParamsOne(params, Rest());
        ghost var toks := Rest();
        var ok := Expect(KwInt);
        if !ok {
          return None;
        }
        var x := EatIdent();
        if x.None? {
          return None;
        }
        assert Rest() == toks[2..];
        params := params + [x.value];
        if Cur() != RParen {
          ok := Expect(Comma);
          if !ok {
            return None;
          }
          assert Rest() == toks[3..];
        }
      }
      ParamsEnd(params, Rest());
      var ok := Expect(RParen);
      if !ok {
        return None;
      }
      r := Some(params);
    }

    /** A kernel or a func behind its two keywords. */
    method ParseFunc() returns (r: Option<Func>)
      requires Valid()
      modifies this
      ensures Valid() && pos >= old(pos)
      ensures Follows(old(hadError), ParseBody(old(Rest())), r, hadError, Rest())
    {
      hide ParseParams, ParseBraces;
      var name := EatIdent();
      if name.None? {
        return None;
      }
      var ok := Expect(LParen);
      if !ok {
        return None;
      }
      assert Rest() == old(Rest())[2..];
      var params := ParseParameters();
      if params.None? {
        return None;
      }
      var body := ParseBlock();
      if body.None? {
        return None;
      }
      r := Some(Func(name.value, params.value, body.value));
    }
  }

  /** The whole parser. */
  method Parse(tokens: seq<Token>) returns (r: Option<Program>)
    ensures r == ParseProgram(tokens, Program([], []))
  {
    hide ParseBody;
    var p := new TokenParser(tokens);
    var prog := Program([], []);
    while p.Cur() != Eof
      invariant p.Valid() && !p.hadError && ParseProgram(tokens, Program([], [])) == ParseProgram(p.Rest(), prog)
      invariant fresh(p)
      decreases |p.tokens| - p.pos
    {
      ghost var toks := p.Rest();
      var isFunc := p.Cur() == KwFunc;
      if !isFunc && p.Cur() != KwKernel {
        return None;
      }
      p.Adv();
      var ok := p.Expect(if isFunc then KwInt else KwVoid);
      if !ok {
        return None;
      }
      assert p.Rest() == toks[2..];
      var f := p.ParseFunc();
      if f.None? {
        return None;
      }
      prog := if isFunc then Program(prog.kernels, prog.funcs + [f.value]) else Program(prog.kernels + [f.value], prog.funcs);
    }
    r := Some(prog);
  }

  // ----- pieces of the grammar, as the parser meets them -----

  lemma StmtKinds(toks: seq<Token>)
    ensures Head(toks) == KwIf ==> ParseStmt(toks) == ParseIf(toks[1..])
    ensures Head(toks) == KwFor ==> ParseStmt(toks) == ParseFor(toks[1..])
    ensures Head(toks) !in {KwInt, KwMem, KwIf, KwFor, KwReturn} && !Head(toks).Name? ==> ParseStmt(toks).None?
  {
    hide ParseExpr, ParseIf, ParseFor;
  }

  function Appended(b: Block, s: Stmt): Block {
    match b case End => Block.Seq(s, End) case Seq(h, t) => Block.Seq(h, Appended(t, s))
  }

  function Joined(b: Block, c: Block): Block {
    match b case End => c case Seq(h, t) => Block.Seq(h, Joined(t, c))
  }

  lemma {:induction false} JoinedAppended(b: Block, s: Stmt, c: Block)
    ensures Joined(Appended(b, s), c) == Joined(b, Block.Seq(s, c))
  {
    if b.Seq? {
      JoinedAppended(b.tail, s, c);
    }
  }

  lemma {:induction false} JoinedEnd(b: Block)
    ensures Joined(b, End) == b
  {
    if b.Seq? {
      JoinedEnd(b.tail);
    }
  }

  function BlockBehind(done: Block, rest: Parsed<Block>): Parsed<Block> {
    if rest.None? then None else Some((Joined(done, rest.value.0), rest.value.1))
  }

  lemma BlockNothing(rest: Parsed<Block>)
    ensures BlockBehind(End, rest) == rest
  {
  }

  lemma BlockOne(done: Block, toks: seq<Token>)
    requires Head(toks) != RBrace && Head(toks) != Eof
    ensures var s := ParseStmt(toks);
            BlockBehind(done, ParseStmts(toks))
            == if s.None? then None else BlockBehind(Appended(done, s.value.0), ParseStmts(s.value.1))
  {
    hide ParseStmt;
    var s := ParseStmt(toks);
    if s.Some? && ParseStmts(s.value.1).Some? {
      JoinedAppended(done, s.value.0, ParseStmts(s.value.1).value.0);
    }
  }

  lemma BlockEnd(done: Block, toks: seq<Token>)
    requires Head(toks) == RBrace || Head(toks) == Eof
    ensures BlockBehind(done, ParseStmts(toks)) == Some((done, toks))
  {
    JoinedEnd(done);
  }

  function ParamsBehind(done: seq<string>, rest: Parsed<seq<string>>): Parsed<seq<string>> {
    if rest.None? then None else Some((done + rest.value.0, rest.value.1))
  }

  lemma ParamsNothing(rest: Parsed<seq<string>>)
    ensures ParamsBehind([], rest) == rest
  {
    if rest.Some? {
      assert [] + rest.value.0 == rest.value.0;
    }
  }

  /** One parameter and the rest, in terms of the rest alone. */
  function ParamThen(x: string, rest: Parsed<seq<string>>): Parsed<seq<string>> {
    if rest.None? then None else Some(([x] + rest.value.0, rest.value.1))
  }

  lemma ParamsStep(toks: seq<Token>)
    requires Head(toks) != RParen
    ensures ParseParams(toks)
            == if Head(toks) != KwInt || !Head(toks[1..]).Name? then None
               else if Head(toks[2..]) == RParen then ParamThen(toks[1].name, ParseParams(toks[2..]))
               else if Head(toks[2..]) == Comma then ParamThen(toks[1].name, ParseParams(toks[3..]))
               else None
  {
    if Head(toks) == KwInt && Head(toks[1..]).Name? && Head(toks[2..]) == RParen {
      assert toks[2..][1..] == toks[3..];
      assert [toks[1].name] + [] == [toks[1].name];
    }
  }

  lemma ParamsOne(done: seq<string>, toks: seq<Token>)
    requires Head(toks) != RParen
    ensures ParamsBehind(done, ParseParams(toks))
            == if Head(toks) != KwInt || !Head(toks[1..]).Name? then None
               else if Head(toks[2..]) == RParen then ParamsBehind(done + [toks[1].name], ParseParams(toks[2..]))
               else if Head(toks[2..]) == Comma then ParamsBehind(done + [toks[1].name], ParseParams(toks[3..]))
               else None
  {
    hide ParseParams;
    ParamsStep(toks);
    if Head(toks) == KwInt && Head(toks[1..]).Name? {
      ParamsAssoc(done, toks[1].name, ParseParams(toks[2..]));
      if Head(toks[2..]) == Comma {
        ParamsAssoc(done, toks[1].name, ParseParams(toks[3..]));
      }
    }
  }

  lemma ParamsAssoc(done: seq<string>, x: string, rest: Parsed<seq<string>>)
    ensures ParamsBehind(done, ParamThen(x, rest)) == ParamsBehind(done + [x], rest)
  {
    if rest.Some? {
      assert done + ([x] + rest.value.0) == done + [x] + rest.value.0;
    }
  }

  lemma ParamsEnd(done: seq<string>, toks: seq<Token>)
    requires Head(toks) == RParen || Head(toks) == Eof
    ensures ParamsBehind(done, ParseParams(toks)) == if Head(toks) == RParen then Some((done, toks[1..])) else None
  {
    assert done + [] == done;
  }

  /** Arguments already parsed, in front of the rest of a list. */
  function ListBehind(done: seq<Expr>, rest: Parsed<seq<Expr>>): Parsed<seq<Expr>> {
    if rest.None? then None else Some((done + rest.value.0, rest.value.1))
  }

  lemma ListNothing(rest: Parsed<seq<Expr>>)
    ensures ListBehind([], rest) == rest
  {
    if rest.Some? {
      assert [] + rest.value.0 == rest.value.0;
    }
  }

  lemma ListOne(done: seq<Expr>, toks: seq<Token>)
    requires Head(toks) != RParen
    ensures var e := ParseExpr(toks);
            ListBehind(done, ParseList(toks))
            == if e.None? then None
               else if Head(e.value.1) == RParen then ListBehind(done + [e.value.0], ParseList(e.value.1))
               else if Head(e.value.1) == Comma then ListBehind(done + [e.value.0], ParseList(e.value.1[1..]))
               else None
  {
    hide ParseExpr;
    var e := ParseExpr(toks);
    if e.Some? {
      if Head(e.value.1) == RParen {
        assert done + [e.value.0] + [] == done + [e.value.0];
      } else if Head(e.value.1) == Comma {
        var r := ParseList(e.value.1[1..]);
        if r.Some? {
          assert done + ([e.value.0] + r.value.0) == done + [e.value.0] + r.value.0;
        }
      }
    }
  }

  lemma ListEnd(done: seq<Expr>, toks: seq<Token>)
    requires Head(toks) == RParen || Head(toks) == Eof
    ensures ListBehind(done, ParseList(toks)) == if Head(toks) == RParen then Some((done, toks[1..])) else None
  {
    hide ParsePrimary;
    assert done + [] == done;
    if Head(toks) == Eof {
      NothingAtEof(toks);
    }
  }

  lemma NothingAtEof(toks: seq<Token>)
    requires Head(toks) == Eof
    ensures ParseExpr(toks).None?
  {
    assert ParsePrimary(toks).None?;
    assert ParseUnary(toks).None?;
    assert ParseMul(toks).None?;
    assert ParseAdd(toks).None?;
  }
}
