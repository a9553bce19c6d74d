/** Statements, funcs and kernels: parsing, printing, and the round trip of whole programs. */
module ProgramGrammar {
  import opened Words
  import opened Lang
  import opened Grammar

  // ----- parsing -----

  function ParseStmt(toks: seq<Token>): (r: Parsed<Stmt>)
    ensures r.Some? ==> |r.value.1| < |toks|
    decreases |toks|, 0
  {
    match Head(toks)
    case KwInt =>
      if !Head(toks[1..]).Name? || Head(toks[2..]) != AssignTok then None
      else
        var e := Skip(ParseExpr(toks[3..]), Semicolon);
        if e.None? then None else Some((Decl(toks[1].name, e.value.0), e.value.1))
    case KwMem =>
      if Head(toks[1..]) != LBracket then None
      else
        var a := Skip(Skip(ParseExpr(toks[2..]), RBracket), AssignTok);
        if a.None? then None
        else
          var v := Skip(ParseExpr(a.value.1), Semicolon);
          if v.None? then None else Some((Store(a.value.0, v.value.0), v.value.1))
    case Name(x) =>
      if Head(toks[1..]) != AssignTok then None
      else
        var e := Skip(ParseExpr(toks[2..]), Semicolon);
        if e.None? then None else Some((Assign(x, e.value.0), e.value.1))
    case KwIf => ParseIf(toks[1..])
    case KwFor => ParseFor(toks[1..])
    case KwReturn =>
      if Head(toks[1..]) == Semicolon then Some((Return(None), toks[2..]))
      else
        var e := Skip(ParseExpr(toks[1..]), Semicolon);
        if e.None? then None else Some((Return(Some(e.value.0)), e.value.1))
    case _ => None
  }

  /** A block in braces. */
  function ParseBraces(toks: seq<Token>): (r: Parsed<Block>)
    ensures r.Some? ==> |r.value.1| < |toks|
    decreases |toks|, 2
  {
    if Head(toks) != LBrace then None else Skip(ParseStmts(toks[1..]), RBrace)
  }

  function ParseIf(toks: seq<Token>): (r: Parsed<Stmt>)
    ensures r.Some? ==> |r.value.1| < |toks|
    decreases |toks|, 3
  {
    if Head(toks) != LParen then None
    else
      var c := Skip(ParseExpr(toks[1..]), RParen);
      if c.None? then None
      else
        var t := ParseBraces(c.value.1);
        if t.None? then None
        else if Head(t.value.1) != KwElse then Some((If(c.value.0, t.value.0, End), t.value.1))
        else
          var e := ParseBraces(t.value.1[1..]);
          if e.None? then None else Some((If(c.value.0, t.value.0, e.value.0), e.value.1))
  }

  function ParseFor(toks: seq<Token>): (r: Parsed<Stmt>)
    ensures r.Some? ==> |r.value.1| < |toks|
    decreases |toks|, 3
  {
    var h := ForHead(toks);
    if h.None? then None
    else
      var (x, init) := h.value.0;
      var b := ForBound(x, h.value.1);
      if b.None? then None
      else
        var s := ForStep(x, b.value.1);
        if s.None? then None
        else
          var k := ParseBraces(s.value.1);
          if k.None? then None else Some((For(x, init, b.value.0, k.value.0), k.value.1))
  }

  /** The head of a loop up to its initial value: the variable and that value. */
  function ForHead(toks: seq<Token>): (r: Parsed<(string, Expr)>)
    ensures r.Some? ==> |r.value.1| < |toks|
  {
    if !(Head(toks) == LParen && Head(toks[1..]) == KwInt && Head(toks[2..]).Name? && Head(toks[3..]) == AssignTok) then None
    else
      var i := Skip(ParseExpr(toks[4..]), Semicolon);
      if i.None? then None else Some(((toks[2].name, i.value.0), i.value.1))
  }

  /** The condition: the loop variable, `<`, the bound. */
  function ForBound(x: string, toks: seq<Token>): (r: Parsed<Expr>)
    ensures r.Some? ==> |r.value.1| < |toks|
  {
    if Head(toks) != Name(x) || Head(toks[1..]) != OpTok(Lt) then None else Skip(ParseExpr(toks[2..]), Semicolon)
  }

  /** The increment: the loop variable, two plus signs, the parenthesis. */
  function ForStep(x: string, toks: seq<Token>): (r: Parsed<bool>)
    ensures r.Some? ==> |r.value.1| < |toks|
  {
    if !(Head(toks) == Name(x) && Head(toks[1..]) == OpTok(Plus) && Head(toks[2..]) == OpTok(Plus) && Head(toks[3..]) == RParen) then None
    else Some((true, toks[4..]))
  }

  /** Statements up to a closing brace or the end of the file. */
  function ParseStmts(toks: seq<Token>): (r: Parsed<Block>)
    ensures r.Some? ==> |r.value.1| <= |toks|
    decreases |toks|, 1
  {
    if Head(toks) == RBrace || Head(toks) == Eof then Some((End, toks))
    else
      var s := ParseStmt(toks);
      if s.None? then None
      else
        var k := ParseStmts(s.value.1);
        if k.None? then None else Some((Block.Seq(s.value.0, k.value.0), k.value.1))
  }

  /** Parameters up to the closing parenthesis; a comma may stand before it. */
  function ParseParams(toks: seq<Token>): (r: Parsed<seq<string>>)
    ensures r.Some? ==> |r.value.1| < |toks|
    decreases |toks|
  {
    if Head(toks) == RParen then Some(([], toks[1..]))
    else if Head(toks) != KwInt || !Head(toks[1..]).Name? then None
    else if Head(toks[2..]) == RParen then Some(([toks[1].name], toks[3..]))
    else if Head(toks[2..]) != Comma then None
    else
      var r := ParseParams(toks[3..]);
      if r.None? then None else Some(([toks[1].name] + r.value.0, r.value.1))
  }

  /** A kernel or a func behind its two keywords. */
  function ParseBody(toks: seq<Token>): (r: Parsed<Func>)
    ensures r.Some? ==> |r.value.1| < |toks|
  {
    if !Head(toks).Name? || Head(toks[1..]) != LParen then None
    else
      var ps := ParseParams(toks[2..]);
      if ps.None? then None
      else
        var k := ParseBraces(ps.value.1);
        if k.None? then None else Some((Func(toks[0].name, ps.value.0, k.value.0), k.value.1))
  }

  /** Kernels and funcs in any order, added to those already there. */
  function ParseProgram(toks: seq<Token>, p: Program): Option<Program>
    decreases |toks|
  {
    if Head(toks) == Eof then Some(p)
    else if Head(toks) == KwFunc && Head(toks[1..]) == KwInt then
      var f := ParseBody(toks[2..]);
      if f.None? then None else ParseProgram(f.value.1, Program(p.kernels, p.funcs + [f.value.0]))
    else if Head(toks) == KwKernel && Head(toks[1..]) == KwVoid then
      var k := ParseBody(toks[2..]);
      if k.None? then None else ParseProgram(k.value.1, Program(p.kernels + [k.value.0], p.funcs))
    else None
  }

  // ----- printing -----

  function PrintStmtK(s: Stmt, rest: seq<Token>): seq<Token>
    decreases s, 2
  {
    match s
    case Decl(x, e) => [KwInt, Name(x), AssignTok] + PrintK(e, 0, [Semicolon] + rest)
    case Assign(x, e) => [Name(x), AssignTok] + PrintK(e, 0, [Semicolon] + rest)
    case Store(a, v) => [KwMem, LBracket] + PrintK(a, 0, [RBracket] + ([AssignTok] + PrintK(v, 0, [Semicolon] + rest)))
    case If(c, t, e) =>
      [KwIf, LParen] + PrintK(c, 0, [RParen] + PrintBracesK(t, if e.End? then rest else [KwElse] + PrintBracesK(e, rest)))
    case For(x, i, b, k) =>
      [KwFor, LParen, KwInt, Name(x), AssignTok]
      + PrintK(i, 0, [Semicolon] + ([Name(x), OpTok(Lt)] + PrintK(b, 0, [Semicolon] + ([Name(x), OpTok(Plus), OpTok(Plus), RParen] + PrintBracesK(k, rest)))))
    case Return(None) => [KwReturn, Semicolon] + rest
    case Return(Some(e)) => [KwReturn] + PrintK(e, 0, [Semicolon] + rest)
  }

  function PrintBracesK(b: Block, rest: seq<Token>): seq<Token>
    decreases b, 1
  {
    [LBrace] + PrintStmtsK(b, [RBrace] + rest)
  }

  function PrintStmtsK(b: Block, rest: seq<Token>): seq<Token>
    decreases b, 0
  {
    match b
    case End => rest
    case Seq(s, k) => PrintStmtK(s, PrintStmtsK(k, rest))
  }

  function PrintParamsK(ps: seq<string>, rest: seq<Token>): seq<Token>
    decreases |ps|
  {
    if ps == [] then rest
    else if |ps| == 1 then [KwInt, Name(ps[0])] + rest
    else [KwInt, Name(ps[0]), Comma] + PrintParamsK(ps[1..], rest)
  }

  function PrintBodyK(f: Func, rest: seq<Token>): seq<Token> {
    [Name(f.name), LParen] + PrintParamsK(f.params, [RParen] + PrintBracesK(f.body, rest))
  }

  function PrintKernels(ks: seq<Func>): seq<Token>
    decreases |ks|
  {
    if ks == [] then [] else [KwKernel, KwVoid] + PrintBodyK(ks[0], PrintKernels(ks[1..]))
  }

  function PrintFuncs(fs: seq<Func>, rest: seq<Token>): seq<Token>
    decreases |fs|
  {
    if fs == [] then rest else [KwFunc, KwInt] + PrintBodyK(fs[0], PrintFuncs(fs[1..], rest))
  }

  /** Funcs first, then kernels. */
  function PrintProgram(p: Program): seq<Token> {
    PrintFuncs(p.funcs, PrintKernels(p.kernels))
  }

  predicate WellFormedStmt(s: Stmt)
    decreases s, 1
  {
    match s
    case Decl(_, e) => WellFormed(e)
    case Assign(_, e) => WellFormed(e)
    case Store(a, v) => WellFormed(a) && WellFormed(v)
    case If(c, t, e) => WellFormed(c) && WellFormedBlock(t) && WellFormedBlock(e)
    case For(_, i, b, k) => WellFormed(i) && WellFormed(b) && WellFormedBlock(k)
    case Return(r) => r.Some? ==> WellFormed(r.value)
  }

  predicate WellFormedBlock(b: Block)
    decreases b, 0
  {
    b.Seq? ==> WellFormedStmt(b.head) && WellFormedBlock(b.tail)
  }

  predicate WellFormedProgram(p: Program) {
    (forall f <- p.kernels :: WellFormedBlock(f.body)) && (forall f <- p.funcs :: WellFormedBlock(f.body))
  }

  // ----- the round trip -----

  lemma StmtPrinted(s: Stmt, rest: seq<Token>)
    requires WellFormedStmt(s) && (s.If? ==> Head(rest) != KwElse)
    ensures ParseStmt(PrintStmtK(s, rest)) == Some((s, rest))
    decreases s, 3
  {
    hide ParseExpr, PrintK, WellFormed, ParseIf, ParseFor;
    var toks := PrintStmtK(s, rest);
    match s
    case Decl(x, e) =>
      Fronts([KwInt, Name(x), AssignTok], PrintK(e, 0, [Semicolon] + rest));
      ExprThen(e, Semicolon, rest);
    case Assign(x, e) =>
      Fronts([Name(x), AssignTok], PrintK(e, 0, [Semicolon] + rest));
      ExprThen(e, Semicolon, rest);
    case Store(_, _) => StorePrinted(s, rest);
    case If(_, _, _) => IfPrinted(s, rest);
    case For(_, _, _, _) => ForPrinted(s, rest);
    case Return(None) =>
      assert toks[1] == Semicolon && toks[2..] == rest;
    case Return(Some(e)) =>
      assert toks[1..] == PrintK(e, 0, [Semicolon] + rest);
      NotAtSemicolon(e, 0, [Semicolon] + rest);
      ExprThen(e, Semicolon, rest);
  }

  lemma StorePrinted(s: Stmt, rest: seq<Token>)
    requires s.Store? && WellFormedStmt(s)
    ensures ParseStmt(PrintStmtK(s, rest)) == Some((s, rest))
  {
    hide ParseExpr, PrintK, WellFormed;
    var tail := [AssignTok] + PrintK(s.val, 0, [Semicolon] + rest);
    Fronts([KwMem, LBracket], PrintK(s.addr, 0, [RBracket] + tail));
    ExprThen(s.addr, RBracket, tail);
    assert tail[1..] == PrintK(s.val, 0, [Semicolon] + rest);
    ExprThen(s.val, Semicolon, rest);
  }

  lemma NotAtSemicolon(e: Expr, level: nat, rest: seq<Token>)
    requires WellFormed(e)
    ensures Head(PrintK(e, level, rest)) != Semicolon
    decreases e
  {
    if Binary(e) {
      BinaryParts(e);
      var lv := LevelOf(e.op);
      NotAtSemicolon(e.args[0], if lv == 0 then 1 else lv, [OpTok(e.op)] + PrintK(e.args[1], lv + 1, rest));
    }
  }

  lemma IfPrinted(s: Stmt, rest: seq<Token>)
    requires s.If? && WellFormedStmt(s) && Head(rest) != KwElse
    ensures PrintStmtK(s, rest)[0] == KwIf && ParseStmt(PrintStmtK(s, rest)) == Some((s, rest))
    decreases s, 2
  {
    hide ParseExpr, PrintK, WellFormed, ParseBraces, PrintBracesK;
    var toks := PrintStmtK(s, rest);
    var more := if s.els.End? then rest else [KwElse] + PrintBracesK(s.els, rest);
    var arms := PrintBracesK(s.thn, more);
    assert toks[1..][0] == LParen && toks[1..][1..] == PrintK(s.cond, 0, [RParen] + arms);
    ExprThen(s.cond, RParen, arms);
    BracesPrinted(s.thn, more);
    if !s.els.End? {
      assert more[1..] == PrintBracesK(s.els, rest);
      BracesPrinted(s.els, rest);
    }
  }

  lemma ForPrinted(s: Stmt, rest: seq<Token>)
    requires s.For? && WellFormedStmt(s)
    ensures PrintStmtK(s, rest)[0] == KwFor && ParseStmt(PrintStmtK(s, rest)) == Some((s, rest))
    decreases s, 2
  {
    hide ParseExpr, PrintK, WellFormed, ParseBraces, PrintBracesK, ForHead, ForBound, ForStep;
    var third := [Name(s.v), OpTok(Plus), OpTok(Plus), RParen] + PrintBracesK(s.body, rest);
    var second := [Name(s.v), OpTok(Lt)] + PrintK(s.bound, 0, [Semicolon] + third);
    var first := [LParen, KwInt, Name(s.v), AssignTok] + PrintK(s.init, 0, [Semicolon] + second);
    assert PrintStmtK(s, rest)[1..] == first;
    ForHeadPrinted(s.v, s.init, second);
    ForBoundPrinted(s.v, s.bound, third);
    ForStepPrinted(s.v, PrintBracesK(s.body, rest));
    BracesPrinted(s.body, rest);
  }

  lemma ForHeadPrinted(x: string, e: Expr, rest: seq<Token>)
    requires WellFormed(e)
    ensures ForHead([LParen, KwInt, Name(x), AssignTok] + PrintK(e, 0, [Semicolon] + rest)) == Some(((x, e), rest))
  {
    hide ParseExpr, PrintK, WellFormed;
    ExprThen(e, Semicolon, rest);
    Fronts([LParen, KwInt, Name(x), AssignTok], PrintK(e, 0, [Semicolon] + rest));
  }

  lemma ForBoundPrinted(x: string, e: Expr, rest: seq<Token>)
    requires WellFormed(e)
    ensures ForBound(x, [Name(x), OpTok(Lt)] + PrintK(e, 0, [Semicolon] + rest)) == Some((e, rest))
  {
    hide ParseExpr, PrintK, WellFormed;
    ExprThen(e, Semicolon, rest);
    Fronts([Name(x), OpTok(Lt)], PrintK(e, 0, [Semicolon] + rest));
  }

  lemma ForStepPrinted(x: string, rest: seq<Token>)
    ensures ForStep(x, [Name(x), OpTok(Plus), OpTok(Plus), RParen] + rest) == Some((true, rest))
  {
    Fronts([Name(x), OpTok(Plus), OpTok(Plus), RParen], rest);
  }

  /** What a parser meets that skips some tokens one by one. */
  lemma Fronts(front: seq<Token>, rest: seq<Token>)
    ensures forall k :: 0 <= k < |front| ==> Head((front + rest)[k..]) == front[k]
    ensures (front + rest)[0..] == front + rest && (front + rest)[|front|..] == rest
  {
    forall k | 0 <= k < |front|
      ensures Head((front + rest)[k..]) == front[k]
    {
      assert (front + rest)[k..][0] == front[k];
    }
  }

  lemma BracesPrinted(b: Block, rest: seq<Token>)
    requires WellFormedBlock(b)
    ensures ParseBraces(PrintBracesK(b, rest)) == Some((b, rest))
    decreases b, 1
  {
    hide ParseStmts, PrintStmtsK;
    var toks := PrintBracesK(b, rest);
    assert toks[1..] == PrintStmtsK(b, [RBrace] + rest);
    StmtsPrinted(b, [RBrace] + rest);
    assert ([RBrace] + rest)[1..] == rest;
  }

  lemma StmtsPrinted(b: Block, rest: seq<Token>)
    requires WellFormedBlock(b) && Head(rest) == RBrace
    ensures ParseStmts(PrintStmtsK(b, rest)) == Some((b, rest))
    decreases b, 0
  {
    hide ParseStmt, PrintStmtK, WellFormedStmt;
    if b.Seq? {
      StmtsBegin(b.tail, rest);
      StmtBegins(b.head, PrintStmtsK(b.tail, rest));
      StmtPrinted(b.head, PrintStmtsK(b.tail, rest));
      StmtsPrinted(b.tail, rest);
    }
  }

  /** A statement begins with a token of its own. */
  lemma StmtBegins(s: Stmt, rest: seq<Token>)
    ensures Head(PrintStmtK(s, rest)) !in {RBrace, Eof, KwElse}
  {
  }

  lemma StmtsBegin(b: Block, rest: seq<Token>)
    requires Head(rest) == RBrace
    ensures Head(PrintStmtsK(b, rest)) != KwElse
  {
    if b.Seq? {
      StmtBegins(b.head, PrintStmtsK(b.tail, rest));
    }
  }

  lemma {:induction false} ParamsPrinted(ps: seq<string>, rest: seq<Token>)
    ensures ParseParams(PrintParamsK(ps, [RParen] + rest)) == Some((ps, rest))
    decreases |ps|
  {
    var close := [RParen] + rest;
    var toks := PrintParamsK(ps, close);
    if ps == [] {
      assert close[1..] == rest;
    } else if |ps| == 1 {
      assert toks[1..][0] == Name(ps[0]) && toks[2..][0] == RParen && toks[3..] == rest;
      assert ps == [ps[0]];
    } else {
      assert toks[1..][0] == Name(ps[0]) && toks[2..][0] == Comma && toks[3..] == PrintParamsK(ps[1..], close);
      ParamsPrinted(ps[1..], rest);
      assert ps == [ps[0]] + ps[1..];
    }
  }

  lemma BodyPrinted(f: Func, rest: seq<Token>)
    requires WellFormedBlock(f.body)
    ensures ParseBody(PrintBodyK(f, rest)) == Some((f, rest))
  {
    hide ParseParams, PrintParamsK, ParseBraces, PrintBracesK, WellFormedBlock;
    var toks := PrintBodyK(f, rest);
    var body := PrintBracesK(f.body, rest);
    assert toks[1..][0] == LParen && toks[2..] == PrintParamsK(f.params, [RParen] + body);
    ParamsPrinted(f.params, body);
    BracesPrinted(f.body, rest);
  }

  lemma {:induction false} KernelsPrinted(ks: seq<Func>, p: Program)
    requires forall f <- ks :: WellFormedBlock(f.body)
    ensures ParseProgram(PrintKernels(ks), p) == Some(Program(p.kernels + ks, p.funcs))
    decreases |ks|
  {
    hide ParseBody, PrintBodyK, WellFormedBlock;
    if ks == [] {
      assert p.kernels + ks == p.kernels;
    } else {
      var toks := PrintKernels(ks);
      assert toks[1..][0] == KwVoid && toks[2..] == PrintBodyK(ks[0], PrintKernels(ks[1..]));
      BodyPrinted(ks[0], PrintKernels(ks[1..]));
      KernelsPrinted(ks[1..], Program(p.kernels + [ks[0]], p.funcs));
      assert p.kernels + [ks[0]] + ks[1..] == p.kernels + ks;
    }
  }

  lemma {:induction false} FuncsPrinted(fs: seq<Func>, rest: seq<Token>, p: Program)
    requires forall f <- fs :: WellFormedBlock(f.body)
    ensures ParseProgram(PrintFuncs(fs, rest), p) == ParseProgram(rest, Program(p.kernels, p.funcs + fs))
    decreases |fs|
  {
    hide ParseBody, PrintBodyK, WellFormedBlock;
    if fs == [] {
      assert p.funcs + fs == p.funcs;
    } else {
      var toks := PrintFuncs(fs, rest);
      assert toks[1..][0] == KwInt && toks[2..] == PrintBodyK(fs[0], PrintFuncs(fs[1..], rest));
      BodyPrinted(fs[0], PrintFuncs(fs[1..], rest));
      FuncsPrinted(fs[1..], rest, Program(p.kernels, p.funcs + [fs[0]]));
      assert p.funcs + [fs[0]] + fs[1..] == p.funcs + fs;
    }
  }

  /** Parsing the tokens of a program gives the program back. */
  lemma ProgramPrinted(p: Program)
    requires WellFormedProgram(p)
    ensures ParseProgram(PrintProgram(p), Program([], [])) == Some(p)
  {
    hide WellFormedBlock, ParseProgram, PrintFuncs, PrintKernels;
    FuncsPrinted(p.funcs, PrintKernels(p.kernels), Program([], []));
    assert [] + p.funcs == p.funcs && [] + p.kernels == p.kernels;
    KernelsPrinted(p.kernels, Program([], p.funcs));
  }
}
