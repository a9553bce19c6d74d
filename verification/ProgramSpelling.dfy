/** What statements, funcs and whole programs may look like, apart from any parser; the parser accepts just the token
    sequences that spell a program, and returns the program they mean. */
module ProgramSpelling {
  import opened Words
  import opened Lang
  import opened Grammar
  import opened ProgramGrammar
  import opened Spelling

  /** Concrete statements; an `else` may be left out or stand before an empty block. */
  datatype StmtSp =
    | DeclSp(x: string, e: Spelling)
    | AssignSp(x: string, e: Spelling)
    | StoreSp(a: Spelling, v: Spelling)
    | IfSp(c: Spelling, thn: BlockSp, els: Option<BlockSp>)
    | ForSp(x: string, init: Spelling, bound: Spelling, body: BlockSp)
    | ReturnSp
    | ReturnValueSp(e: Spelling)

  datatype BlockSp = EndSp | SeqSp(head: StmtSp, tail: BlockSp)

  predicate StmtSpelled(s: StmtSp)
    decreases s, 1
  {
    match s
    case DeclSp(_, e) => Spelled(e)
    case AssignSp(_, e) => Spelled(e)
    case StoreSp(a, v) => Spelled(a) && Spelled(v)
    case IfSp(c, thn, els) => Spelled(c) && BlockSpelled(thn) && (els.Some? ==> BlockSpelled(els.value))
    case ForSp(_, init, bound, body) => Spelled(init) && Spelled(bound) && BlockSpelled(body)
    case ReturnSp => true
    case ReturnValueSp(e) => Spelled(e)
  }

  predicate BlockSpelled(b: BlockSp)
    decreases b, 0
  {
    b.SeqSp? ==> StmtSpelled(b.head) && BlockSpelled(b.tail)
  }

  function SpellStmt(s: StmtSp, rest: seq<Token>): seq<Token>
    decreases s, 2
  {
    match s
    case DeclSp(x, e) => [KwInt, Name(x), AssignTok] + Spell(e, [Semicolon] + rest)
    case AssignSp(x, e) => [Name(x), AssignTok] + Spell(e, [Semicolon] + rest)
    case StoreSp(a, v) => [KwMem, LBracket] + Spell(a, [RBracket] + ([AssignTok] + Spell(v, [Semicolon] + rest)))
    case IfSp(c, thn, els) =>
      [KwIf, LParen] + Spell(c, [RParen] + SpellBraces(thn, if els.None? then rest else [KwElse] + SpellBraces(els.value, rest)))
    case ForSp(x, init, bound, body) =>
      [KwFor, LParen, KwInt, Name(x), AssignTok]
      + Spell(init, [Semicolon] + ([Name(x), OpTok(Lt)] + Spell(bound, [Semicolon] + ([Name(x), OpTok(Plus), OpTok(Plus), RParen] + SpellBraces(body, rest)))))
    case ReturnSp => [KwReturn, Semicolon] + rest
    case ReturnValueSp(e) => [KwReturn] + Spell(e, [Semicolon] + rest)
  }

  function SpellBraces(b: BlockSp, rest: seq<Token>): seq<Token>
    decreases b, 1
  {
    [LBrace] + SpellStmts(b, [RBrace] + rest)
  }

  function SpellStmts(b: BlockSp, rest: seq<Token>): seq<Token>
    decreases b, 0
  {
    match b
    case EndSp => rest
    case SeqSp(s, k) => SpellStmt(s, SpellStmts(k, rest))
  }

  function StmtMeant(s: StmtSp): Stmt
    decreases s, 1
  {
    match s
    case DeclSp(x, e) => Decl(x, Meant(e))
    case AssignSp(x, e) => Assign(x, Meant(e))
    case StoreSp(a, v) => Store(Meant(a), Meant(v))
    case IfSp(c, thn, els) => If(Meant(c), BlockMeant(thn), if els.None? then End else BlockMeant(els.value))
    case ForSp(x, init, bound, body) => For(x, Meant(init), Meant(bound), BlockMeant(body))
    case ReturnSp => Return(None)
    case ReturnValueSp(e) => Return(Some(Meant(e)))
  }

  function BlockMeant(b: BlockSp): Block
    decreases b, 0
  {
    match b
    case EndSp => End
    case SeqSp(s, k) => Block.Seq(StmtMeant(s), BlockMeant(k))
  }

  /** A kernel or a func: its parameters may end in a comma. */
  datatype Item = Item(isFunc: bool, name: string, params: seq<string>, comma: bool, body: BlockSp)

  predicate ItemSpelled(i: Item) {
    BlockSpelled(i.body) && (i.comma ==> i.params != [])
  }

  function SpellParams(ps: seq<string>, comma: bool, rest: seq<Token>): seq<Token>
    decreases |ps|
  {
    if ps == [] then [RParen] + rest
    else if |ps| == 1 then [KwInt, Name(ps[0])] + ((if comma then [Comma, RParen] else [RParen]) + rest)
    else [KwInt, Name(ps[0]), Comma] + SpellParams(ps[1..], comma, rest)
  }

  function SpellBody(i: Item, rest: seq<Token>): seq<Token> {
    [Name(i.name), LParen] + SpellParams(i.params, i.comma, SpellBraces(i.body, rest))
  }

  /** Kernels and funcs in any order. */
  function SpellItems(items: seq<Item>, rest: seq<Token>): seq<Token>
    decreases |items|
  {
    if items == [] then rest
    else (if items[0].isFunc then [KwFunc, KwInt] else [KwKernel, KwVoid]) + SpellBody(items[0], SpellItems(items[1..], rest))
  }

  function ItemMeant(i: Item): Func { Func(i.name, i.params, BlockMeant(i.body)) }

  /** The funcs, or the kernels, among the items, in their order. */
  function Chosen(items: seq<Item>, funcs: bool): seq<Func> {
    if items == [] then []
    else (if items[0].isFunc == funcs then [ItemMeant(items[0])] else []) + Chosen(items[1..], funcs)
  }

  function ProgramMeant(items: seq<Item>): Program {
    Program(Chosen(items, false), Chosen(items, true))
  }

  // ----- what is spelled is read -----

  lemma ReadStmt(s: StmtSp, rest: seq<Token>)
    requires StmtSpelled(s) && (s.IfSp? && s.els.None? ==> Head(rest) != KwElse)
    ensures ParseStmt(SpellStmt(s, rest)) == Some((StmtMeant(s), rest))
    decreases s, 3
  {
    hide ParseExpr, Spell, Spelled, Meant, ParseIf, ParseFor, Skip;
    var toks := SpellStmt(s, rest);
    match s
    case DeclSp(x, e) =>
      Fronts([KwInt, Name(x), AssignTok], Spell(e, [Semicolon] + rest));
      ReadThen(e, Semicolon, rest);
    case AssignSp(x, e) =>
      Fronts([Name(x), AssignTok], Spell(e, [Semicolon] + rest));
      ReadThen(e, Semicolon, rest);
    case StoreSp(_, _) => ReadStore(s, rest);
    case IfSp(_, _, _) =>
      ReadIf(s, rest);
    case ForSp(_, _, _, _) =>
      ReadFor(s, rest);
    case ReturnSp => Fronts([KwReturn, Semicolon], rest);
    case ReturnValueSp(e) =>
      assert toks[1..] == Spell(e, [Semicolon] + rest);
      SpellNotSemicolon(e, [Semicolon] + rest);
      ReadThen(e, Semicolon, rest);
  }

  lemma ReadStore(s: StmtSp, rest: seq<Token>)
    requires s.StoreSp? && StmtSpelled(s)
    ensures ParseStmt(SpellStmt(s, rest)) == Some((StmtMeant(s), rest))
  {
    hide ParseExpr, Spell, Spelled, Meant;
    var tail := [AssignTok] + Spell(s.v, [Semicolon] + rest);
    Fronts([KwMem, LBracket], Spell(s.a, [RBracket] + tail));
    ReadThen(s.a, RBracket, tail);
    assert tail[1..] == Spell(s.v, [Semicolon] + rest);
    ReadThen(s.v, Semicolon, rest);
  }

  lemma SpellNotSemicolon(s: Spelling, rest: seq<Token>)
    requires Spelled(s)
    ensures Head(Spell(s, rest)) != Semicolon
    decreases s
  {
    if s.Infix? {
      SpellNotSemicolon(s.l, [OpTok(s.op)] + Spell(s.r, rest));
    }
  }

  lemma ReadIf(s: StmtSp, rest: seq<Token>)
    requires s.IfSp? && StmtSpelled(s) && (s.els.None? ==> Head(rest) != KwElse)
    ensures SpellStmt(s, rest)[0] == KwIf && ParseStmt(SpellStmt(s, rest)) == Some((StmtMeant(s), rest))
    decreases s, 2
  {
    hide ParseExpr, Spell, Spelled, Meant, ParseBraces, SpellBraces, BlockMeant;
    var toks := SpellStmt(s, rest);
    var more := if s.els.None? then rest else [KwElse] + SpellBraces(s.els.value, rest);
    var arms := SpellBraces(s.thn, more);
    assert toks[1..][0] == LParen && toks[1..][1..] == Spell(s.c, [RParen] + arms);
    ReadThen(s.c, RParen, arms);
    ReadBraces(s.thn, more);
    if s.els.Some? {
      assert more[1..] == SpellBraces(s.els.value, rest);
      ReadBraces(s.els.value, rest);
    }
  }

  lemma ReadFor(s: StmtSp, rest: seq<Token>)
    requires s.ForSp? && StmtSpelled(s)
    ensures SpellStmt(s, rest)[0] == KwFor && ParseStmt(SpellStmt(s, rest)) == Some((StmtMeant(s), rest))
    decreases s, 2
  {
    hide ParseExpr, Spell, Spelled, Meant, ParseBraces, SpellBraces, BlockMeant, ForHead, ForBound, ForStep;
    var third := [Name(s.x), OpTok(Plus), OpTok(Plus), RParen] + SpellBraces(s.body, rest);
    var second := [Name(s.x), OpTok(Lt)] + Spell(s.bound, [Semicolon] + third);
    var first := [LParen, KwInt, Name(s.x), AssignTok] + Spell(s.init, [Semicolon] + second);
    assert SpellStmt(s, rest)[1..] == first;
    ReadForHead(s.x, s.init, second);
    ReadForBound(s.x, s.bound, third);
    ForStepPrinted(s.x, SpellBraces(s.body, rest));
    ReadBraces(s.body, rest);
  }

  lemma ReadForHead(x: string, e: Spelling, rest: seq<Token>)
    requires Spelled(e)
    ensures ForHead([LParen, KwInt, Name(x), AssignTok] + Spell(e, [Semicolon] + rest)) == Some(((x, Meant(e)), rest))
  {
    hide ParseExpr, Spell, Spelled, Meant;
    ReadThen(e, Semicolon, rest);
    Fronts([LParen, KwInt, Name(x), AssignTok], Spell(e, [Semicolon] + rest));
  }

  lemma ReadForBound(x: string, e: Spelling, rest: seq<Token>)
    requires Spelled(e)
    ensures ForBound(x, [Name(x), OpTok(Lt)] + Spell(e, [Semicolon] + rest)) == Some((Meant(e), rest))
  {
    hide ParseExpr, Spell, Spelled, Meant;
    ReadThen(e, Semicolon, rest);
    Fronts([Name(x), OpTok(Lt)], Spell(e, [Semicolon] + rest));
  }

  lemma ReadBraces(b: BlockSp, rest: seq<Token>)
    requires BlockSpelled(b)
    ensures ParseBraces(SpellBraces(b, rest)) == Some((BlockMeant(b), rest))
    decreases b, 1
  {
    hide ParseStmts, SpellStmts;
    assert SpellBraces(b, rest)[1..] == SpellStmts(b, [RBrace] + rest);
    ReadStmts(b, [RBrace] + rest);
    assert ([RBrace] + rest)[1..] == rest;
  }

  lemma ReadStmts(b: BlockSp, rest: seq<Token>)
    requires BlockSpelled(b) && Head(rest) == RBrace
    ensures ParseStmts(SpellStmts(b, rest)) == Some((BlockMeant(b), rest))
    decreases b, 0
  {
    hide ParseStmt, SpellStmt, StmtSpelled, StmtMeant;
    if b.SeqSp? {
      StmtsSpellBegin(b.tail, rest);
      StmtSpellBegins(b.head, SpellStmts(b.tail, rest));
      ReadStmt(b.head, SpellStmts(b.tail, rest));
      ReadStmts(b.tail, rest);
    }
  }

  lemma StmtSpellBegins(s: StmtSp, rest: seq<Token>)
    ensures Head(SpellStmt(s, rest)) !in {RBrace, Eof, KwElse}
  {
  }

  lemma StmtsSpellBegin(b: BlockSp, rest: seq<Token>)
    requires Head(rest) == RBrace
    ensures Head(SpellStmts(b, rest)) != KwElse
  {
    if b.SeqSp? {
      StmtSpellBegins(b.head, SpellStmts(b.tail, rest));
    }
  }

  lemma {:induction false} ReadParams(ps: seq<string>, comma: bool, rest: seq<Token>)
    requires comma ==> ps != []
    ensures ParseParams(SpellParams(ps, comma, rest)) == Some((ps, rest))
    decreases |ps|
  {
    if ps == [] {
      assert ([RParen] + rest)[1..] == rest;
    } else if |ps| == 1 {
      ReadLastParam(ps[0], comma, rest);
      assert ps == [ps[0]];
    } else {
      Fronts([KwInt, Name(ps[0]), Comma], SpellParams(ps[1..], comma, rest));
      ReadParams(ps[1..], comma, rest);
      hide SpellParams;
      assert ps == [ps[0]] + ps[1..];
    }
  }

  lemma ReadLastParam(x: string, comma: bool, rest: seq<Token>)
    ensures ParseParams([KwInt, Name(x)] + ((if comma then [Comma, RParen] else [RParen]) + rest)) == Some(([x], rest))
  {
    if comma {
      assert [KwInt, Name(x)] + ([Comma, RParen] + rest) == [KwInt, Name(x), Comma, RParen] + rest;
      Fronts([KwInt, Name(x), Comma, RParen], rest);
      assert ([KwInt, Name(x), Comma, RParen] + rest)[3..] == [RParen] + rest && ([RParen] + rest)[1..] == rest;
      assert ParseParams([RParen] + rest) == Some(([], rest));
      assert [x] + [] == [x];
    } else {
      assert [KwInt, Name(x)] + ([RParen] + rest) == [KwInt, Name(x), RParen] + rest;
      Fronts([KwInt, Name(x), RParen], rest);
    }
  }

  lemma ReadBody(i: Item, rest: seq<Token>)
    requires ItemSpelled(i)
    ensures ParseBody(SpellBody(i, rest)) == Some((ItemMeant(i), rest))
  {
    hide ParseParams, SpellParams, ParseBraces, SpellBraces, BlockSpelled, BlockMeant;
    Fronts([Name(i.name), LParen], SpellParams(i.params, i.comma, SpellBraces(i.body, rest)));
    ReadParams(i.params, i.comma, SpellBraces(i.body, rest));
    ReadBraces(i.body, rest);
  }

  /** A program with the items behind those already read. */
  function Extended(p: Program, items: seq<Item>): Program {
    Program(p.kernels + Chosen(items, false), p.funcs + Chosen(items, true))
  }

  lemma ExtendedOnce(p: Program, items: seq<Item>)
    requires items != []
    ensures Extended(p, items)
            == Extended(if items[0].isFunc then Program(p.kernels, p.funcs + [ItemMeant(items[0])])
                        else Program(p.kernels + [ItemMeant(items[0])], p.funcs), items[1..])
  {
    var f := [ItemMeant(items[0])];
    assert p.kernels + ([] + Chosen(items[1..], false)) == p.kernels + Chosen(items[1..], false);
    assert p.kernels + (f + Chosen(items[1..], false)) == p.kernels + f + Chosen(items[1..], false);
    assert p.funcs + ([] + Chosen(items[1..], true)) == p.funcs + Chosen(items[1..], true);
    assert p.funcs + (f + Chosen(items[1..], true)) == p.funcs + f + Chosen(items[1..], true);
  }

  lemma {:induction false} ReadItems(items: seq<Item>, rest: seq<Token>, p: Program)
    requires (forall i <- items :: ItemSpelled(i)) && Head(rest) == Eof
    ensures ParseProgram(SpellItems(items, rest), p) == Some(Extended(p, items))
    decreases |items|
  {
    hide ParseBody, SpellBody, ItemSpelled, ItemMeant, Extended;
    if items == [] {
      assert Extended(p, items) == p by { ExtendedNothing(p); }
    } else {
      var i := items[0];
      var after := SpellItems(items[1..], rest);
      Fronts(if i.isFunc then [KwFunc, KwInt] else [KwKernel, KwVoid], SpellBody(i, after));
      ReadBody(i, after);
      ExtendedOnce(p, items);
      ReadItems(items[1..], rest, if i.isFunc then Program(p.kernels, p.funcs + [ItemMeant(i)]) else Program(p.kernels + [ItemMeant(i)], p.funcs));
    }
  }

  lemma ExtendedNothing(p: Program)
    ensures Extended(p, []) == p
  {
    assert p.kernels + [] == p.kernels && p.funcs + [] == p.funcs;
  }

  // ----- what is read was spelled -----

  lemma FoundStmt(toks: seq<Token>) returns (s: StmtSp)
    requires ParseStmt(toks).Some?
    ensures StmtSpelled(s) && StmtMeant(s) == ParseStmt(toks).value.0 && SpellStmt(s, ParseStmt(toks).value.1) == toks
    decreases |toks|, 1
  {
    hide ParseExpr, Spell, Spelled, Meant, ParseIf, ParseFor, SpellBraces, BlockMeant, BlockSpelled, Skip;
    match Head(toks)
    case KwInt =>
      assert toks == [KwInt, Name(toks[1].name), AssignTok] + toks[3..];
      var e := FoundThen(toks[3..], Semicolon);
      s := DeclSp(toks[1].name, e);
    case KwMem => s := FoundStore(toks);
    case Name(x) =>
      assert toks == [Name(x), AssignTok] + toks[2..];
      var e := FoundThen(toks[2..], Semicolon);
      s := AssignSp(x, e);
    case KwIf => s := FoundIf(toks);
    case KwFor => s := FoundFor(toks);
    case KwReturn =>
      if Head(toks[1..]) == Semicolon {
        assert toks == [KwReturn, Semicolon] + toks[2..];
        s := ReturnSp;
      } else {
        assert toks == [KwReturn] + toks[1..];
        var e := FoundThen(toks[1..], Semicolon);
        s := ReturnValueSp(e);
      }
    case _ => assert false;
  }

  lemma FoundStore(toks: seq<Token>) returns (s: StmtSp)
    requires Head(toks) == KwMem && ParseStmt(toks).Some?
    ensures StmtSpelled(s) && StmtMeant(s) == ParseStmt(toks).value.0 && SpellStmt(s, ParseStmt(toks).value.1) == toks
  {
    hide ParseExpr, Spell, Spelled, Meant;
    assert toks == [KwMem, LBracket] + toks[2..];
    var a := FoundThen(toks[2..], RBracket);
    var after := Skip(ParseExpr(toks[2..]), RBracket).value.1;
    assert after == [AssignTok] + after[1..];
    var v := FoundThen(after[1..], Semicolon);
    s := StoreSp(a, v);
  }

  lemma FoundBraces(toks: seq<Token>) returns (b: BlockSp)
    requires ParseBraces(toks).Some?
    ensures BlockSpelled(b) && BlockMeant(b) == ParseBraces(toks).value.0 && SpellBraces(b, ParseBraces(toks).value.1) == toks
    decreases |toks|, 3
  {
    hide ParseStmts, SpellStmts, BlockSpelled, BlockMeant;
    assert toks == [LBrace] + toks[1..];
    b := FoundStmts(toks[1..]);
    var after := ParseStmts(toks[1..]).value.1;
    assert after == [RBrace] + after[1..];
  }

  lemma FoundStmts(toks: seq<Token>) returns (b: BlockSp)
    requires ParseStmts(toks).Some?
    ensures BlockSpelled(b) && BlockMeant(b) == ParseStmts(toks).value.0 && SpellStmts(b, ParseStmts(toks).value.1) == toks
    decreases |toks|, 2
  {
    hide ParseStmt, SpellStmt, StmtSpelled, StmtMeant;
    b := EndSp;
    if Head(toks) != RBrace && Head(toks) != Eof {
      var s := FoundStmt(toks);
      var k := FoundStmts(ParseStmt(toks).value.1);
      b := SeqSp(s, k);
    }
  }

  lemma FoundIf(toks: seq<Token>) returns (s: StmtSp)
    requires Head(toks) == KwIf && ParseIf(toks[1..]).Some?
    ensures StmtSpelled(s) && StmtMeant(s) == ParseIf(toks[1..]).value.0 && SpellStmt(s, ParseIf(toks[1..]).value.1) == toks
    decreases |toks|, 0
  {
    hide ParseExpr, Spell, Spelled, Meant, ParseBraces, SpellBraces, BlockMeant, BlockSpelled;
    assert toks == [KwIf, LParen] + toks[1..][1..];
    var c := FoundThen(toks[1..][1..], RParen);
    var arms := Skip(ParseExpr(toks[1..][1..]), RParen).value.1;
    var thn := FoundBraces(arms);
    var after := ParseBraces(arms).value.1;
    if Head(after) == KwElse {
      assert after == [KwElse] + after[1..];
      var els := FoundBraces(after[1..]);
      s := IfSp(c, thn, Some(els));
    } else {
      s := IfSp(c, thn, None);
    }
  }

  lemma FoundFor(toks: seq<Token>) returns (s: StmtSp)
    requires Head(toks) == KwFor && ParseFor(toks[1..]).Some?
    ensures StmtSpelled(s) && StmtMeant(s) == ParseFor(toks[1..]).value.0 && SpellStmt(s, ParseFor(toks[1..]).value.1) == toks
    decreases |toks|, 0
  {
    hide ParseExpr, Spell, Spelled, Meant, ParseBraces, SpellBraces, BlockMeant, BlockSpelled, ForHead, ForBound, ForStep;
    var first := toks[1..];
    var h := ForHead(first).value;
    var init := FoundForHead(first);
    var x := h.0.0;
    var bound := FoundForBound(x, h.1);
    var b := ForBound(x, h.1).value;
    FoundForStep(x, b.1);
    var st := ForStep(x, b.1).value;
    var body := FoundBraces(st.1);
    assert toks == [KwFor] + first;
    assert [KwFor] + ([LParen, KwInt, Name(x), AssignTok] + Spell(init, [Semicolon] + h.1))
        == [KwFor, LParen, KwInt, Name(x), AssignTok] + Spell(init, [Semicolon] + h.1);
    s := ForSp(x, init, bound, body);
  }

  lemma FoundForHead(toks: seq<Token>) returns (e: Spelling)
    requires ForHead(toks).Some?
    ensures var h := ForHead(toks).value;
            Spelled(e) && Meant(e) == h.0.1 && toks == [LParen, KwInt, Name(h.0.0), AssignTok] + Spell(e, [Semicolon] + h.1)
  {
    hide ParseExpr, Spell, Spelled, Meant;
    assert toks == [LParen, KwInt, Name(toks[2].name), AssignTok] + toks[4..];
    e := FoundThen(toks[4..], Semicolon);
  }

  lemma FoundForBound(x: string, toks: seq<Token>) returns (e: Spelling)
    requires ForBound(x, toks).Some?
    ensures var b := ForBound(x, toks).value;
            Spelled(e) && Meant(e) == b.0 && toks == [Name(x), OpTok(Lt)] + Spell(e, [Semicolon] + b.1)
  {
    hide ParseExpr, Spell, Spelled, Meant;
    assert toks == [Name(x), OpTok(Lt)] + toks[2..];
    e := FoundThen(toks[2..], Semicolon);
  }

  lemma FoundForStep(x: string, toks: seq<Token>)
    requires ForStep(x, toks).Some?
    ensures toks == [Name(x), OpTok(Plus), OpTok(Plus), RParen] + ForStep(x, toks).value.1
  {
  }

  lemma FoundParams(toks: seq<Token>) returns (comma: bool)
    requires ParseParams(toks).Some?
    ensures var (ps, rest) := ParseParams(toks).value; (comma ==> ps != []) && SpellParams(ps, comma, rest) == toks
    decreases |toks|
  {
    comma := false;
    if Head(toks) == RParen {
      assert toks == [RParen] + toks[1..];
    } else if Head(toks[2..]) == RParen {
      assert toks == [KwInt, Name(toks[1].name)] + ([RParen] + toks[3..]);
    } else {
      assert toks == [KwInt, Name(toks[1].name), Comma] + toks[3..];
      comma := FoundParams(toks[3..]);
      var (ps, rest) := ParseParams(toks[3..]).value;
      FoundMoreParams(toks[1].name, ps, rest, comma, toks);
      comma := comma || ps == [];
    }
  }

  lemma FoundMoreParams(x: string, ps: seq<string>, rest: seq<Token>, comma: bool, toks: seq<Token>)
    requires (comma ==> ps != []) && toks == [KwInt, Name(x), Comma] + SpellParams(ps, comma, rest)
    ensures SpellParams([x] + ps, comma || ps == [], rest) == toks
  {
    assert ([x] + ps)[1..] == ps;
    if ps == [] {
      assert [KwInt, Name(x), Comma] + ([RParen] + rest) == [KwInt, Name(x)] + ([Comma, RParen] + rest);
    }
  }

  lemma FoundBody(toks: seq<Token>, isFunc: bool) returns (i: Item)
    requires ParseBody(toks).Some?
    ensures i.isFunc == isFunc && ItemSpelled(i) && ItemMeant(i) == ParseBody(toks).value.0 && SpellBody(i, ParseBody(toks).value.1) == toks
  {
    hide ParseParams, SpellParams, ParseBraces, SpellBraces, BlockSpelled, BlockMeant;
    assert toks == [Name(toks[0].name), LParen] + toks[2..];
    var comma := FoundParams(toks[2..]);
    var (ps, after) := ParseParams(toks[2..]).value;
    var body := FoundBraces(after);
    i := Item(isFunc, toks[0].name, ps, comma, body);
  }

  lemma FoundItems(toks: seq<Token>, p: Program) returns (items: seq<Item>, rest: seq<Token>)
    requires ParseProgram(toks, p).Some?
    ensures (forall i <- items :: ItemSpelled(i)) && Head(rest) == Eof
    ensures SpellItems(items, rest) == toks && ParseProgram(toks, p).value == Extended(p, items)
    decreases |toks|
  {
    hide ParseBody, SpellBody, ItemSpelled, ItemMeant, Extended;
    items, rest := [], toks;
    if Head(toks) == Eof {
      ExtendedNothing(p);
    } else {
      var isFunc := Head(toks) == KwFunc;
      assert toks == (if isFunc then [KwFunc, KwInt] else [KwKernel, KwVoid]) + toks[2..];
      var i := FoundBody(toks[2..], isFunc);
      var b := ParseBody(toks[2..]).value;
      var more: seq<Item>;
      more, rest := FoundItems(b.1, if isFunc then Program(p.kernels, p.funcs + [b.0]) else Program(p.kernels + [b.0], p.funcs));
      items := [i] + more;
      assert items[1..] == more;
      ExtendedOnce(p, items);
    }
  }

  /** The whole language: the parser returns a program just if the tokens, up to the end of the file, spell its kernels and
      funcs in some order. */
  lemma ProgramExactly(toks: seq<Token>, p: Program)
    ensures ParseProgram(toks, Program([], [])) == Some(p)
            <==> exists items: seq<Item>, rest: seq<Token> ::
                   (forall i <- items :: ItemSpelled(i)) && Head(rest) == Eof && toks == SpellItems(items, rest) && p == ProgramMeant(items)
  {
    hide SpellItems, ItemSpelled, Chosen;
    if ParseProgram(toks, Program([], [])) == Some(p) {
      var items, rest := FoundItems(toks, Program([], []));
      FromNothing(items);
    }
    if items: seq<Item>, rest: seq<Token> :| (forall i <- items :: ItemSpelled(i)) && Head(rest) == Eof && toks == SpellItems(items, rest) && p == ProgramMeant(items) {
      ReadItems(items, rest, Program([], []));
      FromNothing(items);
    }
  }

  lemma FromNothing(items: seq<Item>)
    ensures Extended(Program([], []), items) == ProgramMeant(items)
  {
    assert [] + Chosen(items, false) == Chosen(items, false) && [] + Chosen(items, true) == Chosen(items, true);
  }
}
