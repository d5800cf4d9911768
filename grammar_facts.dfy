/**
 * Properties of the parser beyond single expressions: how precedence
 * climbing groups chains of operators, what redundant parentheses do,
 * prototypes, definitions, extern declarations, and the top-level loop
 * with its error recovery.
 */
module GrammarFacts {
  import opened Tokenizer
  import opened Ast
  import opened Grammar
  import opened Printer
  import opened Concrete

  /** The tokens of `e` alone parse back to `e`. */
  lemma {:induction false} ParseShow(e: Expr)
    requires OpsInTable(e)
    ensures Expression(Show(e)) == Parsed(Ok(e), [])
  {
    ExprRoundTrip(e, []);
    assert Show(e) + [] == Show(e);
  }

  /** Three numbers joined by the operators `op1` and `op2`. */
  function Chain(a: string, op1: char, b: string, op2: char, c: string): seq<Token> {
    [TokNumber(a), TokChar(op1), TokNumber(b), TokChar(op2), TokNumber(c)]
  }

  /** Two numbers joined by `op` are shown without parentheses. */
  lemma {:induction false} ShowPair(a: string, op: char, b: string)
    ensures Show(Binary(op, Number(a), Number(b))) == [TokNumber(a), TokChar(op), TokNumber(b)]
  {
    assert ShowLeft(Number(a), op) == Show(Number(a)) == [TokNumber(a)];
    assert ShowRight(Number(b), op) == Show(Number(b)) == [TokNumber(b)];
  }

  /**
   * Precedence climbing on three operands: when the second operator binds
   * more tightly than the first, it takes the middle operand, and the result
   * nests to the right.
   */
  lemma {:induction false} TighterRightNests(a: string, op1: char, b: string, op2: char, c: string)
    requires op1 in BinopPrecedence && op2 in BinopPrecedence && Prec(op1) < Prec(op2)
    ensures Expression(Chain(a, op1, b, op2, c)).result
            == Ok(Binary(op1, Number(a), Binary(op2, Number(b), Number(c))))
  {
    var inner := Binary(op2, Number(b), Number(c));
    var e := Binary(op1, Number(a), inner);
    ShowPair(b, op2, c);
    assert ShowRight(inner, op1) == Show(inner);
    assert ShowLeft(Number(a), op1) == [TokNumber(a)];
    assert Show(e) == [TokNumber(a), TokChar(op1)] + Show(inner);
    assert Show(e) == Chain(a, op1, b, op2, c);
    ParseShow(e);
  }

  /**
   * Otherwise the first operator is folded first, and the result nests to
   * the left: equal precedence folds left.
   */
  lemma {:induction false} LooserRightFoldsLeft(a: string, op1: char, b: string, op2: char, c: string)
    requires op1 in BinopPrecedence && op2 in BinopPrecedence && Prec(op1) >= Prec(op2)
    ensures Expression(Chain(a, op1, b, op2, c)).result
            == Ok(Binary(op2, Binary(op1, Number(a), Number(b)), Number(c)))
  {
    var inner := Binary(op1, Number(a), Number(b));
    var e := Binary(op2, inner, Number(c));
    ShowPair(a, op1, b);
    assert ShowLeft(inner, op2) == Show(inner);
    assert ShowRight(Number(c), op2) == [TokNumber(c)];
    assert Show(e) == Show(inner) + [TokChar(op2), TokNumber(c)];
    assert Show(e) == Chain(a, op1, b, op2, c);
    ParseShow(e);
  }

  /** a+b*c is a+(b*c): '*' binds tighter than '+'. */
  lemma {:induction false} TimesBindsTighter(a: string, b: string, c: string)
    ensures Expression(Chain(a, '+', b, '*', c)).result
            == Ok(Binary('+', Number(a), Binary('*', Number(b), Number(c))))
  {
    TighterRightNests(a, '+', b, '*', c);
  }

  /** a+b-c is a+(b-c): in this table '-' binds tighter than '+'. */
  lemma {:induction false} MinusBindsTighter(a: string, b: string, c: string)
    ensures Expression(Chain(a, '+', b, '-', c)).result
            == Ok(Binary('+', Number(a), Binary('-', Number(b), Number(c))))
  {
    TighterRightNests(a, '+', b, '-', c);
  }

  /** a-b-c is (a-b)-c: equal precedence folds to the left. */
  lemma {:induction false} EqualFoldsLeft(a: string, b: string, c: string)
    ensures Expression(Chain(a, '-', b, '-', c)).result
            == Ok(Binary('-', Binary('-', Number(a), Number(b)), Number(c)))
  {
    LooserRightFoldsLeft(a, '-', b, '-', c);
  }

  /** a-b+c is (a-b)+c: the tighter operator on the left is folded first. */
  lemma {:induction false} TighterLeftFoldsFirst(a: string, b: string, c: string)
    ensures Expression(Chain(a, '-', b, '+', c)).result
            == Ok(Binary('+', Binary('-', Number(a), Number(b)), Number(c)))
  {
    LooserRightFoldsLeft(a, '-', b, '+', c);
  }

  /** `(x)` and `((x))` are the name `x` itself: parentheses leave no node. */
  lemma {:induction false} GroupedName(x: string)
    ensures Expression([TokChar('('), TokIdentifier(x), TokChar(')')]) == Parsed(Ok(Variable(x)), [])
    ensures Expression([TokChar('('), TokChar('('), TokIdentifier(x), TokChar(')'), TokChar(')')])
            == Parsed(Ok(Variable(x)), [])
  {
    var once := Group(Var(x));
    var twice := Group(once);
    assert Readable(once) && Readable(twice) && Meaning(twice) == Meaning(once) == Variable(x);
    assert Text(once) + [] == [TokChar('('), TokIdentifier(x), TokChar(')')];
    assert Text(twice) + [] == [TokChar('('), TokChar('('), TokIdentifier(x), TokChar(')'), TokChar(')')];
    WrittenRoundTrip(once, []);
    WrittenRoundTrip(twice, []);
  }

  /** a+(b*c) is a+b*c: parentheses around an operand that binds more tightly change nothing. */
  lemma {:induction false} GroupedTighterRight(a: string, b: string, c: string)
    ensures Expression([TokNumber(a), TokChar('+'), TokChar('('), TokNumber(b), TokChar('*'), TokNumber(c), TokChar(')')]).result
            == Ok(Binary('+', Number(a), Binary('*', Number(b), Number(c))))
  {
    var inner := Infix('*', Num(b), Num(c));
    var w := Infix('+', Num(a), Group(inner));
    assert Readable(w) && Meaning(w) == Binary('+', Number(a), Binary('*', Number(b), Number(c))) by {
      assert Readable(Num(a)) && Readable(Num(b)) && Readable(Num(c));
      assert Readable(inner) && Meaning(inner) == Binary('*', Number(b), Number(c));
    }
    assert Text(w) + [] == [TokNumber(a), TokChar('+'), TokChar('('), TokNumber(b), TokChar('*'), TokNumber(c), TokChar(')')] by {
      assert Text(inner) == [TokNumber(b), TokChar('*'), TokNumber(c)];
      assert Text(Group(inner)) == [TokChar('('), TokNumber(b), TokChar('*'), TokNumber(c), TokChar(')')];
    }
    WrittenRoundTrip(w, []);
  }

  /** (a-b)-c is a-b-c: parentheses around the left operand of an equal operator change nothing. */
  lemma {:induction false} GroupedEqualLeft(a: string, b: string, c: string)
    ensures Expression([TokChar('('), TokNumber(a), TokChar('-'), TokNumber(b), TokChar(')'), TokChar('-'), TokNumber(c)]).result
            == Ok(Binary('-', Binary('-', Number(a), Number(b)), Number(c)))
  {
    var inner := Infix('-', Num(a), Num(b));
    var w := Infix('-', Group(inner), Num(c));
    assert Readable(w) && Meaning(w) == Binary('-', Binary('-', Number(a), Number(b)), Number(c)) by {
      assert Readable(Num(a)) && Readable(Num(b)) && Readable(Num(c));
      assert Readable(inner) && Meaning(inner) == Binary('-', Number(a), Number(b));
    }
    assert Text(w) + [] == [TokChar('('), TokNumber(a), TokChar('-'), TokNumber(b), TokChar(')'), TokChar('-'), TokNumber(c)] by {
      assert Text(inner) == [TokNumber(a), TokChar('-'), TokNumber(b)];
      assert Text(Group(inner)) == [TokChar('('), TokNumber(a), TokChar('-'), TokNumber(b), TokChar(')')];
    }
    WrittenRoundTrip(w, []);
  }

  /** The parameter loop reads every name, in order and duplicates included, up to ')'. */
  lemma {:induction false} ParamListRoundTrip(fnName: string, acc: seq<string>, ps: seq<string>, rest: seq<Token>)
    ensures ParamList(fnName, acc, Names(ps) + [TokChar(')')] + rest) == Parsed(Ok(Proto(fnName, acc + ps)), rest)
    decreases ps
  {
    var ts := Names(ps) + [TokChar(')')] + rest;
    if ps == [] {
      assert ts == [TokChar(')')] + rest;
      assert ts[1..] == rest;
      assert acc + ps == acc;
    } else {
      assert ts == [TokIdentifier(ps[0])] + (Names(ps[1..]) + [TokChar(')')] + rest);
      assert ts[1..] == Names(ps[1..]) + [TokChar(')')] + rest;
      ParamListRoundTrip(fnName, acc + [ps[0]], ps[1..], rest);
      assert acc + [ps[0]] + ps[1..] == acc + ps;
    }
  }

  /** A prototype is read back whole, whatever follows it. */
  lemma {:induction false} ProtoRoundTrip(p: Proto, rest: seq<Token>)
    ensures Prototype(ShowProto(p) + rest) == Parsed(Ok(p), rest)
  {
    var ts := ShowProto(p) + rest;
    var params := Names(p.params) + [TokChar(')')] + rest;
    assert ts == [TokIdentifier(p.name), TokChar('(')] + params;
    assert ts[1..] == [TokChar('(')] + params;
    assert ts[2..] == params;
    ParamListRoundTrip(p.name, [], p.params, rest);
    assert [] + p.params == p.params;
  }

  /** Parameter names followed by neither a name nor ')' leave the prototype unclosed. */
  lemma {:induction false} ParamListUnclosed(fnName: string, acc: seq<string>, ps: seq<string>, rest: seq<Token>)
    requires !Cur(rest).TokIdentifier? && Cur(rest) != TokChar(')')
    ensures ParamList(fnName, acc, Names(ps) + rest) == Parsed(Err(ExpectedCloseParenInProto), rest)
    decreases ps
  {
    var ts := Names(ps) + rest;
    if ps == [] {
      assert ts == rest;
    } else {
      assert ts == [TokIdentifier(ps[0])] + (Names(ps[1..]) + rest);
      assert ts[1..] == Names(ps[1..]) + rest;
      ParamListUnclosed(fnName, acc + [ps[0]], ps[1..], rest);
    }
  }

  /** Each missing piece of a prototype has its own error. */
  lemma {:induction false} PrototypeErrors(name: string, ps: seq<string>, ts: seq<Token>)
    // no function name
    ensures !Cur(ts).TokIdentifier? ==> Prototype(ts) == Parsed(Err(ExpectedFunctionName), ts)
    // a name but no '('
    ensures Cur(ts) != TokChar('(') ==>
              Prototype([TokIdentifier(name)] + ts) == Parsed(Err(ExpectedOpenParenInProto), ts)
    // parameter names not closed by ')'
    ensures !Cur(ts).TokIdentifier? && Cur(ts) != TokChar(')') ==>
              Prototype([TokIdentifier(name), TokChar('(')] + Names(ps) + ts)
              == Parsed(Err(ExpectedCloseParenInProto), ts)
  {
    assert ([TokIdentifier(name)] + ts)[1..] == ts;
    if !Cur(ts).TokIdentifier? && Cur(ts) != TokChar(')') {
      var all := [TokIdentifier(name), TokChar('(')] + Names(ps) + ts;
      assert all[1..][0] == TokChar('(');
      assert all[2..] == Names(ps) + ts;
      ParamListUnclosed(name, [], ps, ts);
    }
  }

  /** 'def', a prototype and a body expression make a function definition. */
  lemma {:induction false} DefinitionRoundTrip(p: Proto, body: Expr, rest: seq<Token>)
    requires OpsInTable(body) && Precedence(Cur(rest)) == -1 && Cur(rest) != TokChar('(')
    ensures Definition([TokDef] + ShowProto(p) + Show(body) + rest) == Parsed(Ok(Function(p, body)), rest)
  {
    var ts := [TokDef] + ShowProto(p) + Show(body) + rest;
    var mid := Show(body) + rest;
    assert ts[1..] == ShowProto(p) + mid by {
      assert ts == [TokDef] + (ShowProto(p) + mid);
    }
    ProtoRoundTrip(p, mid);
    ExprRoundTrip(body, rest);
    DefinitionOf(ts, p, mid, body, rest);
  }

  /** 'def', then tokens read as a prototype, then tokens read as an expression, make a function. */
  lemma {:induction false} DefinitionOf(ts: seq<Token>, p: Proto, mid: seq<Token>, body: Expr, rest: seq<Token>)
    requires Cur(ts) == TokDef && Prototype(ts[1..]) == Parsed(Ok(p), mid)
    requires Expression(mid) == Parsed(Ok(body), rest)
    ensures Definition(ts) == Parsed(Ok(Function(p, body)), rest)
  {
  }

  /** 'extern' and a prototype make a bare prototype. */
  lemma {:induction false} ExternRoundTrip(p: Proto, rest: seq<Token>)
    ensures ExternDecl([TokExtern] + ShowProto(p) + rest) == Parsed(Ok(p), rest)
  {
    var ts := [TokExtern] + ShowProto(p) + rest;
    assert ts[1..] == ShowProto(p) + rest;
    ProtoRoundTrip(p, rest);
  }

  /** A top-level expression is wrapped in an anonymous prototype without parameters. */
  lemma {:induction false} TopLevelRoundTrip(e: Expr, rest: seq<Token>)
    requires OpsInTable(e) && Precedence(Cur(rest)) == -1 && Cur(rest) != TokChar('(')
    ensures TopLevelExpr(Show(e) + rest) == Parsed(Ok(Function(Proto("", []), e)), rest)
  {
    ExprRoundTrip(e, rest);
  }

  /** The dispatch of the top-level loop reads one item back and stops at the ';' after it. */
  lemma {:induction false} ItemRoundTrip(ev: Event, rest: seq<Token>)
    requires Reportable(ev) && Cur(rest) == TokChar(';')
    ensures Cur(Render(ev) + rest) != TokEof && Cur(Render(ev) + rest) != TokChar(';')
    ensures Item(Render(ev) + rest) == (ev, rest)
  {
    match ev
    case DefinitionParsed(f) =>
      DefinitionItemRoundTrip(f, rest);
    case ExternParsed(p) =>
      ExternItemRoundTrip(p, rest);
    case TopLevelExprParsed(f) =>
      TopLevelItemRoundTrip(f.body, rest);
  }

  /** 'def' goes to the definition parser, which reads the definition back. */
  lemma {:induction false} DefinitionItemRoundTrip(f: Function, rest: seq<Token>)
    requires OpsInTable(f.body) && Cur(rest) == TokChar(';')
    ensures var ts := Render(DefinitionParsed(f)) + rest;
            Cur(ts) == TokDef && Item(ts) == (DefinitionParsed(f), rest)
  {
    var ts := Render(DefinitionParsed(f)) + rest;
    assert ts == [TokDef] + ShowProto(f.proto) + Show(f.body) + rest;
    DefinitionRoundTrip(f.proto, f.body, rest);
    assert Item(ts) == DefinitionItem(ts);
  }

  /** 'extern' goes to the extern parser, which reads the prototype back. */
  lemma {:induction false} ExternItemRoundTrip(p: Proto, rest: seq<Token>)
    requires Cur(rest) == TokChar(';')
    ensures var ts := Render(ExternParsed(p)) + rest;
            Cur(ts) == TokExtern && Item(ts) == (ExternParsed(p), rest)
  {
    var ts := Render(ExternParsed(p)) + rest;
    assert ts == [TokExtern] + ShowProto(p) + rest;
    ExternRoundTrip(p, rest);
    assert Item(ts) == ExternItem(ts);
  }

  /** Anything else goes to the top-level expression parser. */
  lemma {:induction false} TopLevelItemRoundTrip(body: Expr, rest: seq<Token>)
    requires OpsInTable(body) && Cur(rest) == TokChar(';')
    ensures var ts := Render(TopLevelExprParsed(Function(Proto("", []), body))) + rest;
            StartsPrimary(Cur(ts)) && Item(ts) == (TopLevelExprParsed(Function(Proto("", []), body)), rest)
  {
    var f := Function(Proto("", []), body);
    var ts := Render(TopLevelExprParsed(f)) + rest;
    assert ts == Show(body) + rest;
    assert Cur(ts) == Show(body)[0];
    assert TopLevelExpr(ts) == Parsed(Ok(f), rest) by {
      TopLevelRoundTrip(body, rest);
    }
    TopLevelDispatch(ts, f, rest);
  }

  /** A token that starts a primary goes to the top-level expression parser. */
  lemma {:induction false} TopLevelDispatch(ts: seq<Token>, f: Function, rest: seq<Token>)
    requires StartsPrimary(Cur(ts)) && TopLevelExpr(ts) == Parsed(Ok(f), rest)
    ensures Item(ts) == (TopLevelExprParsed(f), rest)
  {
  }

  /**
   * Dispatch: the top-level loop reports, in order, exactly the items of a
   * script whose items are each closed by ';'.
   */
  lemma {:induction false} ScriptRoundTrip(evs: seq<Event>)
    requires forall k :: 0 <= k < |evs| ==> Reportable(evs[k])
    ensures Program(Script(evs)) == evs
    decreases evs
  {
    if evs != [] {
      var rest := Script(evs[1..]);
      assert Script(evs) == Render(evs[0]) + [TokChar(';')] + rest;
      ScriptStep(evs[0], rest);
      ScriptRoundTrip(evs[1..]);
      assert evs == [evs[0]] + evs[1..];
    }
  }

  /** One item and its ';': the loop reports the item, skips the ';' and goes on with the rest. */
  lemma {:induction false} ScriptStep(ev: Event, rest: seq<Token>)
    requires Reportable(ev)
    ensures Program(Render(ev) + [TokChar(';')] + rest) == [ev] + Program(rest)
  {
    var closed := [TokChar(';')] + rest;
    assert Render(ev) + [TokChar(';')] + rest == Render(ev) + closed;
    assert Item(Render(ev) + closed) == (ev, closed) by {
      ItemRoundTrip(ev, closed);
    }
    assert Program(closed) == Program(rest) by {
      SemicolonSkipped(rest);
    }
    ItemThenRest(Render(ev) + closed, ev, closed);
  }

  /** An item that is reported is followed by what the loop reports for the tokens after it. */
  lemma {:induction false} ItemThenRest(ts: seq<Token>, ev: Event, rest: seq<Token>)
    requires Cur(ts) != TokEof && Cur(ts) != TokChar(';') && Item(ts) == (ev, rest)
    ensures Program(ts) == [ev] + Program(rest)
  {
  }

  /** Running into EOF inside an argument list is an error: "f(n," expects another expression. */
  lemma {:induction false} UnfinishedCall(f: string, n: string)
    ensures Program([TokIdentifier(f), TokChar('('), TokNumber(n), TokChar(',')]) == [SyntaxError(UnknownToken)]
  {
    var ts := [TokIdentifier(f), TokChar('('), TokNumber(n), TokChar(',')];
    assert Item(ts) == (SyntaxError(UnknownToken), []) by {
      var inner := [TokNumber(n), TokChar(',')];
      assert ts == [TokIdentifier(f), TokChar('(')] + inner;
      assert Expression(inner) == Parsed(Ok(Number(n)), [TokChar(',')]);
      assert ArgumentList([], inner) == Parsed(Err(UnknownToken), []);
      CallWithArgs(f, ts, inner);
      assert Primary(ts) == IdentifierExpr(ts) == Parsed(Err(UnknownToken), []);
      assert Expression(ts) == Parsed(Err(UnknownToken), []);
      assert TopLevelExpr(ts) == Parsed(Err(UnknownToken), []);
      assert Item(ts) == TopLevelExprItem(ts);
    }
    assert Program(ts) == [SyntaxError(UnknownToken)] + Program([]);
  }

  /**
   * Recovery: when 'def' is followed by a token that is not a name, the
   * error is reported and that token is skipped as well.
   */
  lemma {:induction false} DefinitionWithoutName(t: Token, rest: seq<Token>)
    requires !t.TokIdentifier?
    ensures Item([TokDef, t] + rest) == (SyntaxError(ExpectedFunctionName), rest)
  {
    var ts := [TokDef, t] + rest;
    var afterDef := [t] + rest;
    assert ts[1..] == afterDef;
    assert Prototype(afterDef) == Parsed(Err(ExpectedFunctionName), afterDef);
    assert Definition(ts) == Parsed(Err(ExpectedFunctionName), afterDef);
    assert afterDef[1..] == rest;
    assert Item(ts) == DefinitionItem(ts);
  }

  /**
   * Recovery: a failed definition reports its error, one more token is
   * skipped, and the loop goes on; "def n ; m" reports the missing name,
   * skips n, skips ';' and parses m.
   */
  lemma {:induction false} RecoveryAfterError(n: string, m: string)
    ensures Program([TokDef, TokNumber(n), TokChar(';'), TokNumber(m)])
            == [SyntaxError(ExpectedFunctionName), TopLevelExprParsed(Function(Proto("", []), Number(m)))]
  {
    var last := [TokNumber(m)];
    var top := TopLevelExprParsed(Function(Proto("", []), Number(m)));
    var ts := [TokDef, TokNumber(n)] + ([TokChar(';')] + last);
    assert ts == [TokDef, TokNumber(n), TokChar(';'), TokNumber(m)];
    DefinitionWithoutName(TokNumber(n), [TokChar(';')] + last);
    assert Program(ts) == [SyntaxError(ExpectedFunctionName)] + Program([TokChar(';')] + last);
    SemicolonSkipped(last);
    LoneNumber(m);
  }

  /**
   * Any token that cannot start a primary is rejected with the default
   * error, and nothing is consumed: not by the primary, nor by the
   * expression or the top-level expression built on it.
   */
  lemma {:induction false} PrimaryRejects(ts: seq<Token>)
    requires !StartsPrimary(Cur(ts))
    ensures Primary(ts) == Parsed(Err(UnknownToken), ts)
    ensures Expression(ts) == Parsed(Err(UnknownToken), ts)
    ensures TopLevelExpr(ts) == Parsed(Err(UnknownToken), ts)
  {
  }

  /**
   * Recovery from a stray token at top level, such as ')' or ',': it goes
   * to the top-level expression parser, which reports the error without
   * consuming it; then the token itself is skipped and the loop goes on.
   */
  lemma {:induction false} StrayTokenSkipped(t: Token, rest: seq<Token>)
    requires t != TokEof && t != TokDef && t != TokExtern && t != TokChar(';') && !StartsPrimary(t)
    ensures Program([t] + rest) == [SyntaxError(UnknownToken)] + Program(rest)
  {
    var ts := [t] + rest;
    assert ts[1..] == rest;
    PrimaryRejects(ts);
    assert TopLevelExprItem(ts) == (SyntaxError(UnknownToken), rest);
    assert Item(ts) == TopLevelExprItem(ts);
  }

  /**
   * Recovery: when 'extern' is followed by a token that is not a name, the
   * error is reported and that token is skipped as well.
   */
  lemma {:induction false} ExternWithoutName(t: Token, rest: seq<Token>)
    requires !t.TokIdentifier?
    ensures Item([TokExtern, t] + rest) == (SyntaxError(ExpectedFunctionName), rest)
  {
    var ts := [TokExtern, t] + rest;
    var afterExtern := [t] + rest;
    assert ts[1..] == afterExtern;
    assert ExternDecl(ts) == Parsed(Err(ExpectedFunctionName), afterExtern);
    assert afterExtern[1..] == rest;
    assert Item(ts) == ExternItem(ts);
  }

  /** A ';' at top level is skipped. */
  lemma {:induction false} SemicolonSkipped(rest: seq<Token>)
    ensures Program([TokChar(';')] + rest) == Program(rest)
  {
    assert ([TokChar(';')] + rest)[1..] == rest;
  }

  /** A lone number is a top-level expression. */
  lemma {:induction false} LoneNumber(m: string)
    ensures Program([TokNumber(m)]) == [TopLevelExprParsed(Function(Proto("", []), Number(m)))]
  {
    var last := [TokNumber(m)];
    assert Show(Number(m)) + [] == last;
    TopLevelRoundTrip(Number(m), []);
    assert Item(last) == TopLevelExprItem(last);
    assert Program(last) == [TopLevelExprParsed(Function(Proto("", []), Number(m)))] + Program([]);
  }
}
