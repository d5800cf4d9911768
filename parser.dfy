/**
 * The recursive-descent parser, as the C++ runs it: one current token
 * (CurTok) fetched on demand from the tokenizer, parse routines that
 * advance it, and the top-level loop. Each routine is proved to compute the
 * matching function in Grammar (ParseExtern computes ExternDecl, the Handle
 * routines compute the Item functions, MainLoop computes Program) on the
 * tokens that remained when it was called, and to leave unread exactly the
 * tokens that function leaves.
 */
module Parser {
  import opened Tokenizer
  import opened Ast
  import opened Grammar

  class Parser {
    const lexer: Lexer
    var curTok: Token

    ghost predicate Valid()
      reads this, lexer
    {
      lexer.Valid() && (curTok == TokEof ==> lexer.pos == |lexer.text|)
    }

    /** The current token followed by every token the tokenizer has yet to return. */
    ghost function Remaining(): seq<Token>
      reads this, lexer
      requires Valid()
    {
      if curTok == TokEof then [] else [curTok] + Tokenize(lexer.text, lexer.pos)
    }

    /** A parser over `input`; CurTok starts as 0, as the static int does. */
    constructor (input: string)
      ensures Valid() && fresh(lexer) && lexer.text == input
      ensures Remaining() == [TokChar('\0')] + Tokenize(input, 0)
    {
      lexer := new Lexer(input);
      curTok := TokChar('\0');
    }

    /** getNextToken */
    method GetNextToken()
      requires Valid()
      modifies this, lexer
      ensures Valid() && Remaining() == Next(old(Remaining()))
    {
      curTok := lexer.GetTok();
    }

    /** ParseNumberExpr: called when the current token is a number. */
    method ParseNumberExpr() returns (r: Result<Expr>)
      requires Valid() && curTok.TokNumber?
      modifies this, lexer
      ensures Valid() && NumberExpr(old(Remaining())) == Parsed(r, Remaining())
    {
      r := Ok(Number(curTok.lexeme));
      GetNextToken();
    }

    /** ParseParenExpr: called when the current token is '('. */
    method ParseParenExpr() returns (r: Result<Expr>)
      requires Valid() && curTok == TokChar('(')
      modifies this, lexer
      ensures Valid() && ParenExpr(old(Remaining())) == Parsed(r, Remaining())
      decreases |Remaining()|, 1
    {
      GetNextToken();
      var v := ParseExpression();
      if v.Err? {
        return v;
      }
      if curTok != TokChar(')') {
        return Err(ExpectedCloseParen);
      }
      GetNextToken();
      return v;
    }

    /** ParseIdentifierExpr: called when the current token is an identifier. */
    method ParseIdentifierExpr() returns (r: Result<Expr>)
      requires Valid() && curTok.TokIdentifier?
      modifies this, lexer
      ensures Valid() && IdentifierExpr(old(Remaining())) == Parsed(r, Remaining())
      decreases |Remaining()|, 1
    {
      var idName := curTok.name;
      GetNextToken();

      // no parenthesis: a variable
      if curTok != TokChar('(') {
        return Ok(Variable(idName));
      }

      GetNextToken();
      var args: seq<Expr> := [];
      if curTok != TokChar(')') {
        ghost var argTokens := Remaining();
        while true
          invariant Valid()
          invariant |Remaining()| <= |argTokens|
          invariant ArgumentList(args, Remaining()) == ArgumentList([], argTokens)
          decreases |Remaining()|
        {
          var arg := ParseExpression();
          if arg.Err? {
            return Err(arg.msg);
          }
          args := args + [arg.value];
          if curTok == TokChar(')') {
            break;
          }
          if curTok != TokChar(',') {
            return Err(ExpectedArgSeparator);
          }
          GetNextToken();
        }
      }

      // consume ')'
      GetNextToken();
      return Ok(Call(idName, args));
    }

    /** ParsePrimary */
    method ParsePrimary() returns (r: Result<Expr>)
      requires Valid()
      modifies this, lexer
      ensures Valid() && Primary(old(Remaining())) == Parsed(r, Remaining())
      decreases |Remaining()|, 2
    {
      if curTok.TokIdentifier? {
        r := ParseIdentifierExpr();
      } else if curTok.TokNumber? {
        r := ParseNumberExpr();
      } else if curTok == TokChar('(') {
        r := ParseParenExpr();
      } else {
        r := Err(UnknownToken);
      }
    }

    /** ParseExpression */
    method ParseExpression() returns (r: Result<Expr>)
      requires Valid()
      modifies this, lexer
      ensures Valid() && Expression(old(Remaining())) == Parsed(r, Remaining())
      decreases |Remaining()|, 3
    {
      var lhs := ParsePrimary();
      if lhs.Err? {
        return lhs;
      }
      r := ParseBinOpRHS(0, lhs.value);
    }

    /** ParseBinOpRHS: the precedence-climbing loop. */
    method ParseBinOpRHS(exprPrec: nat, lhs0: Expr) returns (r: Result<Expr>)
      requires Valid()
      modifies this, lexer
      ensures Valid() && BinOpRhs(exprPrec, lhs0, old(Remaining())) == Parsed(r, Remaining())
      decreases |Remaining()|, 0
    {
      var lhs := lhs0;
      while true
        invariant Valid()
        invariant |Remaining()| <= old(|Remaining()|)
        invariant BinOpRhs(exprPrec, lhs, Remaining()) == BinOpRhs(exprPrec, lhs0, old(Remaining()))
        decreases |Remaining()|
      {
        var tokPrec := Precedence(curTok);
        if tokPrec < exprPrec {
          return Ok(lhs);
        }

        // a binary operator
        var binOp := curTok.c;
        GetNextToken();

        // the primary expression after the operator
        var rhs := ParsePrimary();
        if rhs.Err? {
          return rhs;
        }

        // if the operator after the primary binds tighter, it takes the primary as its LHS
        var nextPrec := Precedence(curTok);
        if tokPrec < nextPrec {
          rhs := ParseBinOpRHS(tokPrec + 1, rhs.value);
          if rhs.Err? {
            return rhs;
          }
        }
        lhs := Binary(binOp, lhs, rhs.value);
      }
    }

    /** ParsePrototype */
    method ParsePrototype() returns (r: Result<Proto>)
      requires Valid()
      modifies this, lexer
      ensures Valid() && Prototype(old(Remaining())) == Parsed(r, Remaining())
    {
      if !curTok.TokIdentifier? {
        return Err(ExpectedFunctionName);
      }
      var fnName := curTok.name;
      GetNextToken();
      if curTok != TokChar('(') {
        return Err(ExpectedOpenParenInProto);
      }

      // the parameter names
      var argNames: seq<string> := [];
      GetNextToken();
      while curTok.TokIdentifier?
        invariant Valid()
        invariant ParamList(fnName, argNames, Remaining()) == Prototype(old(Remaining()))
        decreases |Remaining()|
      {
        argNames := argNames + [curTok.name];
        GetNextToken();
      }
      if curTok != TokChar(')') {
        return Err(ExpectedCloseParenInProto);
      }
      GetNextToken();
      return Ok(Proto(fnName, argNames));
    }

    /** ParseDefinition: called when the current token is 'def'. */
    method ParseDefinition() returns (r: Result<Function>)
      requires Valid() && curTok == TokDef
      modifies this, lexer
      ensures Valid() && Definition(old(Remaining())) == Parsed(r, Remaining())
    {
      GetNextToken();
      var proto := ParsePrototype();
      if proto.Err? {
        return Err(proto.msg);
      }
      var e := ParseExpression();
      if e.Err? {
        return Err(e.msg);
      }
      return Ok(Function(proto.value, e.value));
    }

    /** ParseExtern: called when the current token is 'extern'. */
    method ParseExtern() returns (r: Result<Proto>)
      requires Valid() && curTok == TokExtern
      modifies this, lexer
      ensures Valid() && ExternDecl(old(Remaining())) == Parsed(r, Remaining())
    {
      GetNextToken();
      r := ParsePrototype();
    }

    /** ParseTopLevelExpr */
    method ParseTopLevelExpr() returns (r: Result<Function>)
      requires Valid()
      modifies this, lexer
      ensures Valid() && TopLevelExpr(old(Remaining())) == Parsed(r, Remaining())
    {
      var e := ParseExpression();
      if e.Err? {
        return Err(e.msg);
      }
      return Ok(Function(Proto("", []), e.value));
    }

    /** HandleDefinition */
    method HandleDefinition() returns (event: Event)
      requires Valid() && curTok == TokDef
      modifies this, lexer
      ensures Valid() && DefinitionItem(old(Remaining())) == (event, Remaining())
    {
      var f := ParseDefinition();
      if f.Ok? {
        event := DefinitionParsed(f.value);
      } else {
        event := SyntaxError(f.msg);
        // skip token for error recovery
        GetNextToken();
      }
    }

    /** HandleExtern */
    method HandleExtern() returns (event: Event)
      requires Valid() && curTok == TokExtern
      modifies this, lexer
      ensures Valid() && ExternItem(old(Remaining())) == (event, Remaining())
    {
      var p := ParseExtern();
      if p.Ok? {
        event := ExternParsed(p.value);
      } else {
        event := SyntaxError(p.msg);
        // skip token for error recovery
        GetNextToken();
      }
    }

    /** HandleTopLevelExpression */
    method HandleTopLevelExpression() returns (event: Event)
      requires Valid() && curTok != TokEof
      modifies this, lexer
      ensures Valid() && TopLevelExprItem(old(Remaining())) == (event, Remaining())
    {
      var f := ParseTopLevelExpr();
      if f.Ok? {
        event := TopLevelExprParsed(f.value);
      } else {
        event := SyntaxError(f.msg);
        // skip token for error recovery
        GetNextToken();
      }
    }

    /** MainLoop: top ::= definition | external | expression | ';' */
    method MainLoop() returns (events: seq<Event>)
      requires Valid()
      modifies this, lexer
      ensures Valid() && curTok == TokEof
      ensures events == Program(old(Remaining()))
    {
      events := [];
      ghost var all := Remaining();
      while true
        invariant Valid()
        invariant events + Program(Remaining()) == Program(all)
        decreases |Remaining()|
      {
        ghost var before := Remaining();
        if curTok == TokEof {
          return;
        } else if curTok == TokChar(';') {
          // ignore top-level semicolons
          GetNextToken();
          assert Program(before) == Program(Remaining());
        } else {
          var event;
          if curTok == TokDef {
            event := HandleDefinition();
          } else if curTok == TokExtern {
            event := HandleExtern();
          } else {
            event := HandleTopLevelExpression();
          }
          ghost var after := Remaining();
          assert Item(before) == (event, after);
          assert Program(before) == [event] + Program(after);
          AppendAssoc(events, [event], Program(after));
          events := events + [event];
        }
      }
    }
  }

  lemma {:induction false} AppendAssoc<T>(a: seq<T>, b: seq<T>, c: seq<T>)
    ensures (a + b) + c == a + (b + c)
  {
  }

  /** main: primes the current token and runs the top-level loop over `input`. */
  method Run(input: string) returns (events: seq<Event>)
    ensures events == Program(Tokenize(input, 0))
  {
    var parser := new Parser(input);
    parser.GetNextToken();
    events := parser.MainLoop();
  }
}
