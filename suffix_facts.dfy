/**
 * The parser reads its tokens strictly from the front: getNextToken is the
 * only way the C++ moves on, and nothing ever puts a token back. Every
 * parse routine therefore leaves a suffix of the tokens it was given, on
 * failure as well as on success.
 */
module SuffixFacts {
  import opened Tokenizer
  import opened Ast
  import opened Grammar

  /** `rest` is what is left of `ts` after reading some of its tokens from the front. */
  predicate IsSuffix(rest: seq<Token>, ts: seq<Token>) {
    |rest| <= |ts| && rest == ts[|ts| - |rest|..]
  }

  lemma {:induction false} SuffixRefl(ts: seq<Token>)
    ensures IsSuffix(ts, ts)
  {
    assert ts[0..] == ts;
  }

  lemma {:induction false} SuffixNext(ts: seq<Token>)
    requires ts != []
    ensures IsSuffix(ts[1..], ts)
  {
  }

  lemma {:induction false} SuffixTrans(a: seq<Token>, b: seq<Token>, c: seq<Token>)
    requires IsSuffix(a, b) && IsSuffix(b, c)
    ensures IsSuffix(a, c)
  {
    var i, j := |c| - |b|, |b| - |a|;
    assert c[i..][j..] == c[i + j..];
  }

  /** A suffix of what follows the current token is a suffix of the whole. */
  lemma {:induction false} AfterFirst(rest: seq<Token>, ts: seq<Token>)
    requires ts != [] && IsSuffix(rest, ts[1..])
    ensures IsSuffix(rest, ts)
  {
    SuffixNext(ts);
    SuffixTrans(rest, ts[1..], ts);
  }

  /** parenexpr leaves a suffix of its tokens. */
  lemma {:induction false} ParenExprSuffix(ts: seq<Token>)
    requires Cur(ts) == TokChar('(')
    ensures IsSuffix(ParenExpr(ts).rest, ts)
    decreases |ts|, 1
  {
    var v := Expression(ts[1..]);
    ExpressionSuffix(ts[1..]);
    AfterFirst(v.rest, ts);
    if v.result.Ok? && Cur(v.rest) == TokChar(')') {
      AfterFirst(v.rest[1..], v.rest);
      SuffixTrans(v.rest[1..], v.rest, ts);
    }
  }

  /** identifierexpr leaves a suffix of its tokens. */
  lemma {:induction false} IdentifierExprSuffix(ts: seq<Token>)
    requires Cur(ts).TokIdentifier?
    ensures IsSuffix(IdentifierExpr(ts).rest, ts)
    decreases |ts|, 1
  {
    var afterName := ts[1..];
    if Cur(afterName) != TokChar('(') {
      SuffixNext(ts);
    } else if Cur(afterName[1..]) == TokChar(')') {
      assert afterName[2..] == afterName[1..][1..];
      SuffixNext(afterName[1..]);
      AfterFirst(afterName[2..], afterName);
      AfterFirst(afterName[2..], ts);
    } else {
      var args := ArgumentList([], afterName[1..]);
      ArgumentListSuffix([], afterName[1..]);
      AfterFirst(args.rest, afterName);
      AfterFirst(args.rest, ts);
      if args.result.Ok? {
        SuffixNext(args.rest);
        SuffixTrans(args.rest[1..], args.rest, ts);
      }
    }
  }

  /** The argument loop leaves a suffix of its tokens. */
  lemma {:induction false} ArgumentListSuffix(args: seq<Expr>, ts: seq<Token>)
    ensures IsSuffix(ArgumentList(args, ts).rest, ts)
    decreases |ts|, 4
  {
    var arg := Expression(ts);
    ExpressionSuffix(ts);
    if arg.result.Ok? && Cur(arg.rest) == TokChar(',') {
      var more := arg.rest[1..];
      ArgumentListSuffix(args + [arg.result.value], more);
      AfterFirst(ArgumentList(args + [arg.result.value], more).rest, arg.rest);
      SuffixTrans(ArgumentList(args + [arg.result.value], more).rest, arg.rest, ts);
    }
  }

  /** primary leaves a suffix of its tokens. */
  lemma {:induction false} PrimarySuffix(ts: seq<Token>)
    ensures IsSuffix(Primary(ts).rest, ts)
    decreases |ts|, 2
  {
    if Cur(ts).TokIdentifier? {
      IdentifierExprSuffix(ts);
    } else if Cur(ts).TokNumber? {
      SuffixNext(ts);
    } else if Cur(ts) == TokChar('(') {
      ParenExprSuffix(ts);
    } else {
      SuffixRefl(ts);
    }
  }

  /** expression leaves a suffix of its tokens. */
  lemma {:induction false} ExpressionSuffix(ts: seq<Token>)
    ensures IsSuffix(Expression(ts).rest, ts)
    decreases |ts|, 3
  {
    var lhs := Primary(ts);
    PrimarySuffix(ts);
    if lhs.result.Ok? {
      BinOpRhsSuffix(0, lhs.result.value, lhs.rest);
      SuffixTrans(BinOpRhs(0, lhs.result.value, lhs.rest).rest, lhs.rest, ts);
    }
  }

  /** The precedence-climbing loop leaves a suffix of its tokens. */
  lemma {:induction false} BinOpRhsSuffix(exprPrec: nat, lhs: Expr, ts: seq<Token>)
    ensures IsSuffix(BinOpRhs(exprPrec, lhs, ts).rest, ts)
    decreases |ts|, 0
  {
    var tokPrec := Precedence(Cur(ts));
    if tokPrec < exprPrec {
      SuffixRefl(ts);
    } else {
      var rhs := Primary(ts[1..]);
      PrimarySuffix(ts[1..]);
      AfterFirst(rhs.rest, ts);
      if rhs.result.Ok? {
        var nextPrec := Precedence(Cur(rhs.rest));
        var rhs' := if tokPrec < nextPrec then BinOpRhs(tokPrec + 1, rhs.result.value, rhs.rest) else rhs;
        if tokPrec < nextPrec {
          BinOpRhsSuffix(tokPrec + 1, rhs.result.value, rhs.rest);
          SuffixTrans(rhs'.rest, rhs.rest, ts);
        }
        if rhs'.result.Ok? {
          var folded := Binary(Cur(ts).c, lhs, rhs'.result.value);
          BinOpRhsSuffix(exprPrec, folded, rhs'.rest);
          SuffixTrans(BinOpRhs(exprPrec, folded, rhs'.rest).rest, rhs'.rest, ts);
        }
      }
    }
  }

  /** The parameter loop leaves a suffix of its tokens. */
  lemma {:induction false} ParamListSuffix(fnName: string, params: seq<string>, ts: seq<Token>)
    ensures IsSuffix(ParamList(fnName, params, ts).rest, ts)
    decreases |ts|
  {
    if Cur(ts).TokIdentifier? {
      ParamListSuffix(fnName, params + [ts[0].name], ts[1..]);
      AfterFirst(ParamList(fnName, params + [ts[0].name], ts[1..]).rest, ts);
    } else if Cur(ts) != TokChar(')') {
      SuffixRefl(ts);
    } else {
      SuffixNext(ts);
    }
  }

  /** prototype leaves a suffix of its tokens. */
  lemma {:induction false} PrototypeSuffix(ts: seq<Token>)
    ensures IsSuffix(Prototype(ts).rest, ts)
  {
    if !Cur(ts).TokIdentifier? {
      SuffixRefl(ts);
    } else if Cur(ts[1..]) != TokChar('(') {
      SuffixNext(ts);
    } else {
      var params := ts[2..];
      assert params == ts[1..][1..];
      ParamListSuffix(ts[0].name, [], params);
      AfterFirst(Prototype(ts).rest, ts[1..]);
      AfterFirst(Prototype(ts).rest, ts);
    }
  }

  /** definition leaves a suffix of its tokens. */
  lemma {:induction false} DefinitionSuffix(ts: seq<Token>)
    requires Cur(ts) == TokDef
    ensures IsSuffix(Definition(ts).rest, ts)
  {
    var proto := Prototype(ts[1..]);
    PrototypeSuffix(ts[1..]);
    AfterFirst(proto.rest, ts);
    if proto.result.Ok? {
      ExpressionSuffix(proto.rest);
      SuffixTrans(Expression(proto.rest).rest, proto.rest, ts);
    }
  }

  /** external leaves a suffix of its tokens. */
  lemma {:induction false} ExternDeclSuffix(ts: seq<Token>)
    requires Cur(ts) == TokExtern
    ensures IsSuffix(ExternDecl(ts).rest, ts)
  {
    PrototypeSuffix(ts[1..]);
    AfterFirst(ExternDecl(ts).rest, ts);
  }

  /** toplevelexpr leaves a suffix of its tokens. */
  lemma {:induction false} TopLevelExprSuffix(ts: seq<Token>)
    ensures IsSuffix(TopLevelExpr(ts).rest, ts)
  {
    ExpressionSuffix(ts);
  }

  /**
   * One item of the top-level loop, error recovery included, leaves a
   * suffix of the tokens, and a strictly shorter one.
   */
  lemma {:induction false} ItemSuffix(ts: seq<Token>)
    requires Cur(ts) != TokEof
    ensures IsSuffix(Item(ts).1, ts) && |Item(ts).1| < |ts|
  {
    var p := if Cur(ts) == TokDef then Definition(ts).rest
             else if Cur(ts) == TokExtern then ExternDecl(ts).rest
             else TopLevelExpr(ts).rest;
    if Cur(ts) == TokDef {
      DefinitionSuffix(ts);
    } else if Cur(ts) == TokExtern {
      ExternDeclSuffix(ts);
    } else {
      TopLevelExprSuffix(ts);
    }
    if Item(ts).1 != p {
      SuffixNext(p);
      SuffixTrans(p[1..], p, ts);
    }
  }
}
