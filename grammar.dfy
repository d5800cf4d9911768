/**
 * What each parse routine computes, as functions of the tokens that remain
 * to be read. The first of them is the parser's current token (CurTok); the
 * empty sequence stands for a current token of EOF. Every function returns
 * its result together with the tokens left unread, on failure as well, since
 * error recovery goes on from there.
 */
module Grammar {
  import opened Tokenizer
  import opened Ast

  /** A parse result; the C++ signals failure with nullptr after logging the message. */
  datatype Result<T> = Ok(value: T) | Err(msg: string)

  /** A result and the tokens left unread. */
  datatype Parsed<T> = Parsed(result: Result<T>, rest: seq<Token>)

  const UnknownToken := "Unknown token: expected an expression"
  const ExpectedCloseParen := "expected ')'"
  const ExpectedArgSeparator := "Expected ')' or ',' in argument list"
  const ExpectedFunctionName := "Expected function name in prototype"
  const ExpectedOpenParenInProto := "Expected '(' in prototype"
  const ExpectedCloseParenInProto := "Expected ')' in prototype"

  /** The current token. */
  function Cur(ts: seq<Token>): Token {
    if ts == [] then TokEof else ts[0]
  }

  /** The tokens after getNextToken; at EOF it stays at EOF. */
  function Next(ts: seq<Token>): seq<Token> {
    if ts == [] then [] else ts[1..]
  }

  /** The fixed table BinopPrecedence; 1 is the lowest precedence. */
  const BinopPrecedence: map<char, int> := map['<' := 10, '+' := 20, '-' := 30, '*' := 40]

  /**
   * GetTokPrecedence: tokens that are not ASCII characters, and characters
   * whose entry is missing (read as 0) or not positive, are not binary
   * operators and get -1.
   */
  function Precedence(t: Token): (p: int)
    ensures p == -1 <==> !(t.TokChar? && t.c in BinopPrecedence)
    ensures p != -1 ==> p == BinopPrecedence[t.c] && p >= 10
  {
    if !t.TokChar? || t.c as int >= 128 then -1
    else
      var tokPrec := if t.c in BinopPrecedence then BinopPrecedence[t.c] else 0;
      if tokPrec <= 0 then -1 else tokPrec
  }

  /** numberexpr ::= number */
  function NumberExpr(ts: seq<Token>): (r: Parsed<Expr>)
    requires Cur(ts).TokNumber?
    ensures r.result.Ok? && r.rest == ts[1..]
    ensures r.result.value == Number(ts[0].lexeme)
  {
    Parsed(Ok(Number(ts[0].lexeme)), ts[1..])
  }

  /** parenexpr ::= '(' expression ')' ; the parentheses leave no node. */
  function ParenExpr(ts: seq<Token>): (r: Parsed<Expr>)
    requires Cur(ts) == TokChar('(')
    ensures |r.rest| <= |ts| && (r.result.Ok? ==> |r.rest| < |ts|)
    decreases |ts|, 1
  {
    var v := Expression(ts[1..]);
    if v.result.Err? then v
    else if Cur(v.rest) != TokChar(')') then Parsed(Err(ExpectedCloseParen), v.rest)
    else Parsed(v.result, v.rest[1..])
  }

  /**
   * identifierexpr ::= identifier | identifier '(' expression* ')' with the
   * arguments separated by ','.
   */
  function IdentifierExpr(ts: seq<Token>): (r: Parsed<Expr>)
    requires Cur(ts).TokIdentifier?
    ensures |r.rest| <= |ts| && (r.result.Ok? ==> |r.rest| < |ts|)
    decreases |ts|, 1
  {
    var idName := ts[0].name;
    var afterName := ts[1..];
    if Cur(afterName) != TokChar('(') then
      Parsed(Ok(Variable(idName)), afterName)
    else if Cur(afterName[1..]) == TokChar(')') then
      Parsed(Ok(Call(idName, [])), afterName[2..])
    else
      var args := ArgumentList([], afterName[1..]);
      if args.result.Err? then Parsed(Err(args.result.msg), args.rest)
      else Parsed(Ok(Call(idName, args.result.value)), args.rest[1..])
  }

  /**
   * The argument loop of ParseIdentifierExpr, with the arguments read so
   * far in `args`; on success the closing ')' is the current token.
   */
  function ArgumentList(args: seq<Expr>, ts: seq<Token>): (r: Parsed<seq<Expr>>)
    ensures |r.rest| <= |ts|
    ensures r.result.Ok? ==> |r.rest| < |ts| && Cur(r.rest) == TokChar(')')
    decreases |ts|, 4
  {
    var arg := Expression(ts);
    if arg.result.Err? then Parsed(Err(arg.result.msg), arg.rest)
    else if Cur(arg.rest) == TokChar(')') then Parsed(Ok(args + [arg.result.value]), arg.rest)
    else if Cur(arg.rest) != TokChar(',') then Parsed(Err(ExpectedArgSeparator), arg.rest)
    else ArgumentList(args + [arg.result.value], arg.rest[1..])
  }

  /** primary ::= identifierexpr | numberexpr | parenexpr */
  function Primary(ts: seq<Token>): (r: Parsed<Expr>)
    ensures |r.rest| <= |ts| && (r.result.Ok? ==> |r.rest| < |ts|)
    decreases |ts|, 2
  {
    if Cur(ts).TokIdentifier? then IdentifierExpr(ts)
    else if Cur(ts).TokNumber? then NumberExpr(ts)
    else if Cur(ts) == TokChar('(') then ParenExpr(ts)
    else Parsed(Err(UnknownToken), ts)
  }

  /** expression ::= primary binoprhs */
  function Expression(ts: seq<Token>): (r: Parsed<Expr>)
    ensures |r.rest| <= |ts| && (r.result.Ok? ==> |r.rest| < |ts|)
    decreases |ts|, 3
  {
    var lhs := Primary(ts);
    if lhs.result.Err? then lhs
    else BinOpRhs(0, lhs.result.value, lhs.rest)
  }

  /**
   * binoprhs ::= (binop primary)*, folding onto `lhs` every operator whose
   * precedence is at least `exprPrec`.
   */
  function BinOpRhs(exprPrec: nat, lhs: Expr, ts: seq<Token>): (r: Parsed<Expr>)
    ensures |r.rest| <= |ts|
    decreases |ts|, 0
  {
    var tokPrec := Precedence(Cur(ts));
    if tokPrec < exprPrec then Parsed(Ok(lhs), ts)
    else
      var binOp := Cur(ts).c;
      var rhs := Primary(ts[1..]);
      if rhs.result.Err? then rhs
      else
        var nextPrec := Precedence(Cur(rhs.rest));
        var rhs' := if tokPrec < nextPrec then BinOpRhs(tokPrec + 1, rhs.result.value, rhs.rest) else rhs;
        if rhs'.result.Err? then rhs'
        else BinOpRhs(exprPrec, Binary(binOp, lhs, rhs'.result.value), rhs'.rest)
  }

  /** prototype ::= identifier '(' identifier* ')' */
  function Prototype(ts: seq<Token>): (r: Parsed<Proto>)
    ensures |r.rest| <= |ts| && (r.result.Ok? ==> |r.rest| < |ts|)
  {
    if !Cur(ts).TokIdentifier? then Parsed(Err(ExpectedFunctionName), ts)
    else if Cur(ts[1..]) != TokChar('(') then Parsed(Err(ExpectedOpenParenInProto), ts[1..])
    else ParamList(ts[0].name, [], ts[2..])
  }

  /** The parameter loop of ParsePrototype, with the names read so far in `params`. */
  function ParamList(fnName: string, params: seq<string>, ts: seq<Token>): (r: Parsed<Proto>)
    ensures |r.rest| <= |ts| && (r.result.Ok? ==> |r.rest| < |ts|)
    decreases |ts|
  {
    if Cur(ts).TokIdentifier? then ParamList(fnName, params + [ts[0].name], ts[1..])
    else if Cur(ts) != TokChar(')') then Parsed(Err(ExpectedCloseParenInProto), ts)
    else Parsed(Ok(Proto(fnName, params)), ts[1..])
  }

  /** definition ::= 'def' prototype expression */
  function Definition(ts: seq<Token>): (r: Parsed<Function>)
    requires Cur(ts) == TokDef
    ensures |r.rest| <= |ts| && (r.result.Ok? ==> |r.rest| < |ts|)
  {
    var proto := Prototype(ts[1..]);
    if proto.result.Err? then Parsed(Err(proto.result.msg), proto.rest)
    else
      var body := Expression(proto.rest);
      if body.result.Err? then Parsed(Err(body.result.msg), body.rest)
      else Parsed(Ok(Function(proto.result.value, body.result.value)), body.rest)
  }

  /** external ::= 'extern' prototype */
  function ExternDecl(ts: seq<Token>): (r: Parsed<Proto>)
    requires Cur(ts) == TokExtern
    ensures |r.rest| <= |ts| && (r.result.Ok? ==> |r.rest| < |ts|)
  {
    Prototype(ts[1..])
  }

  /** toplevelexpr ::= expression, wrapped in an anonymous prototype */
  function TopLevelExpr(ts: seq<Token>): (r: Parsed<Function>)
    ensures |r.rest| <= |ts| && (r.result.Ok? ==> |r.rest| < |ts|)
  {
    var e := Expression(ts);
    if e.result.Err? then Parsed(Err(e.result.msg), e.rest)
    else Parsed(Ok(Function(Proto("", []), e.result.value)), e.rest)
  }

  /** What the top-level loop reports for one item (the "Parsed a ..." lines and the errors). */
  datatype Event =
    | DefinitionParsed(def: Function)
    | ExternParsed(proto: Proto)
    | TopLevelExprParsed(top: Function)
    | SyntaxError(msg: string)

  /** HandleDefinition: on failure one more token is skipped. */
  function DefinitionItem(ts: seq<Token>): (r: (Event, seq<Token>))
    requires Cur(ts) == TokDef
    ensures |r.1| < |ts|
  {
    var p := Definition(ts);
    if p.result.Ok? then (DefinitionParsed(p.result.value), p.rest)
    else (SyntaxError(p.result.msg), Next(p.rest))
  }

  /** HandleExtern: on failure one more token is skipped. */
  function ExternItem(ts: seq<Token>): (r: (Event, seq<Token>))
    requires Cur(ts) == TokExtern
    ensures |r.1| < |ts|
  {
    var p := ExternDecl(ts);
    if p.result.Ok? then (ExternParsed(p.result.value), p.rest)
    else (SyntaxError(p.result.msg), Next(p.rest))
  }

  /** HandleTopLevelExpression: on failure one more token is skipped. */
  function TopLevelExprItem(ts: seq<Token>): (r: (Event, seq<Token>))
    requires Cur(ts) != TokEof
    ensures |r.1| < |ts|
  {
    var p := TopLevelExpr(ts);
    if p.result.Ok? then (TopLevelExprParsed(p.result.value), p.rest)
    else (SyntaxError(p.result.msg), Next(p.rest))
  }

  /**
   * MainLoop: the events reported for the whole token stream. ';' is
   * skipped, 'def' and 'extern' go to their parsers, anything else is a
   * top-level expression, and EOF ends the loop.
   */
  function Program(ts: seq<Token>): (events: seq<Event>)
    ensures |events| <= |ts|
    decreases |ts|
  {
    if Cur(ts) == TokEof then []
    else if Cur(ts) == TokChar(';') then Program(ts[1..])
    else
      var (event, rest) := Item(ts);
      [event] + Program(rest)
  }

  /** The dispatch of MainLoop on a current token other than EOF and ';'. */
  function Item(ts: seq<Token>): (r: (Event, seq<Token>))
    requires Cur(ts) != TokEof
    ensures |r.1| < |ts|
  {
    if Cur(ts) == TokDef then DefinitionItem(ts)
    else if Cur(ts) == TokExtern then ExternItem(ts)
    else TopLevelExprItem(ts)
  }
}
