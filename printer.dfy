/**
 * Printing: the tokens of expressions, prototypes and top-level items, with
 * parentheses only where the precedence table needs them.
 */
module Printer {
  import opened Tokenizer
  import opened Ast
  import opened Grammar

  /** The precedence of the binary operator `op` (-1 when it is not one). */
  function Prec(op: char): int {
    Precedence(TokChar(op))
  }

  /** Every binary operator in `e` is in the precedence table. */
  predicate OpsInTable(e: Expr)
    decreases e
  {
    match e
    case Number(_) => true
    case Variable(_) => true
    case Binary(op, l, r) => op in BinopPrecedence && OpsInTable(l) && OpsInTable(r)
    case Call(_, args) => forall i :: 0 <= i < |args| ==> OpsInTable(args[i])
  }

  /** The number of nodes of an expression. */
  function Size(e: Expr): (n: nat)
    ensures n >= 1
    decreases e
  {
    match e
    case Number(_) => 1
    case Variable(_) => 1
    case Binary(_, l, r) => 1 + Size(l) + Size(r)
    case Call(_, args) => 1 + ArgsSize(args)
  }

  /** The number of nodes of a list of arguments. */
  function ArgsSize(args: seq<Expr>): (n: nat)
    ensures args != [] ==> n >= Size(args[0]) && n > ArgsSize(args[1..])
    decreases args
  {
    if args == [] then 0 else Size(args[0]) + ArgsSize(args[1..])
  }

  /** A left operand needs parentheses when its operator binds less tightly. */
  predicate ParenLeft(l: Expr, op: char) {
    l.Binary? && Prec(l.op) < Prec(op)
  }

  /** A right operand needs parentheses unless its operator binds more tightly. */
  predicate ParenRight(r: Expr, op: char) {
    r.Binary? && Prec(r.op) <= Prec(op)
  }

  /** A token that can start a primary expression. */
  predicate StartsPrimary(t: Token) {
    t.TokNumber? || t.TokIdentifier? || t == TokChar('(')
  }

  /** The tokens of `e`, with parentheses only where the parser needs them. */
  function Show(e: Expr): (s: seq<Token>)
    ensures |s| > 0 && StartsPrimary(s[0])
    decreases Size(e), 0
  {
    match e
    case Number(lexeme) => [TokNumber(lexeme)]
    case Variable(name) => [TokIdentifier(name)]
    case Call(callee, args) => [TokIdentifier(callee), TokChar('(')] + ShowArgs(args) + [TokChar(')')]
    case Binary(op, l, r) => ShowLeft(l, op) + [TokChar(op)] + ShowRight(r, op)
  }

  /** The tokens of `e` in parentheses. */
  function Enclosed(e: Expr): (s: seq<Token>)
    ensures |s| > 0 && s[0] == TokChar('(')
    decreases Size(e), 1
  {
    [TokChar('(')] + Show(e) + [TokChar(')')]
  }

  /** The tokens of the left operand of `op`. */
  function ShowLeft(l: Expr, op: char): (s: seq<Token>)
    ensures |s| > 0 && StartsPrimary(s[0])
    decreases Size(l), 2
  {
    if ParenLeft(l, op) then Enclosed(l) else Show(l)
  }

  /** The tokens of the right operand of `op`. */
  function ShowRight(r: Expr, op: char): (s: seq<Token>)
    ensures |s| > 0 && StartsPrimary(s[0])
    decreases Size(r), 2
  {
    if ParenRight(r, op) then Enclosed(r) else Show(r)
  }

  /** The tokens of call arguments, separated by ','. */
  function ShowArgs(args: seq<Expr>): (s: seq<Token>)
    ensures args != [] ==> |s| > 0 && StartsPrimary(s[0])
    decreases ArgsSize(args), 3
  {
    if args == [] then []
    else if |args| == 1 then Show(args[0])
    else Show(args[0]) + [TokChar(',')] + ShowArgs(args[1..])
  }

  /** The tokens of parameter names. */
  function Names(ps: seq<string>): (s: seq<Token>)
    ensures |s| == |ps| && forall k :: 0 <= k < |s| ==> s[k] == TokIdentifier(ps[k])
  {
    if ps == [] then [] else [TokIdentifier(ps[0])] + Names(ps[1..])
  }

  /** The tokens of a prototype: its name, '(', its parameter names, ')'. */
  function ShowProto(p: Proto): seq<Token> {
    [TokIdentifier(p.name), TokChar('(')] + Names(p.params) + [TokChar(')')]
  }

  /** An item the top-level loop reports when it parses without error. */
  predicate Reportable(ev: Event) {
    match ev
    case DefinitionParsed(f) => OpsInTable(f.body)
    case ExternParsed(_) => true
    case TopLevelExprParsed(f) => f.proto == Proto("", []) && OpsInTable(f.body)
    case SyntaxError(_) => false
  }

  /** The tokens of a reportable item. */
  function Render(ev: Event): (s: seq<Token>)
    requires Reportable(ev)
    ensures |s| > 0
  {
    match ev
    case DefinitionParsed(f) => [TokDef] + ShowProto(f.proto) + Show(f.body)
    case ExternParsed(p) => [TokExtern] + ShowProto(p)
    case TopLevelExprParsed(f) => Show(f.body)
  }

  /** The tokens of a sequence of items, each closed by ';'. */
  function Script(evs: seq<Event>): seq<Token>
    requires forall k :: 0 <= k < |evs| ==> Reportable(evs[k])
  {
    if evs == [] then [] else Render(evs[0]) + [TokChar(';')] + Script(evs[1..])
  }
}
