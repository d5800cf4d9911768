/** The abstract syntax tree the parser builds (ExprAST and its subclasses, PrototypeAST, FunctionAST). */
module Ast {

  /** An expression. A number keeps the characters of its literal. */
  datatype Expr =
    | Number(lexeme: string)
    | Variable(name: string)
    | Binary(op: char, lhs: Expr, rhs: Expr)
    | Call(callee: string, args: seq<Expr>)

  /** A function's name and parameter names. */
  datatype Proto = Proto(name: string, params: seq<string>)

  /** A function definition: prototype and body. */
  datatype Function = Function(proto: Proto, body: Expr)
}
