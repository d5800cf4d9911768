/**
 * Expressions as written: a tree that keeps every pair of parentheses, the
 * tokens it is written as, and the expression it means. Reading the tokens
 * of such a tree gives back its meaning wherever the parentheses are, as
 * long as the ones the precedence table needs are there. This pins down
 * precedence climbing, left folding, calls and parenthesised expressions at
 * once; printing with the fewest parentheses is the special case `Minimal`.
 */
module Concrete {
  import opened Tokenizer
  import opened Ast
  import opened Grammar
  import opened Printer

  /** An expression as written, parentheses included. */
  datatype Written =
    | Num(lexeme: string)
    | Var(name: string)
    | Apply(callee: string, args: seq<Written>)
    | Infix(op: char, lhs: Written, rhs: Written)
    | Group(inner: Written)

  /** The number of nodes of a written expression. */
  function Count(w: Written): (n: nat)
    ensures n >= 1
    decreases w
  {
    match w
    case Num(_) => 1
    case Var(_) => 1
    case Apply(_, args) => 1 + CountArgs(args)
    case Infix(_, l, r) => 1 + Count(l) + Count(r)
    case Group(x) => 1 + Count(x)
  }

  /** The number of nodes of written arguments. */
  function CountArgs(args: seq<Written>): (n: nat)
    ensures args != [] ==> n >= Count(args[0]) && n > CountArgs(args[1..])
    decreases args
  {
    if args == [] then 0 else Count(args[0]) + CountArgs(args[1..])
  }

  /** The tokens of `w`: parentheses exactly at its groups. */
  function Text(w: Written): (s: seq<Token>)
    ensures |s| > 0 && StartsPrimary(s[0])
    decreases Count(w), 0
  {
    match w
    case Num(lexeme) => [TokNumber(lexeme)]
    case Var(name) => [TokIdentifier(name)]
    case Apply(callee, args) => [TokIdentifier(callee), TokChar('(')] + TextArgs(args) + [TokChar(')')]
    case Infix(op, l, r) => Text(l) + [TokChar(op)] + Text(r)
    case Group(x) => [TokChar('(')] + Text(x) + [TokChar(')')]
  }

  /** The tokens of written arguments, separated by ','. */
  function TextArgs(args: seq<Written>): (s: seq<Token>)
    ensures args != [] ==> |s| > 0 && StartsPrimary(s[0])
    decreases CountArgs(args), 1
  {
    if args == [] then []
    else if |args| == 1 then Text(args[0])
    else Text(args[0]) + [TokChar(',')] + TextArgs(args[1..])
  }

  /** The expression `w` stands for: parentheses leave no node. */
  function Meaning(w: Written): Expr
    decreases Count(w), 0
  {
    match w
    case Num(lexeme) => Number(lexeme)
    case Var(name) => Variable(name)
    case Apply(callee, args) => Call(callee, Meanings(args))
    case Infix(op, l, r) => Binary(op, Meaning(l), Meaning(r))
    case Group(x) => Meaning(x)
  }

  /** The expressions written arguments stand for. */
  function Meanings(args: seq<Written>): (es: seq<Expr>)
    ensures |es| == |args|
    decreases CountArgs(args), 1
  {
    if args == [] then [] else [Meaning(args[0])] + Meanings(args[1..])
  }

  /** A left operand the parser would regroup: an operator binding less tightly, not in parentheses. */
  predicate LooseLeft(l: Written, op: char) {
    l.Infix? && Prec(l.op) < Prec(op)
  }

  /** A right operand the parser would regroup: an operator not binding more tightly, not in parentheses. */
  predicate LooseRight(r: Written, op: char) {
    r.Infix? && Prec(r.op) <= Prec(op)
  }

  /**
   * Every operator of `w` is in the table and no operand is loose: `w` has
   * at least the parentheses the parser needs, and any number more.
   */
  predicate Readable(w: Written)
    decreases Count(w), 0
  {
    match w
    case Num(_) => true
    case Var(_) => true
    case Apply(_, args) => AllReadable(args)
    case Infix(op, l, r) =>
      op in BinopPrecedence && !LooseLeft(l, op) && !LooseRight(r, op) && Readable(l) && Readable(r)
    case Group(x) => Readable(x)
  }

  /** Every written argument is readable. */
  predicate AllReadable(args: seq<Written>)
    decreases CountArgs(args), 1
  {
    args == [] || (Readable(args[0]) && AllReadable(args[1..]))
  }

  /** The meaning of a readable expression uses only operators of the table. */
  lemma {:induction false} ReadableOps(w: Written)
    requires Readable(w)
    ensures OpsInTable(Meaning(w))
    decreases Count(w), 0
  {
    match w
    case Num(_) =>
    case Var(_) =>
    case Apply(_, args) =>
      ReadableArgsOps(args);
    case Infix(_, l, r) =>
      ReadableOps(l);
      ReadableOps(r);
    case Group(x) =>
      ReadableOps(x);
  }

  /** The meanings of readable arguments use only operators of the table. */
  lemma {:induction false} ReadableArgsOps(args: seq<Written>)
    requires AllReadable(args)
    ensures forall i :: 0 <= i < |args| ==> OpsInTable(Meanings(args)[i])
    decreases CountArgs(args), 1
  {
    if args != [] {
      ReadableOps(args[0]);
      ReadableArgsOps(args[1..]);
      forall i | 0 <= i < |args| ensures OpsInTable(Meanings(args)[i]) {
        if i > 0 {
          assert Meanings(args)[i] == Meanings(args[1..])[i - 1];
        }
      }
    }
  }

  /** `e` written with parentheses only where the parser needs them. */
  function Minimal(e: Expr): (w: Written)
    ensures w.Infix? <==> e.Binary?
    ensures w.Infix? ==> w.op == e.op
    decreases Size(e), 1
  {
    match e
    case Number(lexeme) => Num(lexeme)
    case Variable(name) => Var(name)
    case Call(callee, args) => Apply(callee, MinimalArgs(args))
    case Binary(op, l, r) =>
      Infix(op, if ParenLeft(l, op) then Group(Minimal(l)) else Minimal(l),
                if ParenRight(r, op) then Group(Minimal(r)) else Minimal(r))
  }

  /** Arguments written with parentheses only where the parser needs them. */
  function MinimalArgs(args: seq<Expr>): seq<Written>
    decreases ArgsSize(args), 2
  {
    if args == [] then [] else [Minimal(args[0])] + MinimalArgs(args[1..])
  }

  /**
   * `Minimal(e)` is the printing `Show(e)`: it is written as `Show(e)`, it
   * means `e`, and it has every parenthesis the parser needs.
   */
  lemma {:induction false} MinimalFaithful(e: Expr)
    requires OpsInTable(e)
    ensures Text(Minimal(e)) == Show(e) && Meaning(Minimal(e)) == e && Readable(Minimal(e))
    decreases Size(e), 0
  {
    match e
    case Number(_) =>
    case Variable(_) =>
    case Call(_, args) =>
      MinimalArgsFaithful(args);
    case Binary(op, l, r) =>
      var left := if ParenLeft(l, op) then Group(Minimal(l)) else Minimal(l);
      var right := if ParenRight(r, op) then Group(Minimal(r)) else Minimal(r);
      assert Text(left) == ShowLeft(l, op) && Meaning(left) == l && Readable(left) && !LooseLeft(left, op) by {
        MinimalFaithful(l);
      }
      assert Text(right) == ShowRight(r, op) && Meaning(right) == r && Readable(right) && !LooseRight(right, op) by {
        MinimalFaithful(r);
      }
      assert Minimal(e) == Infix(op, left, right);
  }

  /** `MinimalArgs(args)` is written as `ShowArgs(args)`, means `args` and is readable. */
  lemma {:induction false} MinimalArgsFaithful(args: seq<Expr>)
    requires forall i :: 0 <= i < |args| ==> OpsInTable(args[i])
    ensures TextArgs(MinimalArgs(args)) == ShowArgs(args)
    ensures Meanings(MinimalArgs(args)) == args && AllReadable(MinimalArgs(args))
    decreases ArgsSize(args), 1
  {
    if args != [] {
      var ws := MinimalArgs(args);
      MinimalFaithful(args[0]);
      MinimalArgsFaithful(args[1..]);
      assert ws[0] == Minimal(args[0]) && ws[1..] == MinimalArgs(args[1..]);
      assert Meanings(ws) == [args[0]] + args[1..] == args;
      if |args| == 1 {
        assert args[1..] == [] && |ws| == 1;
      } else {
        assert |ws| > 1;
      }
    }
  }

  /** The first primary of `w`: a number, a name, a call or a group. */
  function Lead(w: Written): (p: Written)
    requires Readable(w)
    ensures Readable(p) && !p.Infix?
    ensures !w.Infix? ==> p == w
    ensures w.Infix? ==> Count(p) < Count(w)
    decreases w
  {
    if w.Infix? then Lead(w.lhs) else w
  }

  /** The tokens of `w` after its first primary. */
  function Trail(w: Written): (t: seq<Token>)
    requires Readable(w)
    ensures !w.Infix? ==> t == []
    // the trail of an operator expression opens with an operator binding at least as tightly as the top one
    ensures w.Infix? ==> |t| > 0 && t[0].TokChar? && t[0].c in BinopPrecedence && Prec(t[0].c) >= Prec(w.op)
    decreases w
  {
    if w.Infix? then (if w.lhs.Infix? then Trail(w.lhs) else []) + [TokChar(w.op)] + Text(w.rhs)
    else []
  }

  /** `Text(w)` is its first primary followed by its trail. */
  lemma {:induction false} TextSplit(w: Written)
    requires Readable(w)
    ensures Text(w) == Text(Lead(w)) + Trail(w)
    decreases w
  {
    if w.Infix? {
      var l := w.lhs;
      var right := [TokChar(w.op)] + Text(w.rhs);
      assert Text(w) == Text(l) + right;
      if l.Infix? {
        assert Readable(l) && Lead(w) == Lead(l);
        assert Trail(w) == Trail(l) + right;
        TextSplit(l);
        assert (Text(Lead(l)) + Trail(l)) + right == Text(Lead(l)) + (Trail(l) + right);
      } else {
        assert Lead(w) == l && Trail(w) == [] + right == right;
      }
    }
  }

  /**
   * The tokens of an operator expression and what follows are its first
   * primary, then its trail and what follows, which opens with an operator
   * binding at least as tightly as the top one.
   */
  lemma {:induction false} LeadFirst(w: Written, rest: seq<Token>)
    requires Readable(w) && w.Infix?
    ensures Text(w) + rest == Text(Lead(w)) + (Trail(w) + rest)
    ensures Precedence(Cur(Trail(w) + rest)) >= Prec(w.op) && Cur(Trail(w) + rest) != TokChar('(')
  {
    var t := Trail(w);
    assert Cur(t + rest) == t[0];
    TextSplit(w);
    assert Text(Lead(w)) + t + rest == Text(Lead(w)) + (t + rest);
  }

  /**
   * A number, a call, a group, or a name not followed by '(', is read back as
   * a primary, meaning what it means.
   */
  lemma {:induction false} PrimaryRoundTrip(p: Written, rest: seq<Token>)
    requires !p.Infix? && Readable(p) && (p.Var? ==> Cur(rest) != TokChar('('))
    ensures Primary(Text(p) + rest) == Parsed(Ok(Meaning(p)), rest)
    decreases Count(p), 2
  {
    var ts := Text(p) + rest;
    match p
    case Num(lexeme) =>
      assert ts == [TokNumber(lexeme)] + rest;
      assert ts[1..] == rest;
    case Var(name) =>
      assert ts == [TokIdentifier(name)] + rest;
      assert ts[1..] == rest;
    case Apply(callee, args) =>
      assert Primary(ts) == IdentifierExpr(ts);
      CallRoundTrip(callee, args, rest);
    case Group(x) =>
      ParenRoundTrip(x, rest);
  }

  /**
   * Any readable expression in parentheses is a primary that means what
   * the expression means: the parentheses leave no node.
   */
  lemma {:induction false} ParenRoundTrip(x: Written, rest: seq<Token>)
    requires Readable(x)
    ensures Primary(Text(Group(x)) + rest) == Parsed(Ok(Meaning(x)), rest)
    decreases Count(x), 4
  {
    var ts := Text(Group(x)) + rest;
    var close := [TokChar(')')] + rest;
    assert ts[1..] == Text(x) + close;
    WrittenRoundTrip(x, close);
    assert close[1..] == rest;
  }

  /** A call is read back with the meanings of its arguments, in order. */
  lemma {:induction false} CallRoundTrip(callee: string, args: seq<Written>, rest: seq<Token>)
    requires AllReadable(args)
    ensures IdentifierExpr(Text(Apply(callee, args)) + rest) == Parsed(Ok(Call(callee, Meanings(args))), rest)
    decreases 1 + CountArgs(args), 1
  {
    if args == [] {
      var ts := Text(Apply(callee, args)) + rest;
      assert TextArgs(args) == [];
      assert ts == [TokIdentifier(callee), TokChar('('), TokChar(')')] + rest;
      CallNoArgs(callee, ts, rest);
    } else {
      CallArgsRoundTrip(callee, args, rest);
    }
  }

  /** A call with arguments is read back with the meanings of its arguments, in order. */
  lemma {:induction false} CallArgsRoundTrip(callee: string, args: seq<Written>, rest: seq<Token>)
    requires args != [] && AllReadable(args)
    ensures IdentifierExpr(Text(Apply(callee, args)) + rest) == Parsed(Ok(Call(callee, Meanings(args))), rest)
    decreases 1 + CountArgs(args), 0
  {
    var close := [TokChar(')')] + rest;
    var inner := TextArgs(args) + close;
    CallTokens(callee, args, rest);
    ArgsRoundTrip([], args, rest);
    assert [] + Meanings(args) == Meanings(args);
    CallWithArgs(callee, Text(Apply(callee, args)) + rest, inner);
    assert close[1..] == rest;
  }

  /** The tokens of a call with arguments: the name, '(', the arguments, ')'. */
  lemma {:induction false} CallTokens(callee: string, args: seq<Written>, rest: seq<Token>)
    requires args != []
    ensures var inner := TextArgs(args) + ([TokChar(')')] + rest);
            && Text(Apply(callee, args)) + rest == [TokIdentifier(callee), TokChar('(')] + inner
            && inner == TextArgs(args) + [TokChar(')')] + rest
            && Cur(inner) != TokChar(')')
  {
    assert (TextArgs(args) + [TokChar(')')] + rest)[0] == TextArgs(args)[0];
  }

  /** `f ( )` is a call without arguments. */
  lemma {:induction false} CallNoArgs(callee: string, ts: seq<Token>, rest: seq<Token>)
    requires ts == [TokIdentifier(callee), TokChar('('), TokChar(')')] + rest
    ensures IdentifierExpr(ts) == Parsed(Ok(Call(callee, [])), rest)
  {
    assert ts[1..][1..] == [TokChar(')')] + rest;
    assert ts[1..][2..] == rest;
  }

  /** `f (` followed by anything but ')' reads the argument list, then the closing ')'. */
  lemma {:induction false} CallWithArgs(callee: string, ts: seq<Token>, inner: seq<Token>)
    requires ts == [TokIdentifier(callee), TokChar('(')] + inner && Cur(inner) != TokChar(')')
    ensures var args := ArgumentList([], inner);
            IdentifierExpr(ts)
            == if args.result.Err? then Parsed(Err(args.result.msg), args.rest)
               else Parsed(Ok(Call(callee, args.result.value)), args.rest[1..])
  {
    assert ts[1..] == [TokChar('(')] + inner;
    assert ts[1..][1..] == inner;
  }

  /**
   * The argument loop reads back non-empty arguments, meaning what they
   * mean and in order, up to the closing ')', which it leaves as the
   * current token.
   */
  lemma {:induction false} ArgsRoundTrip(acc: seq<Expr>, args: seq<Written>, rest: seq<Token>)
    requires args != [] && AllReadable(args)
    ensures ArgumentList(acc, TextArgs(args) + [TokChar(')')] + rest)
            == Parsed(Ok(acc + Meanings(args)), [TokChar(')')] + rest)
    decreases CountArgs(args), 7
  {
    if |args| == 1 {
      assert TextArgs(args) == Text(args[0]);
      assert args[1..] == [];
      assert Meanings(args) == [Meaning(args[0])];
      LastArgRoundTrip(acc, args[0], rest);
    } else {
      MoreArgsRoundTrip(acc, args, rest);
    }
  }

  /** Two or more arguments: the first and its ',' are read, then the others. */
  lemma {:induction false} MoreArgsRoundTrip(acc: seq<Expr>, args: seq<Written>, rest: seq<Token>)
    requires |args| > 1 && AllReadable(args)
    ensures ArgumentList(acc, TextArgs(args) + [TokChar(')')] + rest)
            == Parsed(Ok(acc + Meanings(args)), [TokChar(')')] + rest)
    decreases CountArgs(args), 6
  {
    var first := Text(args[0]) + [TokChar(',')];
    var more := TextArgs(args[1..]) + [TokChar(')')] + rest;
    var head := Meaning(args[0]);
    ArgsSplit(args);
    assert TextArgs(args) + [TokChar(')')] + rest == first + more by {
      assert TextArgs(args) == first + TextArgs(args[1..]);
    }
    assert ArgumentList(acc, first + more) == ArgumentList(acc + [head], more) by {
      NextArgRoundTrip(acc, args[0], more);
    }
    assert ArgumentList(acc + [head], more) == Parsed(Ok(acc + [head] + Meanings(args[1..])), [TokChar(')')] + rest) by {
      ArgsRoundTrip(acc + [head], args[1..], rest);
    }
    assert acc + [head] + Meanings(args[1..]) == acc + Meanings(args);
  }

  /** Two or more written arguments: the first, a ',', and the others. */
  lemma {:induction false} ArgsSplit(args: seq<Written>)
    requires |args| > 1 && AllReadable(args)
    ensures TextArgs(args) == Text(args[0]) + [TokChar(',')] + TextArgs(args[1..])
    ensures Meanings(args) == [Meaning(args[0])] + Meanings(args[1..])
    ensures Readable(args[0]) && AllReadable(args[1..])
  {
  }

  /** The last argument is read up to the closing ')'. */
  lemma {:induction false} LastArgRoundTrip(acc: seq<Expr>, arg: Written, rest: seq<Token>)
    requires Readable(arg)
    ensures ArgumentList(acc, Text(arg) + [TokChar(')')] + rest)
            == Parsed(Ok(acc + [Meaning(arg)]), [TokChar(')')] + rest)
    decreases Count(arg), 5
  {
    var close := [TokChar(')')] + rest;
    assert Text(arg) + [TokChar(')')] + rest == Text(arg) + close;
    WrittenRoundTrip(arg, close);
  }

  /** An argument followed by ',' is read, and the loop goes on after the ','. */
  lemma {:induction false} NextArgRoundTrip(acc: seq<Expr>, arg: Written, more: seq<Token>)
    requires Readable(arg)
    ensures ArgumentList(acc, Text(arg) + [TokChar(',')] + more)
            == ArgumentList(acc + [Meaning(arg)], more)
    decreases Count(arg), 5
  {
    var comma := [TokChar(',')] + more;
    var ts := Text(arg) + [TokChar(',')] + more;
    assert ts == Text(arg) + comma;
    assert Expression(ts) == Parsed(Ok(Meaning(arg)), comma) by {
      WrittenRoundTrip(arg, comma);
    }
    ArgThenComma(acc, ts, Meaning(arg), more);
  }

  /** An argument followed by ',' is added to the list, and the loop goes on after the ','. */
  lemma {:induction false} ArgThenComma(acc: seq<Expr>, ts: seq<Token>, arg: Expr, more: seq<Token>)
    requires Expression(ts) == Parsed(Ok(arg), [TokChar(',')] + more)
    ensures ArgumentList(acc, ts) == ArgumentList(acc + [arg], more)
  {
    assert ([TokChar(',')] + more)[1..] == more;
  }

  /**
   * Round trip: the tokens of a readable expression, followed by anything
   * that is neither a binary operator nor '(', parse back to its meaning
   * and leave the rest unread.
   */
  lemma {:induction false} WrittenRoundTrip(w: Written, rest: seq<Token>)
    requires Readable(w) && Precedence(Cur(rest)) == -1 && Cur(rest) != TokChar('(')
    ensures Expression(Text(w) + rest) == Parsed(Ok(Meaning(w)), rest)
    decreases Count(w), 3
  {
    if w.Infix? {
      LeadFirst(w, rest);
      PrimaryRoundTrip(Lead(w), Trail(w) + rest);
      Spine(0, w, rest);
    } else {
      PrimaryRoundTrip(w, rest);
    }
  }

  /**
   * Reading the trail of an operator expression `w` onto the meaning of
   * its first primary amounts to continuing with the meaning of `w` itself
   * as the left-hand side.
   */
  lemma {:induction false} Spine(m: nat, w: Written, rest: seq<Token>)
    requires w.Infix? && Readable(w) && m <= Prec(w.op)
    requires Precedence(Cur(rest)) <= Prec(w.op) && Cur(rest) != TokChar('(')
    ensures BinOpRhs(m, Meaning(Lead(w)), Trail(w) + rest) == BinOpRhs(m, Meaning(w), rest)
    decreases Count(w), 2
  {
    var op, l, r := w.op, w.lhs, w.rhs;
    var right := [TokChar(op)] + Text(r) + rest;
    if l.Infix? {
      assert Trail(w) + rest == Trail(l) + right;
      Spine(m, l, right);
    } else {
      assert Trail(w) + rest == right;
    }
    Fold(m, Meaning(l), op, r, rest);
  }

  /**
   * One step of the precedence-climbing loop: the operator `op` and its
   * written right operand are folded onto the left-hand side `lhs`, and
   * reading goes on after them.
   */
  lemma {:induction false} Fold(m: nat, lhs: Expr, op: char, r: Written, rest: seq<Token>)
    requires op in BinopPrecedence && Readable(r) && !LooseRight(r, op) && m <= Prec(op)
    requires Precedence(Cur(rest)) <= Prec(op) && Cur(rest) != TokChar('(')
    ensures BinOpRhs(m, lhs, [TokChar(op)] + Text(r) + rest) == BinOpRhs(m, Binary(op, lhs, Meaning(r)), rest)
    decreases Count(r), 7
  {
    var ts := [TokChar(op)] + Text(r) + rest;
    assert Cur(ts) == TokChar(op);
    assert ts[1..] == Text(r) + rest;
    if r.Infix? {
      var mid := Trail(r) + rest;
      assert Primary(ts[1..]) == Parsed(Ok(Meaning(Lead(r))), mid) && Prec(op) < Precedence(Cur(mid)) by {
        RightFirst(op, r, rest);
      }
      assert BinOpRhs(Prec(op) + 1, Meaning(Lead(r)), mid) == Parsed(Ok(Meaning(r)), rest) by {
        RightClimb(op, r, rest);
      }
      FoldClimb(m, lhs, op, ts, Meaning(Lead(r)), mid, Meaning(r), rest);
    } else {
      assert Primary(ts[1..]) == Parsed(Ok(Meaning(r)), rest) by {
        PrimaryRoundTrip(r, rest);
      }
      FoldDirect(m, lhs, op, ts, Meaning(r), rest);
    }
  }

  /** The loop folds a right operand that the operator after it does not bind more tightly than `op`. */
  lemma {:induction false} FoldDirect(m: nat, lhs: Expr, op: char, ts: seq<Token>, r: Expr, rest: seq<Token>)
    requires Cur(ts) == TokChar(op) && op in BinopPrecedence && m <= Prec(op)
    requires Primary(ts[1..]) == Parsed(Ok(r), rest) && Precedence(Cur(rest)) <= Prec(op)
    ensures BinOpRhs(m, lhs, ts) == BinOpRhs(m, Binary(op, lhs, r), rest)
  {
  }

  /** The loop hands a right operand that the next operator binds more tightly to the recursive call first. */
  lemma {:induction false} FoldClimb(m: nat, lhs: Expr, op: char, ts: seq<Token>, p: Expr, mid: seq<Token>, r: Expr, rest: seq<Token>)
    requires Cur(ts) == TokChar(op) && op in BinopPrecedence && m <= Prec(op)
    requires Primary(ts[1..]) == Parsed(Ok(p), mid) && Prec(op) < Precedence(Cur(mid))
    requires BinOpRhs(Prec(op) + 1, p, mid) == Parsed(Ok(r), rest)
    ensures BinOpRhs(m, lhs, ts) == BinOpRhs(m, Binary(op, lhs, r), rest)
  {
  }

  /** The loop stops at a token that binds less tightly than the precedence it was called with. */
  lemma {:induction false} StopAt(m: nat, lhs: Expr, rest: seq<Token>)
    requires Precedence(Cur(rest)) < m
    ensures BinOpRhs(m, lhs, rest) == Parsed(Ok(lhs), rest)
  {
  }

  /**
   * A right operand whose operator binds more tightly than `op` starts with
   * its first primary, and the operator after that primary binds more
   * tightly than `op` too.
   */
  lemma {:induction false} RightFirst(op: char, r: Written, rest: seq<Token>)
    requires op in BinopPrecedence && Readable(r) && r.Infix? && Prec(op) < Prec(r.op)
    requires Cur(rest) != TokChar('(')
    ensures Primary(Text(r) + rest) == Parsed(Ok(Meaning(Lead(r))), Trail(r) + rest)
    ensures Prec(op) < Precedence(Cur(Trail(r) + rest))
    decreases Count(r), 6
  {
    LeadFirst(r, rest);
    PrimaryOf(Text(r) + rest, Lead(r), Trail(r) + rest);
  }

  /** Tokens that are the written primary `p` followed by `tail` are read as the meaning of `p`. */
  lemma {:induction false} PrimaryOf(ts: seq<Token>, p: Written, tail: seq<Token>)
    requires !p.Infix? && Readable(p) && Cur(tail) != TokChar('(') && ts == Text(p) + tail
    ensures Primary(ts) == Parsed(Ok(Meaning(p)), tail)
    decreases Count(p), 6
  {
    PrimaryRoundTrip(p, tail);
  }

  /**
   * The recursive call with precedence `op`+1 reads the rest of such a right
   * operand onto its first primary and stops just after it.
   */
  lemma {:induction false} RightClimb(op: char, r: Written, rest: seq<Token>)
    requires op in BinopPrecedence && Readable(r) && r.Infix? && Prec(op) < Prec(r.op)
    requires Precedence(Cur(rest)) <= Prec(op) && Cur(rest) != TokChar('(')
    ensures BinOpRhs(Prec(op) + 1, Meaning(Lead(r)), Trail(r) + rest) == Parsed(Ok(Meaning(r)), rest)
    decreases Count(r), 6
  {
    Spine(Prec(op) + 1, r, rest);
    StopAt(Prec(op) + 1, Meaning(r), rest);
  }

  /**
   * Round trip of the printer: the tokens `Show(e)`, followed by anything
   * that is neither a binary operator nor '(', parse back to `e` and leave
   * the rest unread.
   */
  lemma {:induction false} ExprRoundTrip(e: Expr, rest: seq<Token>)
    requires OpsInTable(e) && Precedence(Cur(rest)) == -1 && Cur(rest) != TokChar('(')
    ensures Expression(Show(e) + rest) == Parsed(Ok(e), rest)
  {
    MinimalFaithful(e);
    WrittenRoundTrip(Minimal(e), rest);
  }

  /**
   * Redundant parentheses change nothing: a readable expression parses
   * exactly as its meaning printed with the fewest parentheses.
   */
  lemma {:induction false} RedundantParens(w: Written, rest: seq<Token>)
    requires Readable(w) && Precedence(Cur(rest)) == -1 && Cur(rest) != TokChar('(')
    ensures OpsInTable(Meaning(w))
    ensures Expression(Text(w) + rest) == Expression(Show(Meaning(w)) + rest)
  {
    ReadableOps(w);
    WrittenRoundTrip(w, rest);
    ExprRoundTrip(Meaning(w), rest);
  }

  /** A '(' whose expression is not followed by ')' is an error, reported where the ')' was expected. */
  lemma {:induction false} UnclosedParen(w: Written, rest: seq<Token>)
    requires Readable(w) && Precedence(Cur(rest)) == -1 && Cur(rest) != TokChar('(')
    requires Cur(rest) != TokChar(')')
    ensures Primary([TokChar('(')] + Text(w) + rest) == Parsed(Err(ExpectedCloseParen), rest)
  {
    var ts := [TokChar('(')] + Text(w) + rest;
    assert ts[1..] == Text(w) + rest;
    WrittenRoundTrip(w, rest);
  }

  /**
   * In any pass of the argument loop, an argument followed by anything but
   * ',' or ')' is an error, reported at that token.
   */
  lemma {:induction false} BadSeparator(acc: seq<Expr>, arg: Written, rest: seq<Token>)
    requires Readable(arg) && Precedence(Cur(rest)) == -1 && Cur(rest) != TokChar('(')
    requires Cur(rest) != TokChar(')') && Cur(rest) != TokChar(',')
    ensures ArgumentList(acc, Text(arg) + rest) == Parsed(Err(ExpectedArgSeparator), rest)
  {
    WrittenRoundTrip(arg, rest);
  }

  /**
   * Arguments separated by ',' and followed by anything but ',' or ')' make
   * the argument loop fail at that token, whatever was read before.
   */
  lemma {:induction false} ArgsBadSeparator(acc: seq<Expr>, args: seq<Written>, rest: seq<Token>)
    requires args != [] && AllReadable(args) && Precedence(Cur(rest)) == -1 && Cur(rest) != TokChar('(')
    requires Cur(rest) != TokChar(')') && Cur(rest) != TokChar(',')
    ensures ArgumentList(acc, TextArgs(args) + rest) == Parsed(Err(ExpectedArgSeparator), rest)
    decreases args
  {
    if |args| == 1 {
      assert TextArgs(args) == Text(args[0]) && Readable(args[0]);
      BadSeparator(acc, args[0], rest);
    } else {
      ArgsStep(acc, args, rest);
      ArgsBadSeparator(acc + [Meaning(args[0])], args[1..], rest);
    }
  }

  /** With two or more arguments, the loop reads the first and its ',' and goes on with the others. */
  lemma {:induction false} ArgsStep(acc: seq<Expr>, args: seq<Written>, rest: seq<Token>)
    requires |args| > 1 && AllReadable(args)
    ensures AllReadable(args[1..])
    ensures ArgumentList(acc, TextArgs(args) + rest) == ArgumentList(acc + [Meaning(args[0])], TextArgs(args[1..]) + rest)
  {
    var more := TextArgs(args[1..]) + rest;
    ArgsSplit(args);
    assert TextArgs(args) + rest == Text(args[0]) + [TokChar(',')] + more;
    NextArgRoundTrip(acc, args[0], more);
  }

  /** A call whose arguments are followed by anything but ',' or ')' is an error, reported at that token. */
  lemma {:induction false} BadArgSeparator(callee: string, args: seq<Written>, rest: seq<Token>)
    requires args != [] && AllReadable(args) && Precedence(Cur(rest)) == -1 && Cur(rest) != TokChar('(')
    requires Cur(rest) != TokChar(')') && Cur(rest) != TokChar(',')
    ensures Primary([TokIdentifier(callee), TokChar('(')] + TextArgs(args) + rest)
            == Parsed(Err(ExpectedArgSeparator), rest)
  {
    var ts := [TokIdentifier(callee), TokChar('(')] + TextArgs(args) + rest;
    var inner := TextArgs(args) + rest;
    assert ts == [TokIdentifier(callee), TokChar('(')] + inner;
    assert Cur(inner) == TextArgs(args)[0];
    ArgsBadSeparator([], args, rest);
    CallWithArgs(callee, ts, inner);
  }
}
