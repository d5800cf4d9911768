/**
 * The tokenizer and the parser together: the text of a script of
 * definitions, extern declarations and top-level expressions, written with
 * one blank after every token, is reported back item by item by the
 * top-level loop.
 */
module FrontEndFacts {
  import opened Tokenizer
  import opened Ast
  import opened Grammar
  import opened TokenizerFacts
  import opened Printer
  import opened GrammarFacts

  /** A name gettok reads as an identifier: not a keyword. */
  predicate NameOk(n: string) {
    WellFormed(TokIdentifier(n))
  }

  /** Every name and number in `e` is spelled as gettok reads it. */
  predicate AtomsLexable(e: Expr)
    decreases e
  {
    match e
    case Number(lexeme) => IsNumeral(lexeme)
    case Variable(name) => NameOk(name)
    case Binary(_, l, r) => AtomsLexable(l) && AtomsLexable(r)
    case Call(callee, args) => NameOk(callee) && forall i :: 0 <= i < |args| ==> AtomsLexable(args[i])
  }

  /** A prototype whose name and parameters are identifiers. */
  predicate ProtoLexable(p: Proto) {
    NameOk(p.name) && forall k :: 0 <= k < |p.params| ==> NameOk(p.params[k])
  }

  /** An item whose names and numbers gettok reads as they are. */
  predicate ItemLexable(ev: Event) {
    match ev
    case DefinitionParsed(f) => ProtoLexable(f.proto) && AtomsLexable(f.body)
    case ExternParsed(p) => ProtoLexable(p)
    case TopLevelExprParsed(f) => AtomsLexable(f.body)
    case SyntaxError(_) => false
  }

  lemma {:induction false} Concat(a: seq<Token>, b: seq<Token>)
    requires AllWellFormed(a) && AllWellFormed(b)
    ensures AllWellFormed(a + b)
  {
    forall k | 0 <= k < |a + b| ensures WellFormed((a + b)[k]) {
      if k >= |a| {
        assert (a + b)[k] == b[k - |a|];
      }
    }
  }

  /** The tokens of an expression whose names and numbers are lexable are all tokens gettok returns. */
  lemma {:induction false} ShowWellFormed(e: Expr)
    requires OpsInTable(e) && AtomsLexable(e)
    ensures AllWellFormed(Show(e))
    decreases Size(e), 0
  {
    match e
    case Number(_) =>
    case Variable(_) =>
    case Binary(op, l, r) =>
      OperandWellFormed(l, op);
      OperandWellFormed(r, op);
      Concat(ShowLeft(l, op), [TokChar(op)]);
      Concat(ShowLeft(l, op) + [TokChar(op)], ShowRight(r, op));
    case Call(callee, args) =>
      ArgsWellFormed(args);
      Concat([TokIdentifier(callee), TokChar('(')], ShowArgs(args));
      Concat([TokIdentifier(callee), TokChar('(')] + ShowArgs(args), [TokChar(')')]);
  }

  /** The tokens of an operand, in parentheses or not. */
  lemma {:induction false} OperandWellFormed(x: Expr, op: char)
    requires OpsInTable(x) && AtomsLexable(x)
    ensures AllWellFormed(ShowLeft(x, op)) && AllWellFormed(ShowRight(x, op))
    decreases Size(x), 1
  {
    ShowWellFormed(x);
    Concat([TokChar('(')], Show(x));
    Concat([TokChar('(')] + Show(x), [TokChar(')')]);
  }

  /** The tokens of call arguments. */
  lemma {:induction false} ArgsWellFormed(args: seq<Expr>)
    requires forall i :: 0 <= i < |args| ==> OpsInTable(args[i]) && AtomsLexable(args[i])
    ensures AllWellFormed(ShowArgs(args))
    decreases ArgsSize(args), 2
  {
    if |args| == 1 {
      ShowWellFormed(args[0]);
    } else if |args| > 1 {
      ShowWellFormed(args[0]);
      ArgsWellFormed(args[1..]);
      Concat(Show(args[0]), [TokChar(',')]);
      Concat(Show(args[0]) + [TokChar(',')], ShowArgs(args[1..]));
    }
  }

  /** The tokens of a prototype with identifier names. */
  lemma {:induction false} ProtoWellFormed(p: Proto)
    requires ProtoLexable(p)
    ensures AllWellFormed(ShowProto(p))
  {
    Concat([TokIdentifier(p.name), TokChar('(')], Names(p.params));
    Concat([TokIdentifier(p.name), TokChar('(')] + Names(p.params), [TokChar(')')]);
  }

  /** The tokens of a lexable item. */
  lemma {:induction false} RenderWellFormed(ev: Event)
    requires Reportable(ev) && ItemLexable(ev)
    ensures AllWellFormed(Render(ev))
  {
    match ev
    case DefinitionParsed(f) =>
      ProtoWellFormed(f.proto);
      ShowWellFormed(f.body);
      Concat([TokDef], ShowProto(f.proto));
      Concat([TokDef] + ShowProto(f.proto), Show(f.body));
    case ExternParsed(p) =>
      ProtoWellFormed(p);
      Concat([TokExtern], ShowProto(p));
    case TopLevelExprParsed(f) =>
      ShowWellFormed(f.body);
  }

  /** The tokens of a script of lexable items. */
  lemma {:induction false} ScriptWellFormed(evs: seq<Event>)
    requires forall k :: 0 <= k < |evs| ==> Reportable(evs[k]) && ItemLexable(evs[k])
    ensures AllWellFormed(Script(evs))
    decreases evs
  {
    if evs != [] {
      RenderWellFormed(evs[0]);
      ScriptWellFormed(evs[1..]);
      Concat(Render(evs[0]), [TokChar(';')]);
      Concat(Render(evs[0]) + [TokChar(';')], Script(evs[1..]));
    }
  }

  /** What the top-level loop reports for tokens it also reports for their spelling. */
  lemma {:induction false} SpelledProgram(ts: seq<Token>)
    requires AllWellFormed(ts)
    ensures Program(Tokenize(Spell(ts), 0)) == Program(ts)
  {
    TokenizeSpellRoundTrip(ts);
  }

  /**
   * End to end: the text of a script of lexable items, one blank after
   * each token, is tokenized and parsed back into exactly those items, in
   * order.
   */
  lemma {:induction false} TextRoundTrip(evs: seq<Event>)
    requires forall k :: 0 <= k < |evs| ==> Reportable(evs[k]) && ItemLexable(evs[k])
    ensures Program(Tokenize(Spell(Script(evs)), 0)) == evs
  {
    assert Program(Script(evs)) == evs by {
      ScriptRoundTrip(evs);
    }
    assert AllWellFormed(Script(evs)) by {
      ScriptWellFormed(evs);
    }
    SpelledScript(Script(evs), evs);
  }

  /** Tokens gettok can return, spelled out, are reported as the tokens themselves are. */
  lemma {:induction false} SpelledScript(ts: seq<Token>, evs: seq<Event>)
    requires AllWellFormed(ts) && Program(ts) == evs
    ensures Program(Tokenize(Spell(ts), 0)) == evs
  {
    SpelledProgram(ts);
  }
}
