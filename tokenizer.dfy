/**
 * The tokenizer of the front end (gettok).
 *
 * The input is a finite string; its end stands for EOF. The character the
 * C++ keeps pending between calls (LastChar) is the one at index `pos`, or
 * EOF when `pos` is the length of the input.
 */
module Tokenizer {

  // The character classes of <ctype.h> in the "C" locale (ASCII only).
  predicate IsSpace(c: char) { c == ' ' || '\t' <= c <= '\r' }
  predicate IsAlpha(c: char) { 'a' <= c <= 'z' || 'A' <= c <= 'Z' }
  predicate IsDigit(c: char) { '0' <= c <= '9' }
  predicate IsAlnum(c: char) { IsAlpha(c) || IsDigit(c) }

  /** A character that starts or continues a number: a digit or '.'. */
  predicate IsNumChar(c: char) { IsDigit(c) || c == '.' }

  /** A character that does not end a '#' comment. */
  predicate InComment(c: char) { c != '\n' && c != '\r' }

  /**
   * One classified token. The C++ returns the negative codes tok_eof ..
   * tok_number and passes the name or the number through the globals
   * IdentifierStr and NumVal; here the token carries them. Any other
   * character is its own token.
   */
  datatype Token =
    | TokEof
    | TokDef
    | TokExtern
    | TokIdentifier(name: string)
    | TokNumber(lexeme: string)
    | TokChar(c: char)

  /** The characters a token is made of. */
  function Spelling(t: Token): string {
    match t
    case TokEof => ""
    case TokDef => "def"
    case TokExtern => "extern"
    case TokIdentifier(name) => name
    case TokNumber(lexeme) => lexeme
    case TokChar(c) => [c]
  }

  /** An identifier: a letter followed by letters and digits (no underscore). */
  predicate IsName(s: string) {
    |s| > 0 && IsAlpha(s[0]) && forall k :: 0 < k < |s| ==> IsAlnum(s[k])
  }

  /** A number lexeme: one or more digits and dots, in any arrangement. */
  predicate IsNumeral(s: string) {
    |s| > 0 && forall k :: 0 <= k < |s| ==> IsNumChar(s[k])
  }

  /** The tokens gettok can return for a character that is not EOF. */
  predicate WellFormed(t: Token) {
    match t
    case TokEof => false
    case TokDef => true
    case TokExtern => true
    case TokIdentifier(name) => IsName(name) && name != "def" && name != "extern"
    case TokNumber(lexeme) => IsNumeral(lexeme)
    case TokChar(c) => !IsSpace(c) && !IsAlnum(c) && c != '.' && c != '#'
  }

  /** Every token of `ts` is one gettok can return. */
  predicate AllWellFormed(ts: seq<Token>) {
    forall k :: 0 <= k < |ts| ==> WellFormed(ts[k])
  }

  /** The end of the maximal run of characters satisfying `p` from index `i`. */
  function RunEnd(text: string, i: nat, p: char -> bool): (j: nat)
    requires i <= |text|
    ensures i <= j <= |text|
    ensures forall k :: i <= k < j ==> p(text[k])
    ensures j == |text| || !p(text[j])
    decreases |text| - i
  {
    if i < |text| && p(text[i]) then RunEnd(text, i + 1, p) else i
  }

  /** Classifies a scanned word as a keyword or an identifier. */
  function Word(s: string): Token {
    if s == "def" then TokDef
    else if s == "extern" then TokExtern
    else TokIdentifier(s)
  }

  /** A word starting at `i`: the maximal alphanumeric run, classified. */
  function ScanWord(text: string, i: nat): (r: (Token, nat))
    requires i < |text| && IsAlpha(text[i])
    ensures i < r.1 <= |text| && WellFormed(r.0)
    ensures r.0.TokIdentifier? || r.0 == TokDef || r.0 == TokExtern
    ensures r.1 - i == |Spelling(r.0)| && text[i..r.1] == Spelling(r.0)
    ensures r.1 == |text| || !IsAlnum(text[r.1])
  {
    var j := RunEnd(text, i + 1, IsAlnum);
    var w := text[i..j];
    assert IsName(w) by {
      forall k | 0 < k < |w| ensures IsAlnum(w[k]) {
        assert w[k] == text[i + k];
      }
    }
    (Word(w), j)
  }

  /** A number starting at `i`: the maximal run of digits and dots. */
  function ScanNumber(text: string, i: nat): (r: (Token, nat))
    requires i < |text| && IsNumChar(text[i])
    ensures i < r.1 <= |text| && WellFormed(r.0) && r.0.TokNumber?
    ensures r.1 - i == |Spelling(r.0)| && text[i..r.1] == Spelling(r.0)
    ensures r.1 == |text| || !IsNumChar(text[r.1])
  {
    var j := RunEnd(text, i + 1, IsNumChar);
    var n := text[i..j];
    assert IsNumeral(n) by {
      forall k | 0 <= k < |n| ensures IsNumChar(n[k]) {
        assert n[k] == text[i + k];
      }
    }
    (TokNumber(n), j)
  }

  /**
   * What one call of gettok returns when the pending character is at `pos`:
   * the token and the index of the new pending character.
   */
  function Lex(text: string, pos: nat): (r: (Token, nat))
    requires pos <= |text|
    ensures pos <= r.1 <= |text|
    // EOF is returned only at the end of the input, and consumes nothing more
    ensures r.0 == TokEof ==> r.1 == |text|
    // any other token consumes at least one character and is a token the grammar allows
    ensures r.0 != TokEof ==> pos < r.1 && WellFormed(r.0)
    // the token is at most as long as what was consumed
    ensures pos + |Spelling(r.0)| <= r.1
    // words and numbers are maximal: the character that stopped them stays pending
    ensures r.0.TokIdentifier? || r.0 == TokDef || r.0 == TokExtern ==>
              r.1 == |text| || !IsAlnum(text[r.1])
    ensures r.0.TokNumber? ==> r.1 == |text| || !IsNumChar(text[r.1])
    decreases |text| - pos, 1
  {
    // skip whitespace
    LexAt(text, RunEnd(text, pos, IsSpace))
  }

  /** gettok once the whitespace is skipped: the pending character at `i` is not a space. */
  function LexAt(text: string, i: nat): (r: (Token, nat))
    requires i <= |text| && (i == |text| || !IsSpace(text[i]))
    ensures i <= r.1 <= |text|
    ensures r.0 == TokEof ==> r.1 == |text|
    ensures r.0 != TokEof ==> i < r.1 && WellFormed(r.0)
    ensures i + |Spelling(r.0)| <= r.1
    ensures r.0.TokIdentifier? || r.0 == TokDef || r.0 == TokExtern ==>
              r.1 == |text| || !IsAlnum(text[r.1])
    ensures r.0.TokNumber? ==> r.1 == |text| || !IsNumChar(text[r.1])
    decreases |text| - i, 0
  {
    if i < |text| && IsAlpha(text[i]) then
      ScanWord(text, i)
    else if i < |text| && IsNumChar(text[i]) then
      ScanNumber(text, i)
    else if i < |text| && text[i] == '#' && RunEnd(text, i + 1, InComment) < |text| then
      // a comment ended by a line end: the line end is whitespace for the next call
      Lex(text, RunEnd(text, i + 1, InComment))
    else if i == |text| || text[i] == '#' then
      // at EOF, or a comment that runs into EOF
      (TokEof, |text|)
    else
      (TokChar(text[i]), i + 1)
  }

  /** The tokens successive calls of gettok return from index `pos`, up to EOF (excluded). */
  function Tokenize(text: string, pos: nat): (ts: seq<Token>)
    requires pos <= |text|
    ensures AllWellFormed(ts)
    decreases |text| - pos
  {
    var (t, next) := Lex(text, pos);
    if t == TokEof then [] else [t] + Tokenize(text, next)
  }

  /** The character stream and its pending character, as gettok uses them. */
  class Lexer {
    const text: string
    /** Index of the pending character LastChar; |text| when it is EOF. */
    var pos: nat

    ghost predicate Valid()
      reads this
    {
      pos <= |text|
    }

    constructor (input: string)
      ensures Valid() && text == input && pos == 0
    {
      text := input;
      pos := 0;
    }

    /** gettok: skips whitespace and comments and returns the next token. */
    method GetTok() returns (t: Token)
      requires Valid()
      modifies this
      ensures Valid()
      ensures (t, pos) == Lex(text, old(pos))
      decreases |text| - pos
    {
      ghost var start := pos;
      // skip whitespace
      SkipWhile(IsSpace);
      ghost var i := pos;
      assert Lex(text, start) == LexAt(text, i);

      if pos < |text| && IsAlpha(text[pos]) {
        var identifierStr := ScanRun(IsAlnum);
        assert (Word(identifierStr), pos) == ScanWord(text, i) == LexAt(text, i);
        if identifierStr == "def" {
          return TokDef;
        }
        if identifierStr == "extern" {
          return TokExtern;
        }
        return TokIdentifier(identifierStr);
      }

      if pos < |text| && IsNumChar(text[pos]) {
        var numStr := ScanRun(IsNumChar);
        assert (TokNumber(numStr), pos) == ScanNumber(text, i) == LexAt(text, i);
        return TokNumber(numStr);
      }

      // ignore comment lines starting with '#'
      if pos < |text| && text[pos] == '#' {
        pos := pos + 1;
        SkipWhile(InComment);
        if pos < |text| {
          assert LexAt(text, i) == Lex(text, pos);
          t := GetTok();
          return;
        }
      }

      // Don't consume EOF
      if pos == |text| {
        return TokEof;
      }

      var thisChar := text[pos];
      pos := pos + 1;
      return TokChar(thisChar);
    }

    /** Reads characters while the pending one satisfies `p`. */
    method SkipWhile(p: char -> bool)
      requires Valid()
      modifies this
      ensures Valid() && pos == RunEnd(text, old(pos), p)
    {
      ghost var start := pos;
      while pos < |text| && p(text[pos])
        invariant start <= pos <= |text|
        invariant RunEnd(text, pos, p) == RunEnd(text, start, p)
      {
        pos := pos + 1;
      }
    }

    /**
     * Appends the pending character, then every following one that satisfies
     * `p`, to a buffer (the do-while loops of gettok); returns the buffer.
     */
    method ScanRun(p: char -> bool) returns (buffer: string)
      requires Valid() && pos < |text|
      modifies this
      ensures Valid() && pos == RunEnd(text, old(pos) + 1, p)
      ensures buffer == text[old(pos)..pos]
    {
      ghost var first := pos;
      buffer := [text[pos]];
      pos := pos + 1;
      while pos < |text| && p(text[pos])
        invariant first < pos <= |text|
        invariant buffer == text[first..pos]
        invariant RunEnd(text, pos, p) == RunEnd(text, first + 1, p)
      {
        buffer := buffer + [text[pos]];
        pos := pos + 1;
      }
    }
  }
}
