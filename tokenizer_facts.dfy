/** Properties of the tokenizer. */
module TokenizerFacts {
  import opened Tokenizer

  /** A run of characters satisfying `p` from `i` that stops at `j` ends at `j`. */
  lemma {:induction false} RunEndAt(text: string, i: nat, j: nat, p: char -> bool)
    requires i <= j <= |text|
    requires forall k :: i <= k < j ==> p(text[k])
    requires j == |text| || !p(text[j])
    ensures RunEnd(text, i, p) == j
    decreases j - i
  {
    if i < j {
      RunEndAt(text, i + 1, j, p);
    }
  }

  /** Whitespace before a token is skipped: it never changes what is read next. */
  lemma {:induction false} SkipSpace(text: string, pos: nat)
    requires pos < |text| && IsSpace(text[pos])
    ensures Lex(text, pos) == Lex(text, pos + 1)
    ensures Tokenize(text, pos) == Tokenize(text, pos + 1)
  {
    assert RunEnd(text, pos, IsSpace) == RunEnd(text, pos + 1, IsSpace);
  }

  /**
   * A '#' comment produces no token: when a line end closes it, reading
   * goes on after the line end; when EOF closes it, nothing follows.
   */
  lemma {:induction false} CommentSkipped(text: string, pos: nat, k: nat)
    requires pos < k <= |text| && text[pos] == '#'
    requires forall m :: pos < m < k ==> InComment(text[m])
    requires k == |text| || !InComment(text[k])
    ensures k < |text| ==> Tokenize(text, pos) == Tokenize(text, k + 1)
    ensures k == |text| ==> Lex(text, pos) == (TokEof, |text|) && Tokenize(text, pos) == []
  {
    assert RunEnd(text, pos, IsSpace) == pos;
    RunEndAt(text, pos + 1, k, InComment);
    if k < |text| {
      assert LexAt(text, pos) == Lex(text, k);
      SkipSpace(text, k);
    }
  }

  /**
   * EOF is sticky: once gettok has returned tok_eof, the pending character
   * is EOF and every later call returns tok_eof again without reading.
   */
  lemma {:induction false} EofRepeats(text: string, pos: nat)
    requires pos <= |text| && Lex(text, pos).0 == TokEof
    ensures Lex(text, Lex(text, pos).1) == (TokEof, |text|)
    ensures Tokenize(text, pos) == []
  {
    assert RunEnd(text, |text|, IsSpace) == |text|;
  }

  /**
   * The token gettok returns is spelled by the characters just before the
   * new pending one: the name or the number as read, the keyword, or the
   * character itself.
   */
  lemma {:induction false} LexSpelling(text: string, pos: nat)
    requires pos <= |text|
    ensures var (t, next) := Lex(text, pos);
            text[next - |Spelling(t)|..next] == Spelling(t)
    decreases |text| - pos, 1
  {
    LexAtSpelling(text, RunEnd(text, pos, IsSpace));
  }

  /** The same once the whitespace is skipped. */
  lemma {:induction false} LexAtSpelling(text: string, i: nat)
    requires i <= |text| && (i == |text| || !IsSpace(text[i]))
    ensures var (t, next) := LexAt(text, i);
            text[next - |Spelling(t)|..next] == Spelling(t)
    decreases |text| - i, 0
  {
    if i < |text| && !IsAlpha(text[i]) && !IsNumChar(text[i]) && text[i] == '#' {
      var k := RunEnd(text, i + 1, InComment);
      if k < |text| {
        LexSpelling(text, k);
      }
    }
  }

  /** The input that spells the tokens `ts`, each followed by one blank. */
  function Spell(ts: seq<Token>): string {
    if ts == [] then "" else Spelling(ts[0]) + " " + Spell(ts[1..])
  }

  /** A run of characters satisfying `p` spelled at `pos` and stopped at its end is scanned whole. */
  lemma {:induction false} RunSpelled(text: string, pos: nat, w: string, p: char -> bool)
    requires |w| > 0 && pos + |w| <= |text| && text[pos..pos + |w|] == w
    requires forall k :: 0 < k < |w| ==> p(w[k])
    requires pos + |w| == |text| || !p(text[pos + |w|])
    ensures RunEnd(text, pos + 1, p) == pos + |w|
  {
    forall k | pos + 1 <= k < pos + |w| ensures p(text[k]) {
      assert text[k] == text[pos..pos + |w|][k - pos];
    }
    RunEndAt(text, pos + 1, pos + |w|, p);
  }

  /** When the pending character is not whitespace, gettok starts reading at it. */
  lemma {:induction false} NoSpace(text: string, pos: nat)
    requires pos < |text| && !IsSpace(text[pos])
    ensures Lex(text, pos) == LexAt(text, pos)
  {
    assert RunEnd(text, pos, IsSpace) == pos;
  }

  /** A word spelled at `pos` and stopped by a non-alphanumeric character is read whole. */
  lemma {:induction false} WordSpelled(text: string, pos: nat, w: string)
    requires IsName(w) && pos + |w| <= |text| && text[pos..pos + |w|] == w
    requires pos + |w| == |text| || !IsAlnum(text[pos + |w|])
    ensures Lex(text, pos) == (Word(w), pos + |w|)
  {
    assert text[pos] == text[pos..pos + |w|][0];
    NoSpace(text, pos);
    RunSpelled(text, pos, w, IsAlnum);
  }

  /** A number spelled at `pos` and stopped by another character is read whole. */
  lemma {:induction false} NumberSpelled(text: string, pos: nat, n: string)
    requires IsNumeral(n) && pos + |n| <= |text| && text[pos..pos + |n|] == n
    requires pos + |n| == |text| || !IsNumChar(text[pos + |n|])
    ensures Lex(text, pos) == (TokNumber(n), pos + |n|)
  {
    assert text[pos] == text[pos..pos + |n|][0];
    NoSpace(text, pos);
    RunSpelled(text, pos, n, IsNumChar);
  }

  /** Any other character is a token by itself. */
  lemma {:induction false} CharSpelled(text: string, pos: nat)
    requires pos < |text| && WellFormed(TokChar(text[pos]))
    ensures Lex(text, pos) == (TokChar(text[pos]), pos + 1)
  {
    NoSpace(text, pos);
  }

  /** A well-formed token spelled at `pos` and followed by a blank is read back by one gettok. */
  lemma {:induction false} LexSpelled(text: string, pos: nat, t: Token)
    requires WellFormed(t)
    requires pos + |Spelling(t)| < |text|
    requires text[pos..pos + |Spelling(t)|] == Spelling(t)
    requires text[pos + |Spelling(t)|] == ' '
    ensures Lex(text, pos) == (t, pos + |Spelling(t)|)
  {
    var w := Spelling(t);
    if t.TokChar? {
      assert text[pos] == w[0];
      CharSpelled(text, pos);
    } else if t.TokNumber? {
      NumberSpelled(text, pos, w);
    } else {
      assert Word(w) == t;
      WordSpelled(text, pos, w);
    }
  }

  /** Where the spelling of `ts` starts at `pos`, its first token, a blank and the rest follow. */
  lemma {:induction false} SpellStep(text: string, pos: nat, ts: seq<Token>)
    requires pos <= |text| && text[pos..] == Spell(ts) && ts != []
    ensures pos + |Spelling(ts[0])| < |text|
    ensures text[pos..pos + |Spelling(ts[0])|] == Spelling(ts[0])
    ensures text[pos + |Spelling(ts[0])|] == ' '
    ensures text[pos + |Spelling(ts[0])| + 1..] == Spell(ts[1..])
  {
    var n := |Spelling(ts[0])|;
    assert text[pos..] == Spelling(ts[0]) + " " + Spell(ts[1..]);
    BlankSplit(text[pos..], Spelling(ts[0]), Spell(ts[1..]));
    SliceShift(text, pos, n);
  }

  /** A word, a blank and the rest, taken apart again. */
  lemma {:induction false} BlankSplit(s: string, w: string, more: string)
    requires s == w + " " + more
    ensures |w| < |s| && s[..|w|] == w && s[|w|] == ' ' && s[|w| + 1..] == more
  {
    assert s[..|w|] == w;
    assert s[|w| + 1..] == more;
  }

  /** Slicing the text from `pos` and then slicing again is one slice of the text. */
  lemma {:induction false} SliceShift(text: string, pos: nat, n: nat)
    requires pos + n < |text|
    ensures text[pos..][..n] == text[pos..pos + n]
    ensures text[pos..][n] == text[pos + n]
    ensures text[pos..][n + 1..] == text[pos + n + 1..]
  {
  }

  /** One gettok call that does not return EOF contributes its token to the stream. */
  lemma {:induction false} TokenizeStep(text: string, pos: nat, t: Token, next: nat)
    requires pos <= |text| && Lex(text, pos) == (t, next) && t != TokEof
    ensures Tokenize(text, pos) == [t] + Tokenize(text, next)
  {
  }

  /** A well-formed token spelled at `pos` and followed by a blank heads the token stream from `pos`. */
  lemma {:induction false} SpelledHead(text: string, pos: nat, t: Token)
    requires WellFormed(t)
    requires pos + |Spelling(t)| < |text|
    requires text[pos..pos + |Spelling(t)|] == Spelling(t)
    requires text[pos + |Spelling(t)|] == ' '
    ensures Tokenize(text, pos) == [t] + Tokenize(text, pos + |Spelling(t)| + 1)
  {
    var n := |Spelling(t)|;
    LexSpelled(text, pos, t);
    TokenizeStep(text, pos, t, pos + n);
    SkipSpace(text, pos + n);
  }

  /**
   * Round trip: spelling out well-formed tokens, each followed by a blank,
   * and tokenizing the result gives back exactly those tokens.
   */
  lemma {:induction false} TokenizeSpell(text: string, pos: nat, ts: seq<Token>)
    requires pos <= |text| && text[pos..] == Spell(ts)
    requires AllWellFormed(ts)
    ensures Tokenize(text, pos) == ts
    decreases ts
  {
    if ts == [] {
      assert pos == |text| by {
        assert |text[pos..]| == 0;
      }
      EofRepeats(text, pos);
    } else {
      SpellStep(text, pos, ts);
      SpelledHead(text, pos, ts[0]);
      TokenizeSpell(text, pos + |Spelling(ts[0])| + 1, ts[1..]);
      assert ts == [ts[0]] + ts[1..];
    }
  }

  /** Tokenizing the spelling of well-formed tokens gives them back. */
  lemma {:induction false} TokenizeSpellRoundTrip(ts: seq<Token>)
    requires AllWellFormed(ts)
    ensures Tokenize(Spell(ts), 0) == ts
  {
    var text := Spell(ts);
    assert text[0..] == text;
    TokenizeSpell(text, 0, ts);
  }

  /**
   * Identifiers and keywords: after the whitespace, a letter starts the
   * maximal alphanumeric run; exactly "def" and "extern" are keywords, any
   * other run is an identifier named by it, and the character that stopped
   * the run stays pending.
   */
  lemma {:induction false} LexWord(text: string, pos: nat)
    requires pos <= |text|
    requires RunEnd(text, pos, IsSpace) < |text| && IsAlpha(text[RunEnd(text, pos, IsSpace)])
    ensures var i := RunEnd(text, pos, IsSpace);
            var j := RunEnd(text, i + 1, IsAlnum);
            var w := text[i..j];
            && Lex(text, pos).1 == j
            && (Lex(text, pos).0 == TokDef <==> w == "def")
            && (Lex(text, pos).0 == TokExtern <==> w == "extern")
            && (Lex(text, pos).0 == TokIdentifier(w) <==> w != "def" && w != "extern")
  {
  }

  /**
   * Numbers: a digit or '.' starts the maximal run of digits and dots, which
   * is the lexeme; the character that stopped it stays pending.
   */
  lemma {:induction false} LexNumber(text: string, pos: nat)
    requires pos <= |text|
    requires RunEnd(text, pos, IsSpace) < |text| && IsNumChar(text[RunEnd(text, pos, IsSpace)])
    ensures var i := RunEnd(text, pos, IsSpace);
            var j := RunEnd(text, i + 1, IsNumChar);
            Lex(text, pos) == (TokNumber(text[i..j]), j)
  {
  }

  /** Any other character is returned as itself, and exactly that character is consumed. */
  lemma {:induction false} LexOther(text: string, pos: nat)
    requires pos <= |text|
    requires var i := RunEnd(text, pos, IsSpace);
             i < |text| && !IsAlpha(text[i]) && !IsNumChar(text[i]) && text[i] != '#'
    ensures var i := RunEnd(text, pos, IsSpace);
            Lex(text, pos) == (TokChar(text[i]), i + 1)
  {
  }

  /** "1.2.3" is a single number token. */
  lemma {:induction false} DottedNumber()
    ensures Tokenize("1.2.3", 0) == [TokNumber("1.2.3")]
  {
    var text := "1.2.3";
    assert text[0..5] == "1.2.3";
    NumberSpelled(text, 0, "1.2.3");
    TokenizeStep(text, 0, TokNumber("1.2.3"), 5);
    EofRepeats(text, 5);
  }

  /** A comment line produces nothing, whatever it says; the number on the next line is the only token. */
  lemma {:induction false} CommentThenNumber(text: string, k: nat, n: string)
    requires 0 < k < |text| && text[0] == '#' && !InComment(text[k])
    requires forall m :: 0 < m < k ==> InComment(text[m])
    requires IsNumeral(n) && text[k + 1..] == n
    ensures Tokenize(text, 0) == [TokNumber(n)]
  {
    CommentSkipped(text, 0, k);
    NumberAtEnd(text, k + 1, n);
  }

  /** A number that ends the input is the last token. */
  lemma {:induction false} NumberAtEnd(text: string, pos: nat, n: string)
    requires IsNumeral(n) && pos + |n| == |text| && text[pos..] == n
    ensures Tokenize(text, pos) == [TokNumber(n)]
  {
    assert text[pos..pos + |n|] == n;
    NumberSpelled(text, pos, n);
    TokenizeStep(text, pos, TokNumber(n), |text|);
    EofRepeats(text, |text|);
  }

  /** A comment that runs into EOF leaves nothing to read, whatever it says: "x # ..." is just x. */
  lemma {:induction false} CommentAtEnd(text: string, n: string)
    requires IsName(n) && n != "def" && n != "extern"
    requires |n| + 1 < |text| && text[..|n|] == n && IsSpace(text[|n|]) && text[|n| + 1] == '#'
    requires forall m :: |n| + 1 < m < |text| ==> InComment(text[m])
    ensures Tokenize(text, 0) == [TokIdentifier(n)]
  {
    NameThenBlank(text, n);
    CommentSkipped(text, |n| + 1, |text|);
  }

  /** An input that starts with an identifier and a blank yields the identifier, then what follows the blank. */
  lemma {:induction false} NameThenBlank(text: string, n: string)
    requires IsName(n) && n != "def" && n != "extern"
    requires |n| < |text| && text[..|n|] == n && IsSpace(text[|n|])
    ensures Tokenize(text, 0) == [TokIdentifier(n)] + Tokenize(text, |n| + 1)
  {
    assert text[0..|n|] == text[..|n|];
    WordSpelled(text, 0, n);
    TokenizeStep(text, 0, TokIdentifier(n), |n|);
    SkipSpace(text, |n|);
  }

  /**
   * Keywords are recognised only as whole words: "def" followed by a longer
   * word that starts with "def", such as "define", is the keyword and then
   * an identifier.
   */
  lemma {:induction false} KeywordWholeWord(w: string)
    requires IsName(w) && |w| > 3 && w[..3] == "def"
    ensures Tokenize("def " + w, 0) == [TokDef, TokIdentifier(w)]
  {
    var text := "def " + w;
    assert text[..4] == "def ";
    KeywordThenBlank(text);
    assert text[4..] == w;
    assert w[0] == 'd';
    NameAtEnd(text, 4, w);
  }

  /** "def" and a blank at the start of the input are the keyword def, then what follows the blank. */
  lemma {:induction false} KeywordThenBlank(text: string)
    requires 4 <= |text| && text[..4] == "def "
    ensures Tokenize(text, 0) == [TokDef] + Tokenize(text, 4)
  {
    assert text[0..3] == text[..4][..3] == Spelling(TokDef);
    assert text[3] == text[..4][3] == ' ';
    SpelledHead(text, 0, TokDef);
  }

  /** An identifier that ends the input is the last token. */
  lemma {:induction false} NameAtEnd(text: string, pos: nat, w: string)
    requires IsName(w) && w != "def" && w != "extern"
    requires pos + |w| == |text| && text[pos..] == w
    ensures Tokenize(text, pos) == [TokIdentifier(w)]
  {
    assert text[pos..pos + |w|] == w;
    WordSpelled(text, pos, w);
    TokenizeStep(text, pos, TokIdentifier(w), |text|);
    EofRepeats(text, |text|);
  }
}
