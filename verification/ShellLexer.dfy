/** Tokens of the shell's command language, as `gettoken` and `peek` of sh-xv6.c cut them. */
module ShellLexer {

  const NUL: char := '\0'

  /** A word is kept as two pointers into the line: its first character and one past its last. */
  datatype Span = Span(q: nat, eq: nat)

  /** The '+' operator is the two-character redirection `>>`. */
  datatype Token<W> = Word(word: W) | Op(op: char)

  predicate IsSpace(c: char) {
    c == ' ' || c == '\t' || c == '\r' || c == '\n' || c == '\U{000B}'
  }

  predicate IsSymbol(c: char) {
    c == '<' || c == '|' || c == '>' || c == '&' || c == ';' || c == '(' || c == ')'
  }

  predicate IsWordChar(c: char) {
    c != NUL && !IsSpace(c) && !IsSymbol(c)
  }

  /** A line is the text before its terminating NUL. */
  predicate IsLine(s: string) {
    NUL !in s
  }

  function SkipSpaces(s: string, i: nat): (j: nat)
    requires i <= |s|
    ensures i <= j <= |s|
    ensures forall k :: i <= k < j ==> IsSpace(s[k])
    ensures j < |s| ==> !IsSpace(s[j])
    decreases |s| - i
  {
    if i < |s| && IsSpace(s[i]) then SkipSpaces(s, i + 1) else i
  }

  function SkipWord(s: string, i: nat): (j: nat)
    requires i <= |s|
    ensures i <= j <= |s|
    ensures forall k :: i <= k < j ==> !IsSpace(s[k]) && !IsSymbol(s[k])
    ensures j < |s| ==> IsSpace(s[j]) || IsSymbol(s[j])
    decreases |s| - i
  {
    if i < |s| && !IsSpace(s[i]) && !IsSymbol(s[i]) then SkipWord(s, i + 1) else i
  }

  /** The token that starts at position `j`, which holds no space. */
  function TokenAt(s: string, j: nat): Token<Span>
    requires j < |s| && !IsSpace(s[j])
  {
    if s[j] == '>' && j + 1 < |s| && s[j + 1] == '>' then Op('+')
    else if IsSymbol(s[j]) then Op(s[j])
    else Word(Span(j, SkipWord(s, j)))
  }

  /** Where the token that starts at `j` stops. */
  function TokenStop(s: string, j: nat): (k: nat)
    requires j < |s| && !IsSpace(s[j])
    ensures j < k <= |s|
  {
    if s[j] == '>' && j + 1 < |s| && s[j + 1] == '>' then j + 2
    else if IsSymbol(s[j]) then j + 1
    else SkipWord(s, j)
  }

  /** All the tokens of `s` from position `i` on. */
  function Lex(s: string, i: nat): (ts: seq<Token<Span>>)
    requires i <= |s|
    decreases |s| - i
  {
    var j := SkipSpaces(s, i);
    if j == |s| then [] else [TokenAt(s, j)] + Lex(s, TokenStop(s, j))
  }

  lemma LexSkipsSpaces(s: string, i: nat)
    requires i <= |s|
    ensures Lex(s, SkipSpaces(s, i)) == Lex(s, i)
  {
    var j := SkipSpaces(s, i);
    assert SkipSpaces(s, j) == j;
  }

  /** What the lexer promises of a word's span: it holds only word characters, and what follows it is not one. */
  predicate IsWordSpan(s: string, w: Span) {
    && w.q < w.eq <= |s|
    && (forall k :: w.q <= k < w.eq ==> IsWordChar(s[k]))
    && (w.eq < |s| ==> !IsWordChar(s[w.eq]))
  }

  lemma {:induction false} LexedWordsAreDelimited(s: string, i: nat, w: Span)
    requires IsLine(s) && i <= |s|
    requires Word(w) in Lex(s, i)
    ensures IsWordSpan(s, w)
    decreases |s| - i
  {
    var j := SkipSpaces(s, i);
    if Word(w) != TokenAt(s, j) {
      LexedWordsAreDelimited(s, TokenStop(s, j), w);
    }
  }
}
