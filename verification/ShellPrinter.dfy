/** Parsing undoes printing: a printer that parenthesises every operand, and the proof that the lexer and the parser
    of sh-xv6.c give every printed tree back. */
module ShellPrinter {
  import opened Prelude
  import opened ShellLexer
  import opened ShellGrammar
  import opened ShellParser
  import T = ShellGrammarTheorems
  import G = ShellGrammar

  predicate IsWord(w: string) {
    w != "" && forall k :: 0 <= k < |w| ==> IsWordChar(w[k])
  }

  /** The trees the language can express (PrintableExactly): real words, and fewer than MAXARGS of them in a simple
      command. */
  predicate Printable(c: Cmd<string>) {
    match c
    case Exec(argv) => |argv| < MAXARGS && forall i :: 0 <= i < |argv| ==> IsWord(argv[i])
    case Redir(d, f, _) => Printable(d) && IsWord(f)
    case Pipe(l, r) => Printable(l) && Printable(r)
    case List(l, r) => Printable(l) && Printable(r)
    case Back(d) => Printable(d)
  }

  // ---------- The printer ----------

  function Print(c: Cmd<string>): string {
    Render(YieldLine(Show(c), []))
  }

  function Render(ts: seq<Token<string>>): string {
    if ts == [] then "" else TokenText(ts[0]) + " " + Render(ts[1..])
  }

  function TokenText(t: Token<string>): string {
    match t case Word(w) => w case Op(c) => if c == '+' then ">>" else [c]
  }

  function Show(c: Cmd<string>): Line<string> {
    match c
    case Exec(argv) => Last(Single(Items(seq(|argv|, i requires 0 <= i < |argv| => Arg(argv[i])))), 0)
    case Redir(d, f, op) => Last(Single(Block(Show(d), [Redirection(op, f)])), 0)
    case Pipe(l, r) => Last(Bar(Group(Show(l)), Single(Group(Show(r)))), 0)
    case List(l, r) => Then(Single(Group(Show(l))), 0, Last(Single(Group(Show(r))), 0))
    case Back(d) => Last(Single(Group(Show(d))), 1)
  }

  function Group(d: Line<string>): Simple<string> { Block(d, []) }

  lemma GroupMeans(d: Line<string>)
    ensures TreeSimple(Group(d)) == TreeLine(d)
    ensures FewArgsSimple(Group(d)) == FewArgsLine(d)
  {
  }

  lemma RedirMeans(d: Line<string>, r: Redirection<string>)
    ensures TreeSimple(Block(d, [r])) == Redir(TreeLine(d), r.file, r.op)
  {
    var c := TreeLine(d);
    assert [r][1..] == [];
    assert Wrap(Redir(c, r.file, r.op), []) == Redir(c, r.file, r.op);
  }

  lemma SingleMeans(e: Simple<string>)
    ensures TreePipe(Single(e)) == TreeLine(Last(Single(e), 0)) == TreeSimple(e)
    ensures FewArgsPipe(Single(e)) == FewArgsLine(Last(Single(e), 0)) == FewArgsSimple(e)
  {
  }

  lemma {:induction false} AllArgs(items: seq<Item<string>>, argv: seq<string>)
    requires |items| == |argv| && forall i :: 0 <= i < |argv| ==> items[i] == Arg(argv[i])
    ensures ArgsOf(items) == argv && RedirsOf(items) == []
    decreases items
  {
    if items != [] {
      AllArgs(items[1..], argv[1..]);
    }
  }

  /** What is shown is a derivation of the tree itself. */
  lemma {:induction false} ShowMeans(c: Cmd<string>)
    requires Printable(c)
    ensures FewArgsLine(Show(c)) && TreeLine(Show(c)) == c
  {
    match c
    case Exec(argv) =>
      AllArgs(Show(c).pipe.exec.items, argv);
      SingleMeans(Show(c).pipe.exec);
      assert Wrap(Exec(argv), []) == Exec(argv);
    case Redir(d, f, op) =>
      ShowMeans(d);
      RedirMeans(Show(d), Redirection(op, f));
    case Pipe(l, r) =>
      ShowMeans(l);
      ShowMeans(r);
      GroupMeans(Show(l));
      GroupMeans(Show(r));
      SingleMeans(Group(Show(r)));
    case List(l, r) =>
      ShowMeans(l);
      ShowMeans(r);
      GroupMeans(Show(l));
      GroupMeans(Show(r));
      SingleMeans(Group(Show(r)));
    case Back(d) =>
      ShowMeans(d);
      GroupMeans(Show(d));
      assert Backs(d, 1) == Backs(Back(d), 0);
  }

  // ---------- The tokens of a derivation can be told apart when written out ----------

  predicate Writable(t: Token<string>) {
    match t case Word(w) => IsWord(w) case Op(c) => IsSymbol(c) || c == '+'
  }

  predicate AllWritable(ts: seq<Token<string>>) {
    forall i :: 0 <= i < |ts| ==> Writable(ts[i])
  }

  lemma {:induction false} ItemsWritable(items: seq<Item<string>>, rest: seq<Token<string>>)
    requires forall i :: 0 <= i < |items| ==> items[i].Arg? && IsWord(items[i].word)
    requires AllWritable(rest)
    ensures AllWritable(YieldItems(items, rest))
    decreases items
  {
    if items != [] {
      ItemsWritable(items[1..], rest);
    }
  }

  lemma {:induction false} ShowWritable(c: Cmd<string>, rest: seq<Token<string>>)
    requires Printable(c) && AllWritable(rest)
    ensures AllWritable(YieldLine(Show(c), rest))
    decreases c, 0
  {
    match c
    case Exec(argv) =>
      ItemsWritable(Show(c).pipe.exec.items, rest);
      assert YieldLine(Show(c), rest) == YieldSimple(Show(c).pipe.exec, rest);
    case Redir(d, f, op) =>
      var r := Redirection(op, f);
      assert YieldRedirs([r], rest) == [Op(OpChar(op)), Word(f)] + YieldRedirs([r][1..], rest);
      ShowWritable(d, [Op(')')] + YieldRedirs([r], rest));
      assert YieldLine(Show(c), rest) == YieldSimple(Block(Show(d), [r]), rest);
    case Pipe(l, r) =>
      GroupWritable(r, rest);
      GroupWritable(l, [Op('|')] + YieldSimple(Group(Show(r)), rest));
      assert YieldPipe(Single(Group(Show(r))), rest) == YieldSimple(Group(Show(r)), rest);
      assert YieldLine(Show(c), rest) == YieldPipe(Show(c).pipe, rest);
    case List(l, r) =>
      GroupWritable(r, rest);
      GroupWritable(l, [Op(';')] + YieldSimple(Group(Show(r)), rest));
      assert YieldLine(Last(Single(Group(Show(r))), 0), rest) == YieldSimple(Group(Show(r)), rest);
    case Back(d) =>
      assert YieldAmps(1, rest) == [Op('&')] + YieldAmps(0, rest);
      GroupWritable(d, YieldAmps(1, rest));
  }

  lemma {:induction false} GroupWritable(c: Cmd<string>, rest: seq<Token<string>>)
    requires Printable(c) && AllWritable(rest)
    ensures AllWritable(YieldSimple(Group(Show(c)), rest))
    decreases c, 1
  {
    ShowWritable(c, [Op(')')] + rest);
    assert YieldRedirs([], rest) == rest;
  }

  // ---------- Lexing undoes rendering ----------

  function MapToken<V, W>(f: V -> W, t: Token<V>): Token<W> {
    match t case Word(w) => Word(f(w)) case Op(c) => Op(c)
  }

  function MapTokens<V, W>(f: V -> W, ts: seq<Token<V>>): seq<Token<W>> {
    seq(|ts|, i requires 0 <= i < |ts| => MapToken(f, ts[i]))
  }

  /** The tokens of `s` from `i` on, words as text. */
  function TokensOf(s: string, i: nat): seq<Token<string>>
    requires i <= |s|
  {
    MapTokens((w: Span) => Slice(s, w), Lex(s, i))
  }

  /** A token that is followed by this character goes on with it. */
  predicate GoesOn(t: Token<string>, c: char) {
    match t case Word(_) => !IsSpace(c) && !IsSymbol(c) case Op(o) => o == '>' && c == '>'
  }

  /** From `i` to `j` there is blank space, from `j` to `k` the token `t`, and it does not go on. */
  predicate SpelledAt(s: string, i: nat, j: nat, k: nat, t: Token<string>) {
    && i <= j < k <= |s| && (forall x :: i <= x < j ==> IsSpace(s[x]))
    && Writable(t) && s[j..k] == TokenText(t) && (k < |s| ==> !GoesOn(t, s[k]))
  }

  /** From `i` on, `s` is the texts of the tokens in order, with nothing but blank space before, between and after
      them. */
  ghost predicate Spells(s: string, i: nat, ts: seq<Token<string>>)
    decreases |ts|
  {
    if ts == [] then i <= |s| && forall x :: i <= x < |s| ==> IsSpace(s[x])
    else exists j: nat, k: nat :: SpelledAt(s, i, j, k, ts[0]) && Spells(s, k, ts[1..])
  }

  lemma ReadsToken(s: string, i: nat, j: nat, k: nat, t: Token<string>)
    requires SpelledAt(s, i, j, k, t)
    ensures SkipSpaces(s, i) == j && !IsSpace(s[j]) && TokenStop(s, j) == k
    ensures MapToken((w: Span) => Slice(s, w), TokenAt(s, j)) == t
  {
    var x := TokenText(t);
    forall y | j <= y < k ensures s[y] == x[y - j] {
      assert s[y] == s[j..k][y - j];
    }
    assert s[j] == x[0] && (|x| > 1 ==> s[j + 1] == x[1]);
    if t.Word? {
      assert forall y :: j <= y < k ==> IsWordChar(s[y]);
      assert SkipWord(s, j) == k;
    }
  }

  lemma LexFirst(s: string, i: nat, j: nat, k: nat, t: Token<string>)
    requires SpelledAt(s, i, j, k, t)
    ensures TokensOf(s, i) == [t] + TokensOf(s, k)
  {
    hide TokenAt, TokenStop, SpelledAt, MapTokens;
    ReadsToken(s, i, j, k, t);
    MapCons((w: Span) => Slice(s, w), TokenAt(s, j), Lex(s, k));
  }

  lemma {:induction false} SpellingIsLexed(s: string, i: nat, ts: seq<Token<string>>)
    requires i <= |s| && Spells(s, i, ts)
    ensures TokensOf(s, i) == ts
    decreases |ts|
  {
    hide SpelledAt, TokensOf;
    if ts == [] {
      NothingToLex(s, i);
    } else {
      var j: nat, k: nat :| SpelledAt(s, i, j, k, ts[0]) && Spells(s, k, ts[1..]);
      SpelledWithin(s, i, j, k, ts[0]);
      LexFirst(s, i, j, k, ts[0]);
      SpellingIsLexed(s, k, ts[1..]);
      assert [ts[0]] + ts[1..] == ts;
    }
  }

  lemma SpelledWithin(s: string, i: nat, j: nat, k: nat, t: Token<string>)
    requires SpelledAt(s, i, j, k, t)
    ensures i <= |s| && k <= |s|
  {
  }

  lemma NothingToLex(s: string, i: nat)
    requires i <= |s| && forall x :: i <= x < |s| ==> IsSpace(s[x])
    ensures TokensOf(s, i) == []
  {
    assert SkipSpaces(s, i) == |s|;
  }

  /** The token that the lexer reads is spelled there. */
  lemma TokenIsSpelled(s: string, i: nat)
    requires IsLine(s) && i <= |s| && SkipSpaces(s, i) < |s|
    ensures var j := SkipSpaces(s, i);
            SpelledAt(s, i, j, TokenStop(s, j), MapToken((w: Span) => Slice(s, w), TokenAt(s, j)))
  {
    var j := SkipSpaces(s, i);
    assert s[j] in s;
    assert IsWordChar(s[j]) ==> SkipWord(s, j) > j;
    assert forall x :: j <= x < |s| ==> s[x] in s;
  }

  lemma {:induction false} LexSpells(s: string, i: nat)
    requires IsLine(s) && i <= |s|
    ensures Spells(s, i, TokensOf(s, i))
    decreases |s| - i
  {
    hide SpelledAt, TokenAt, TokenStop, IsLine, MapTokens;
    var j := SkipSpaces(s, i);
    if j == |s| {
      NothingToLex(s, i);
    } else {
      var k, t := TokenStop(s, j), MapToken((w: Span) => Slice(s, w), TokenAt(s, j));
      TokenIsSpelled(s, i);
      LexFirst(s, i, j, k, t);
      LexSpells(s, k);
      var ts := TokensOf(s, i);
      assert ts[0] == t && ts[1..] == TokensOf(s, k);
      assert SpelledAt(s, i, j, k, ts[0]) && Spells(s, k, ts[1..]);
    }
  }

  /** The tokens of a line are exactly those that spell it: no character is lost, and no token could be longer. */
  lemma LexExactly(s: string, ts: seq<Token<string>>)
    requires IsLine(s)
    ensures TokensOf(s, 0) == ts <==> Spells(s, 0, ts)
  {
    LexSpells(s, 0);
    if Spells(s, 0, ts) {
      SpellingIsLexed(s, 0, ts);
    }
  }

  lemma RenderHead(ts: seq<Token<string>>)
    requires ts != []
    ensures Render(ts) == TokenText(ts[0]) + (" " + Render(ts[1..]))
  {
    hide TokenText;
    var x, rest := TokenText(ts[0]), Render(ts[1..]);
    assert (x + " ") + rest == x + (" " + rest);
  }

  lemma RenderFirst(s: string, i: nat, ts: seq<Token<string>>) returns (e: nat)
    requires ts != [] && i <= |s| && s[i..] == Render(ts)
    ensures e == i + |TokenText(ts[0])| < |s|
    ensures s[i..e] == TokenText(ts[0]) && s[e] == ' ' && s[e + 1..] == Render(ts[1..])
  {
    hide Render, TokenText;
    var x, rest := TokenText(ts[0]), Render(ts[1..]);
    e := i + |x|;
    RenderHead(ts);
    SplitAt(s, i, x, " " + rest);
    SplitAt(s, e, " ", rest);
    assert s[e] == s[e..e + 1][0];
  }

  lemma SplitAt(s: string, i: nat, a: string, b: string)
    requires i <= |s| && s[i..] == a + b
    ensures i + |a| <= |s| && s[i..i + |a|] == a && s[i + |a|..] == b
  {
    assert s[i..i + |a|] == s[i..][..|a|] && s[i + |a|..] == s[i..][|a|..];
  }

  /** What is rendered from `j` on, with blank space from `i` to `j`. */
  lemma {:induction false} RenderSpells(s: string, i: nat, j: nat, ts: seq<Token<string>>)
    requires AllWritable(ts) && i <= j <= |s| && s[j..] == Render(ts) && forall x :: i <= x < j ==> IsSpace(s[x])
    ensures Spells(s, i, ts)
    decreases ts
  {
    hide TokenText;
    if ts != [] {
      var k := RenderFirst(s, j, ts);
      TextIsNotEmpty(ts[0]);
      assert SpelledAt(s, i, j, k, ts[0]);
      RenderSpells(s, k, k + 1, ts[1..]);
    }
  }

  lemma TextIsNotEmpty(t: Token<string>)
    requires Writable(t)
    ensures TokenText(t) != ""
  {
  }

  lemma LexUndoesRender(s: string, i: nat, ts: seq<Token<string>>)
    requires AllWritable(ts) && i <= |s| && s[i..] == Render(ts)
    ensures TokensOf(s, i) == ts
  {
    RenderSpells(s, i, i, ts);
    SpellingIsLexed(s, i, ts);
  }

  lemma MapCons<V, W>(f: V -> W, t: Token<V>, ts: seq<Token<V>>)
    ensures MapTokens(f, [t] + ts) == [MapToken(f, t)] + MapTokens(f, ts)
  {
  }

  // ---------- The parser never looks inside a word ----------

  function MapParse<V, W>(f: V -> W, r: Parse<V>): Parse<W> {
    match r case None => None case Some((c, rest)) => Some((MapCmd(f, c), MapTokens(f, rest)))
  }

  lemma MapTail<V, W>(f: V -> W, ts: seq<Token<V>>, n: nat)
    requires n <= |ts|
    ensures MapTokens(f, ts)[n..] == MapTokens(f, ts[n..])
  {
  }

  lemma {:induction false} MapAddArg<V, W>(f: V -> W, c: Cmd<V>, w: V)
    ensures MapCmd(f, AddArg(c, w)) == AddArg(MapCmd(f, c), f(w))
    decreases c
  {
    if c.Redir? {
      MapAddArg(f, c.cmd, w);
    }
  }

  lemma {:induction false} MapRedirs<V, W>(f: V -> W, c: Cmd<V>, ts: seq<Token<V>>)
    ensures G.ParseRedirs(MapCmd(f, c), MapTokens(f, ts)) == MapParse(f, G.ParseRedirs(c, ts))
    decreases |ts|
  {
    if HeadIsRedir(ts) && |ts| >= 2 && ts[1].Word? {
      MapTail(f, ts, 2);
      MapRedirs(f, Redir(c, ts[1].word, RedirOpOf(ts[0].op)), ts[2..]);
    }
  }

  lemma {:induction false} MapItems<V, W>(f: V -> W, c: Cmd<V>, argc: nat, ts: seq<Token<V>>)
    ensures G.ParseItems(MapCmd(f, c), argc, MapTokens(f, ts)) == MapParse(f, G.ParseItems(c, argc, ts))
    decreases |ts|
  {
    MapRedirs(f, c, ts);
    match G.ParseRedirs(c, ts)
    case None =>
    case Some((d, rest)) =>
      if rest != [] && rest[0].Word? && argc + 1 < MAXARGS {
        MapTail(f, rest, 1);
        MapAddArg(f, d, rest[0].word);
        MapItems(f, AddArg(d, rest[0].word), argc + 1, rest[1..]);
      }
  }

  lemma {:induction false} MapAmps<V, W>(f: V -> W, c: Cmd<V>, ts: seq<Token<V>>)
    ensures var (b, rest) := G.ParseAmps(c, ts);
            G.ParseAmps(MapCmd(f, c), MapTokens(f, ts)) == (MapCmd(f, b), MapTokens(f, rest))
    decreases |ts|
  {
    if HeadIs(ts, '&') {
      MapTail(f, ts, 1);
      MapAmps(f, Back(c), ts[1..]);
    }
  }

  lemma {:induction false} MapExec<V, W>(f: V -> W, ts: seq<Token<V>>)
    ensures G.ParseExec(MapTokens(f, ts)) == MapParse(f, G.ParseExec(ts))
    decreases |ts|, 0
  {
    if HeadIs(ts, '(') {
      MapTail(f, ts, 1);
      MapLine(f, ts[1..]);
      match G.ParseLine(ts[1..])
      case None =>
      case Some((c, rest)) =>
        if HeadIs(rest, ')') {
          MapTail(f, rest, 1);
          MapRedirs(f, c, rest[1..]);
        }
    } else {
      MapItems(f, Exec([]), 0, ts);
      assert MapCmd(f, Exec([])) == Exec([]);
    }
  }

  lemma {:induction false} MapPipe<V, W>(f: V -> W, ts: seq<Token<V>>)
    ensures G.ParsePipe(MapTokens(f, ts)) == MapParse(f, G.ParsePipe(ts))
    decreases |ts|, 1
  {
    MapExec(f, ts);
    match G.ParseExec(ts)
    case None =>
    case Some((c, rest)) =>
      if HeadIs(rest, '|') {
        MapTail(f, rest, 1);
        MapPipe(f, rest[1..]);
      }
  }

  lemma {:induction false} MapLine<V, W>(f: V -> W, ts: seq<Token<V>>)
    ensures G.ParseLine(MapTokens(f, ts)) == MapParse(f, G.ParseLine(ts))
    decreases |ts|, 2
  {
    MapPipe(f, ts);
    match G.ParsePipe(ts)
    case None =>
    case Some((c, rest)) =>
      MapAmps(f, c, rest);
      var (b, rest') := G.ParseAmps(c, rest);
      if HeadIs(rest', ';') {
        MapTail(f, rest', 1);
        MapLine(f, rest'[1..]);
      }
  }

  lemma {:induction false} MapKeepsSize<V, W>(f: V -> W, c: Cmd<V>)
    ensures Size(MapCmd(f, c)) == Size(c)
  {
    match c
    case Exec(_) =>
    case Redir(d, _, _) => MapKeepsSize(f, d);
    case Pipe(l, r) => MapKeepsSize(f, l); MapKeepsSize(f, r);
    case List(l, r) => MapKeepsSize(f, l); MapKeepsSize(f, r);
    case Back(d) => MapKeepsSize(f, d);
  }

  // ---------- Main results ----------

  /** Writing out any derivation and parsing the text gives the tree the derivation denotes. */
  lemma ParseUndoesRender(d: Line<string>)
    requires FewArgsLine(d) && AllWritable(YieldLine(d, []))
    ensures var s := Render(YieldLine(d, []));
            var r := ParseAll(Lex(s, 0));
            r.Some? && Text(s, r.value) == TreeLine(d) && Size(r.value) == Size(TreeLine(d))
  {
    var ts := YieldLine(d, []);
    var s := Render(ts);
    var f := (w: Span) => Slice(s, w);
    assert s[0..] == s;
    LexUndoesRender(s, 0, ts);
    MapLine(f, Lex(s, 0));
    T.LineComplete(d, []);
    MapKeepsSize(f, ParseLine(Lex(s, 0)).value.0);
  }

  /** Lexing and parsing a printed tree gives that tree, word for word, in the same arena space. */
  lemma ParseUndoesPrint(c: Cmd<string>)
    requires Printable(c)
    ensures var r := ParseAll(Lex(Print(c), 0));
            r.Some? && Text(Print(c), r.value) == c && Size(r.value) == Size(c)
  {
    ShowMeans(c);
    ShowWritable(c, []);
    ParseUndoesRender(Show(c));
  }

  lemma {:induction false} RenderIsLine(ts: seq<Token<string>>)
    requires AllWritable(ts)
    ensures IsLine(Render(ts))
    decreases ts
  {
    if ts != [] {
      RenderIsLine(ts[1..]);
      assert Writable(ts[0]);
    }
  }

  // ---------- Printable trees are exactly those of lines ----------

  predicate FewArgsCmd<W>(c: Cmd<W>) {
    match c
    case Exec(argv) => |argv| < MAXARGS
    case Redir(d, _, _) => FewArgsCmd(d)
    case Pipe(l, r) => FewArgsCmd(l) && FewArgsCmd(r)
    case List(l, r) => FewArgsCmd(l) && FewArgsCmd(r)
    case Back(d) => FewArgsCmd(d)
  }

  lemma {:induction false} BacksFewArgs<W>(c: Cmd<W>, n: nat)
    ensures FewArgsCmd(Backs(c, n)) == FewArgsCmd(c)
    decreases n
  {
    if n > 0 {
      BacksFewArgs(Back(c), n - 1);
    }
  }

  lemma {:induction false} WrapFewArgs<W>(c: Cmd<W>, rs: seq<Redirection<W>>)
    ensures FewArgsCmd(Wrap(c, rs)) == FewArgsCmd(c)
    decreases rs
  {
    if rs != [] {
      WrapFewArgs(Redir(c, rs[0].file, rs[0].op), rs[1..]);
    }
  }

  lemma {:induction false} LineFewArgs<W>(d: Line<W>)
    ensures FewArgsCmd(TreeLine(d)) == FewArgsLine(d)
  {
    match d
    case Last(p, n) =>
      BacksFewArgs(TreePipe(p), n);
      PipeFewArgs(p);
    case Then(p, n, e) =>
      BacksFewArgs(TreePipe(p), n);
      PipeFewArgs(p);
      LineFewArgs(e);
  }

  lemma {:induction false} PipeFewArgs<W>(d: Pipeline<W>)
    ensures FewArgsCmd(TreePipe(d)) == FewArgsPipe(d)
  {
    match d
    case Single(e) =>
      SimpleFewArgs(e);
    case Bar(e, p) =>
      SimpleFewArgs(e);
      PipeFewArgs(p);
  }

  lemma {:induction false} SimpleFewArgs<W>(d: Simple<W>)
    ensures FewArgsCmd(TreeSimple(d)) == FewArgsSimple(d)
  {
    match d
    case Block(l, rs) =>
      WrapFewArgs(TreeLine(l), rs);
      LineFewArgs(l);
    case Items(items) =>
      WrapFewArgs(Exec(ArgsOf(items)), RedirsOf(items));
  }

  lemma {:induction false} TextIsPrintable(s: string, c: Cmd<Span>)
    requires FewArgsCmd(c) && forall w :: w in Words(c) ==> IsWordSpan(s, w)
    ensures Printable(Text(s, c))
  {
    match c
    case Exec(argv) => assert forall i :: 0 <= i < |argv| ==> argv[i] in Words(c) && IsWord(Slice(s, argv[i]));
    case Redir(d, f, _) =>
      assert f in Words(c) && IsWord(Slice(s, f));
      TextIsPrintable(s, d);
    case Pipe(l, r) =>
      TextIsPrintable(s, l);
      TextIsPrintable(s, r);
    case List(l, r) =>
      TextIsPrintable(s, l);
      TextIsPrintable(s, r);
    case Back(d) =>
      TextIsPrintable(s, d);
  }

  /** A line means a tree exactly if it spells tokens from which the grammar derives the tree. */
  lemma MeansExactly(s: string, c: Cmd<string>)
    requires IsLine(s)
    ensures Means(s, c) <==> exists ts :: Spells(s, 0, ts) && G.Derives(ts, c)
  {
    hide TokensOf, G.Derives;
    var ts := TokensOf(s, 0);
    LexExactly(s, ts);
    TokensMean(s);
    T.ParserDecidesGrammar(ts, c);
    if ts' :| Spells(s, 0, ts') && G.Derives(ts', c) {
      LexExactly(s, ts');
    }
  }

  lemma TokensMean(s: string)
    ensures ParseAll(TokensOf(s, 0)) ==
            match ParseAll(Lex(s, 0)) case None => None case Some(c) => Some(Text(s, c))
  {
    var f := (w: Span) => Slice(s, w);
    MapLine(f, Lex(s, 0));
  }

  /** What a line means can be printed, and so parsed again. */
  lemma ParsedIsPrintable(s: string, c: Cmd<Span>)
    requires IsLine(s) && ParseAll(Lex(s, 0)) == Some(c)
    ensures Printable(Text(s, c))
  {
    var d := T.LineSound(Lex(s, 0));
    LineFewArgs(d);
    forall w | w in Words(c) ensures IsWordSpan(s, w) {
      ParsedWordsAreDelimited(s, c, w);
    }
    TextIsPrintable(s, c);
  }

  /** The line `s` parses to the tree `c`. */
  predicate Means(s: string, c: Cmd<string>) {
    IsLine(s) && ParseAll(Lex(s, 0)).Some? && Text(s, ParseAll(Lex(s, 0)).value) == c
  }

  /** The printable trees are exactly those that some line means. */
  lemma PrintableExactly(c: Cmd<string>)
    ensures Printable(c) <==> exists s :: Means(s, c)
  {
    if Printable(c) {
      ParseUndoesPrint(c);
      ShowWritable(c, []);
      RenderIsLine(YieldLine(Show(c), []));
      assert Means(Print(c), c);
    }
    if s :| Means(s, c) {
      ParsedIsPrintable(s, ParseAll(Lex(s, 0)).value);
    }
  }

  /** The same through the imperative parser: from a buffer that holds the printed tree, `parsecmd` returns a command
      whose C strings are the tree's words, unless the tree does not fit in the arena, and then it panics. */
  method ParsePrinted(c: Cmd<string>, buf: array<char>, used: nat) returns (r: Option<Cmd<Span>>)
    requires Printable(c) && |Print(c)| < buf.Length
    requires buf[..|Print(c)|] == Print(c) && buf[|Print(c)|] == NUL
    modifies buf
    ensures r.Some? <==> used + Size(c) < ARENA
    ensures r.Some? ==> CText(buf[..], r.value) == c
    ensures r.None? ==> buf[..] == old(buf[..])
  {
    ghost var s := Print(c);
    ShowWritable(c, []);
    RenderIsLine(YieldLine(Show(c), []));
    var p := new Parser(buf, used);
    assert forall k :: 0 <= k < |s| ==> s[k] != NUL && buf[..|s|][k] == buf[k];
    assert forall k :: 0 <= k < p.es ==> p.line[k] != NUL && buf[..p.es][k] == buf[k];
    assert p.es == |s| && p.line == s;
    ParseUndoesPrint(c);
    T.ParserDecidesGrammar(Lex(s, 0), ParseAll(Lex(s, 0)).value);
    r := p.ParseCmd();
    if r.Some? {
      T.ParserDecidesGrammar(Lex(s, 0), r.value);
    }
  }
}
