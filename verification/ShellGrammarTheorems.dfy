/** The recursive-descent parser of sh-xv6.c decides its grammar: soundness, completeness, one tree per line. */
module ShellGrammarTheorems {
  import opened Prelude
  import opened ShellLexer
  import opened ShellGrammar

  /** The tokens that may follow a simple command, a pipeline and a line; the end of the input always may. */
  predicate EndsSimple<W>(ts: seq<Token<W>>) { HeadIs(ts, '|') || EndsPipe(ts) }

  predicate EndsPipe<W>(ts: seq<Token<W>>) { HeadIs(ts, '&') || HeadIs(ts, ';') || EndsLine(ts) }

  predicate EndsLine<W>(ts: seq<Token<W>>) { ts == [] || HeadIs(ts, ')') }

  // ---------- Simple commands ----------

  /** The command that results from meeting `items` one after another. */
  function Extend<W>(c: Cmd<W>, items: seq<Item<W>>): Cmd<W>
    decreases items
  {
    if items == [] then c
    else match items[0]
      case Arg(w) => Extend(AddArg(c, w), items[1..])
      case Redirect(r) => Extend(Redir(c, r.file, r.op), items[1..])
  }

  function AddArgs<W>(c: Cmd<W>, ws: seq<W>): Cmd<W>
    decreases ws
  {
    if ws == [] then c else AddArgs(AddArg(c, ws[0]), ws[1..])
  }

  lemma {:induction false} AddArgsUnderRedir<W>(c: Cmd<W>, file: W, op: RedirOp, ws: seq<W>)
    ensures AddArgs(Redir(c, file, op), ws) == Redir(AddArgs(c, ws), file, op)
    decreases ws
  {
    if ws != [] {
      AddArgsUnderRedir(AddArg(c, ws[0]), file, op, ws[1..]);
    }
  }

  lemma {:induction false} AddArgsToExec<W>(argv: seq<W>, ws: seq<W>)
    ensures AddArgs(Exec(argv), ws) == Exec(argv + ws)
    decreases ws
  {
    if ws == [] {
      assert argv + ws == argv;
    } else {
      AddArgsToExec(argv + [ws[0]], ws[1..]);
      assert argv + [ws[0]] + ws[1..] == argv + ws;
    }
  }

  /** Filling the exec node through its pointer and wrapping it as redirections come gives the same tree as
      collecting the words and the redirections separately. */
  lemma {:induction false} ExtendSeparates<W>(c: Cmd<W>, items: seq<Item<W>>)
    ensures Extend(c, items) == Wrap(AddArgs(c, ArgsOf(items)), RedirsOf(items))
    decreases items
  {
    if items != [] {
      match items[0]
      case Arg(w) =>
        ExtendSeparates(AddArg(c, w), items[1..]);
        assert ArgsOf(items)[1..] == ArgsOf(items[1..]);
      case Redirect(r) =>
        ExtendSeparates(Redir(c, r.file, r.op), items[1..]);
        AddArgsUnderRedir(c, r.file, r.op, ArgsOf(items[1..]));
        assert RedirsOf(items)[1..] == RedirsOf(items[1..]);
    }
  }

  lemma ExtendIsTree<W>(items: seq<Item<W>>)
    ensures Extend(Exec([]), items) == TreeSimple(Items(items))
  {
    ExtendSeparates(Exec([]), items);
    AddArgsToExec([], ArgsOf(items));
    assert [] + ArgsOf(items) == ArgsOf(items);
  }

  lemma ItemsStartWithRedir<W>(c: Cmd<W>, argc: nat, ts: seq<Token<W>>)
    requires HeadIsRedir(ts) && |ts| >= 2 && ts[1].Word?
    ensures ParseItems(c, argc, ts) == ParseItems(Redir(c, ts[1].word, RedirOpOf(ts[0].op)), argc, ts[2..])
  {
    var d := Redir(c, ts[1].word, RedirOpOf(ts[0].op));
    assert ParseRedirs(c, ts) == ParseRedirs(d, ts[2..]);
  }

  lemma {:induction false} ItemsComplete<W>(c: Cmd<W>, argc: nat, items: seq<Item<W>>, rest: seq<Token<W>>)
    requires EndsSimple(rest) && argc + |ArgsOf(items)| < MAXARGS
    ensures ParseItems(c, argc, YieldItems(items, rest)) == Some((Extend(c, items), rest))
    decreases items
  {
    if items != [] {
      var ts, more := YieldItems(items, rest), YieldItems(items[1..], rest);
      match items[0]
      case Arg(w) =>
        assert ts[1..] == more;
        ItemsComplete(AddArg(c, w), argc + 1, items[1..], rest);
      case Redirect(r) =>
        assert ts[2..] == more;
        ItemsStartWithRedir(c, argc, ts);
        ItemsComplete(Redir(c, r.file, r.op), argc, items[1..], rest);
    }
  }

  lemma {:induction false} ItemsSound<W>(c: Cmd<W>, argc: nat, ts: seq<Token<W>>) returns (items: seq<Item<W>>)
    requires argc < MAXARGS && ParseItems(c, argc, ts).Some?
    ensures argc + |ArgsOf(items)| < MAXARGS
    ensures ts == YieldItems(items, ParseItems(c, argc, ts).value.1)
    ensures ParseItems(c, argc, ts).value.0 == Extend(c, items)
    decreases |ts|
  {
    if HeadIsRedir(ts) {
      ItemsStartWithRedir(c, argc, ts);
      var r := Redirection(RedirOpOf(ts[0].op), ts[1].word);
      var more := ItemsSound(Redir(c, r.file, r.op), argc, ts[2..]);
      items := [Redirect(r)] + more;
      assert items[1..] == more;
      assert ts == [ts[0], ts[1]] + ts[2..];
    } else if ts == [] || ts[0].Op? {
      items := [];
    } else {
      var more := ItemsSound(AddArg(c, ts[0].word), argc + 1, ts[1..]);
      items := [Arg(ts[0].word)] + more;
      assert items[1..] == more;
      assert ts == [ts[0]] + ts[1..];
    }
  }

  lemma {:induction false} RedirsComplete<W>(c: Cmd<W>, rs: seq<Redirection<W>>, rest: seq<Token<W>>)
    requires !HeadIsRedir(rest)
    ensures ParseRedirs(c, YieldRedirs(rs, rest)) == Some((Wrap(c, rs), rest))
    decreases rs
  {
    if rs != [] {
      assert YieldRedirs(rs, rest)[2..] == YieldRedirs(rs[1..], rest);
      RedirsComplete(Redir(c, rs[0].file, rs[0].op), rs[1..], rest);
    }
  }

  lemma {:induction false} RedirsSound<W>(c: Cmd<W>, ts: seq<Token<W>>) returns (rs: seq<Redirection<W>>)
    requires ParseRedirs(c, ts).Some?
    ensures ts == YieldRedirs(rs, ParseRedirs(c, ts).value.1)
    ensures ParseRedirs(c, ts).value.0 == Wrap(c, rs)
    decreases |ts|
  {
    if !HeadIsRedir(ts) {
      rs := [];
    } else {
      var r := Redirection(RedirOpOf(ts[0].op), ts[1].word);
      var more := RedirsSound(Redir(c, r.file, r.op), ts[2..]);
      rs := [r] + more;
      assert rs[1..] == more;
      assert ts == [ts[0], ts[1]] + ts[2..];
    }
  }

  lemma {:induction false} AmpsComplete<W>(c: Cmd<W>, n: nat, rest: seq<Token<W>>)
    requires !HeadIs(rest, '&')
    ensures ParseAmps(c, YieldAmps(n, rest)) == (Backs(c, n), rest)
    decreases n
  {
    if n > 0 {
      assert YieldAmps(n, rest)[1..] == YieldAmps(n - 1, rest);
      AmpsComplete(Back(c), n - 1, rest);
    }
  }

  lemma {:induction false} AmpsSound<W>(c: Cmd<W>, ts: seq<Token<W>>) returns (n: nat)
    ensures ts == YieldAmps(n, ParseAmps(c, ts).1)
    ensures ParseAmps(c, ts).0 == Backs(c, n)
    decreases |ts|
  {
    if HeadIs(ts, '&') {
      var more := AmpsSound(Back(c), ts[1..]);
      n := more + 1;
      assert ts == [ts[0]] + ts[1..];
    } else {
      n := 0;
    }
  }

  // ---------- Completeness: every derivation is found ----------

  lemma {:induction false} LineComplete<W>(d: Line<W>, rest: seq<Token<W>>)
    requires FewArgsLine(d) && EndsLine(rest)
    ensures ParseLine(YieldLine(d, rest)) == Some((TreeLine(d), rest))
    decreases d, 1
  {
    match d
    case Last(p, n) =>
      PipeComplete(p, YieldAmps(n, rest));
      AmpsComplete(TreePipe(p), n, rest);
    case Then(p, n, e) =>
      var tail := [Op(';')] + YieldLine(e, rest);
      assert tail[1..] == YieldLine(e, rest);
      PipeComplete(p, YieldAmps(n, tail));
      AmpsComplete(TreePipe(p), n, tail);
      LineComplete(e, rest);
  }

  lemma {:induction false} PipeComplete<W>(d: Pipeline<W>, rest: seq<Token<W>>)
    requires FewArgsPipe(d) && EndsPipe(rest)
    ensures ParsePipe(YieldPipe(d, rest)) == Some((TreePipe(d), rest))
    decreases d, 1
  {
    match d
    case Single(e) =>
      SimpleComplete(e, rest);
    case Bar(e, p) =>
      var tail := [Op('|')] + YieldPipe(p, rest);
      assert tail[1..] == YieldPipe(p, rest);
      SimpleComplete(e, tail);
      PipeComplete(p, rest);
  }

  lemma {:induction false} SimpleComplete<W>(d: Simple<W>, rest: seq<Token<W>>)
    requires FewArgsSimple(d) && EndsSimple(rest)
    ensures ParseExec(YieldSimple(d, rest)) == Some((TreeSimple(d), rest))
    decreases d, 1
  {
    match d
    case Block(l, rs) =>
      var tail := [Op(')')] + YieldRedirs(rs, rest);
      assert tail[1..] == YieldRedirs(rs, rest);
      assert YieldSimple(d, rest)[1..] == YieldLine(l, tail);
      LineComplete(l, tail);
      RedirsComplete(TreeLine(l), rs, rest);
    case Items(items) =>
      assert !HeadIs(YieldItems(items, rest), '(');
      ItemsComplete(Exec([]), 0, items, rest);
      ExtendIsTree(items);
  }

  // ---------- Soundness: whatever is accepted has a derivation ----------

  lemma {:induction false} LineSound<W>(ts: seq<Token<W>>) returns (d: Line<W>)
    requires ParseLine(ts).Some?
    ensures FewArgsLine(d)
    ensures ts == YieldLine(d, ParseLine(ts).value.1)
    ensures ParseLine(ts).value.0 == TreeLine(d)
    decreases |ts|, 3
  {
    var p := PipeSound(ts);
    var (c, rest) := ParsePipe(ts).value;
    var n := AmpsSound(c, rest);
    var (b, rest') := ParseAmps(c, rest);
    if HeadIs(rest', ';') {
      var e := LineSound(rest'[1..]);
      d := Then(p, n, e);
      assert rest' == [Op(';')] + rest'[1..];
    } else {
      d := Last(p, n);
    }
  }

  lemma {:induction false} PipeSound<W>(ts: seq<Token<W>>) returns (d: Pipeline<W>)
    requires ParsePipe(ts).Some?
    ensures FewArgsPipe(d)
    ensures ts == YieldPipe(d, ParsePipe(ts).value.1)
    ensures ParsePipe(ts).value.0 == TreePipe(d)
    decreases |ts|, 2
  {
    var e := SimpleSound(ts);
    var (c, rest) := ParseExec(ts).value;
    if HeadIs(rest, '|') {
      var p := PipeSound(rest[1..]);
      d := Bar(e, p);
      assert rest == [Op('|')] + rest[1..];
    } else {
      d := Single(e);
    }
  }

  lemma {:induction false} SimpleSound<W>(ts: seq<Token<W>>) returns (d: Simple<W>)
    requires ParseExec(ts).Some?
    ensures FewArgsSimple(d)
    ensures ts == YieldSimple(d, ParseExec(ts).value.1)
    ensures ParseExec(ts).value.0 == TreeSimple(d)
    decreases |ts|, 1
  {
    if HeadIs(ts, '(') {
      var l := LineSound(ts[1..]);
      var (c, rest) := ParseLine(ts[1..]).value;
      var rs := RedirsSound(c, rest[1..]);
      d := Block(l, rs);
      assert ts == [Op('(')] + ts[1..];
      assert rest == [Op(')')] + rest[1..];
    } else {
      var items := ItemsSound(Exec([]), 0, ts);
      d := Items(items);
      ExtendIsTree(items);
    }
  }

  // ---------- Main results ----------

  /** The parser accepts a token string with tree `c` exactly when the grammar derives it with tree `c`. */
  lemma ParserDecidesGrammar<W(!new)>(ts: seq<Token<W>>, c: Cmd<W>)
    ensures ParseAll(ts) == Some(c) <==> Derives(ts, c)
  {
    if ParseAll(ts) == Some(c) {
      var d := LineSound(ts);
      assert YieldLine(d, []) == ts;
    }
    if Derives(ts, c) {
      var d: Line<W> :| FewArgsLine(d) && YieldLine(d, []) == ts && TreeLine(d) == c;
      LineComplete(d, []);
    }
  }

  /** The parser panics on exactly the token strings that have no derivation. */
  lemma ParserRejectsTheRest<W(!new)>(ts: seq<Token<W>>)
    ensures ParseAll(ts).None? <==> !exists c :: Derives(ts, c)
  {
    if ParseAll(ts).Some? {
      ParserDecidesGrammar(ts, ParseAll(ts).value);
    }
    forall c | Derives(ts, c) ensures ParseAll(ts) == Some(c) {
      ParserDecidesGrammar(ts, c);
    }
  }

  /** Though the grammar is written with choices, a line means one tree. */
  lemma GrammarIsUnambiguous<W(!new)>(ts: seq<Token<W>>, c: Cmd<W>, c': Cmd<W>)
    requires Derives(ts, c) && Derives(ts, c')
    ensures c == c'
  {
    ParserDecidesGrammar(ts, c);
    ParserDecidesGrammar(ts, c');
  }
}
