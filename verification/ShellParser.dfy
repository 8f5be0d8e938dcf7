/** The parser of sh-xv6.c as written: a cursor that moves through the line buffer, an arena that nodes are bumped
    from, and a last pass that ends every word in place. Each method is proved against the grammar. */
module ShellParser {
  import opened Prelude
  import opened ShellLexer
  import opened ShellGrammar
  import T = ShellGrammarTheorems
  import G = ShellGrammar

  const ARENA: nat := 4096

  /** The parse fails on `ts`, or its tree does not fit in an arena that has `used` bytes taken. */
  ghost predicate Rejects<W>(p: Parse<W>, used: int) {
    p.None? || used + Size(p.value.0) >= ARENA
  }

  /** A method that started with `base` bytes taken by other nodes did on the tokens what the specification `p` says:
      it returns that tree, leaves those tokens and has room for the tree, or it panics. */
  ghost predicate Follows<W>(r: Option<Cmd<W>>, rest: seq<Token<W>>, used: int, p: Parse<W>, base: int) {
    if r.Some? then p == Some((r.value, rest)) && used == base + Size(r.value) < ARENA else Rejects(p, base)
  }

  /** The next token starts with one of `toks`; `>>` starts with '>'. */
  ghost predicate HeadIn<W>(ts: seq<Token<W>>, toks: set<char>) {
    ts != [] && ts[0].Op? && (if ts[0].op == '+' then '>' else ts[0].op) in toks
  }

  // ---------- Trees only grow ----------

  lemma {:induction false} AddArgKeepsSize<W>(c: Cmd<W>, w: W)
    ensures Size(AddArg(c, w)) == Size(c)
    decreases c
  {
    if c.Redir? {
      AddArgKeepsSize(c.cmd, w);
    }
  }

  lemma {:induction false} RedirsGrow<W>(c: Cmd<W>, ts: seq<Token<W>>)
    requires G.ParseRedirs(c, ts).Some?
    ensures Size(G.ParseRedirs(c, ts).value.0) >= Size(c)
    ensures !HeadIsRedir(G.ParseRedirs(c, ts).value.1)
    decreases |ts|
  {
    if HeadIsRedir(ts) {
      RedirsGrow(Redir(c, ts[1].word, RedirOpOf(ts[0].op)), ts[2..]);
    }
  }

  lemma {:induction false} ItemsGrow<W>(c: Cmd<W>, argc: nat, ts: seq<Token<W>>)
    requires G.ParseItems(c, argc, ts).Some?
    ensures G.ParseRedirs(c, ts).Some?
    ensures Size(G.ParseItems(c, argc, ts).value.0) >= Size(G.ParseRedirs(c, ts).value.0) >= Size(c)
    decreases |ts|
  {
    RedirsGrow(c, ts);
    var (d, rest) := G.ParseRedirs(c, ts).value;
    if !(rest == [] || HeadIs(rest, '|') || HeadIs(rest, ')') || HeadIs(rest, '&') || HeadIs(rest, ';')) {
      AddArgKeepsSize(d, rest[0].word);
      ItemsGrow(AddArg(d, rest[0].word), argc + 1, rest[1..]);
    }
  }

  lemma {:induction false} AmpsGrow<W>(c: Cmd<W>, ts: seq<Token<W>>)
    ensures Size(G.ParseAmps(c, ts).0) >= Size(c)
    decreases |ts|
  {
    if HeadIs(ts, '&') {
      AmpsGrow(Back(c), ts[1..]);
    }
  }

  // ---------- The words of a tree ----------

  ghost function Words<W>(c: Cmd<W>): set<W> {
    match c
    case Exec(argv) => set w | w in argv
    case Redir(d, f, _) => Words(d) + {f}
    case Pipe(l, r) => Words(l) + Words(r)
    case List(l, r) => Words(l) + Words(r)
    case Back(d) => Words(d)
  }

  function MapCmd<V, W>(f: V -> W, c: Cmd<V>): Cmd<W> {
    match c
    case Exec(argv) => Exec(seq(|argv|, i requires 0 <= i < |argv| => f(argv[i])))
    case Redir(d, file, op) => Redir(MapCmd(f, d), f(file), op)
    case Pipe(l, r) => Pipe(MapCmd(f, l), MapCmd(f, r))
    case List(l, r) => List(MapCmd(f, l), MapCmd(f, r))
    case Back(d) => Back(MapCmd(f, d))
  }

  lemma {:induction false} MapCmdAgrees<V, W>(f: V -> W, g: V -> W, c: Cmd<V>)
    requires forall v :: v in Words(c) ==> f(v) == g(v)
    ensures MapCmd(f, c) == MapCmd(g, c)
  {
    match c
    case Exec(argv) => assert forall i :: 0 <= i < |argv| ==> argv[i] in Words(c);
    case Redir(d, file, _) => MapCmdAgrees(f, g, d);
    case Pipe(l, r) => MapCmdAgrees(f, g, l); MapCmdAgrees(f, g, r);
    case List(l, r) => MapCmdAgrees(f, g, l); MapCmdAgrees(f, g, r);
    case Back(d) => MapCmdAgrees(f, g, d);
  }

  // Below, "w is in the tree" implies "w is among the tokens"; `rest` is what follows them.

  lemma {:induction false} WrapWords<W>(c: Cmd<W>, rs: seq<Redirection<W>>, w: W, rest: seq<Token<W>>)
    ensures w in Words(Wrap(c, rs)) ==> w in Words(c) || Word(w) in YieldRedirs(rs, rest)
    ensures Word(w) in rest ==> Word(w) in YieldRedirs(rs, rest)
    decreases rs
  {
    if rs != [] {
      WrapWords(Redir(c, rs[0].file, rs[0].op), rs[1..], w, rest);
      assert YieldRedirs(rs, rest)[1] == Word(rs[0].file);
    }
  }

  lemma {:induction false} ItemWords<W>(items: seq<Item<W>>, w: W, rest: seq<Token<W>>)
    ensures w in ArgsOf(items) || Word(w) in YieldRedirs(RedirsOf(items), rest) ==> Word(w) in YieldItems(items, rest)
    decreases items
  {
    if items != [] {
      ItemWords(items[1..], w, rest);
      match items[0]
      case Arg(v) =>
        assert YieldItems(items, rest)[0] == Word(v);
      case Redirect(r) =>
        assert YieldItems(items, rest)[1] == Word(r.file);
        assert RedirsOf(items)[1..] == RedirsOf(items[1..]);
    }
  }

  lemma {:induction false} BacksWords<W>(c: Cmd<W>, n: nat, w: W, rest: seq<Token<W>>)
    ensures Words(Backs(c, n)) == Words(c)
    ensures Word(w) in rest ==> Word(w) in YieldAmps(n, rest)
    decreases n
  {
    if n > 0 {
      BacksWords(Back(c), n - 1, w, rest);
    }
  }

  /** A tree holds only words of the line it was parsed from. */
  lemma {:induction false} LineWords<W>(d: Line<W>, w: W, rest: seq<Token<W>>)
    ensures w in Words(TreeLine(d)) || Word(w) in rest ==> Word(w) in YieldLine(d, rest)
  {
    match d
    case Last(p, n) =>
      BacksWords(TreePipe(p), n, w, rest);
      PipeWords(p, w, YieldAmps(n, rest));
    case Then(p, n, e) =>
      var tail := [Op(';')] + YieldLine(e, rest);
      BacksWords(TreePipe(p), n, w, tail);
      PipeWords(p, w, YieldAmps(n, tail));
      LineWords(e, w, rest);
  }

  lemma {:induction false} PipeWords<W>(d: Pipeline<W>, w: W, rest: seq<Token<W>>)
    ensures w in Words(TreePipe(d)) || Word(w) in rest ==> Word(w) in YieldPipe(d, rest)
  {
    match d
    case Single(e) =>
      SimpleWords(e, w, rest);
    case Bar(e, p) =>
      SimpleWords(e, w, [Op('|')] + YieldPipe(p, rest));
      PipeWords(p, w, rest);
  }

  lemma {:induction false} SimpleWords<W>(d: Simple<W>, w: W, rest: seq<Token<W>>)
    ensures w in Words(TreeSimple(d)) || Word(w) in rest ==> Word(w) in YieldSimple(d, rest)
  {
    match d
    case Block(l, rs) =>
      WrapWords(TreeLine(l), rs, w, rest);
      LineWords(l, w, [Op(')')] + YieldRedirs(rs, rest));
    case Items(items) =>
      WrapWords(Exec(ArgsOf(items)), RedirsOf(items), w, rest);
      ItemWords(items, w, rest);
  }

  /** Every word of a parsed tree is delimited in the line: only word characters inside, none right after it. */
  lemma ParsedWordsAreDelimited(line: string, c: Cmd<Span>, w: Span)
    requires IsLine(line) && ParseAll(Lex(line, 0)) == Some(c) && w in Words(c)
    ensures IsWordSpan(line, w)
  {
    var d := T.LineSound(Lex(line, 0));
    LineWords(d, w, []);
    LexedWordsAreDelimited(line, 0, w);
  }

  // ---------- NUL termination ----------

  /** The buffer after ending every word of `c` with a NUL, in the order `nulterminate` visits them. */
  ghost function Zap(b: seq<char>, c: Cmd<Span>): (b': seq<char>)
    requires forall w :: w in Words(c) ==> w.eq < |b|
    ensures |b'| == |b|
    decreases c
  {
    match c
    case Exec(argv) => ZapArgs(b, argv)
    case Redir(d, f, _) => Zap(b, d)[f.eq := NUL]
    case Pipe(l, r) => Zap(Zap(b, l), r)
    case List(l, r) => Zap(Zap(b, l), r)
    case Back(d) => Zap(b, d)
  }

  ghost function ZapArgs(b: seq<char>, argv: seq<Span>): (b': seq<char>)
    requires forall w :: w in argv ==> w.eq < |b|
    ensures |b'| == |b|
  {
    if argv == [] then b else ZapArgs(b, argv[..|argv| - 1])[argv[|argv| - 1].eq := NUL]
  }

  /** The C string that starts at `q`. */
  function CString(b: seq<char>, q: nat): string
    decreases |b| - q
  {
    if q >= |b| || b[q] == NUL then "" else [b[q]] + CString(b, q + 1)
  }

  function Slice(s: string, w: Span): string {
    if w.q <= w.eq <= |s| then s[w.q..w.eq] else ""
  }

  /** The command with its words as the lexer delimited them. */
  function Text(s: string, c: Cmd<Span>): Cmd<string> { MapCmd((w: Span) => Slice(s, w), c) }

  /** The command with its words as C code reads them from the buffer. */
  function CText(b: seq<char>, c: Cmd<Span>): Cmd<string> { MapCmd((w: Span) => CString(b, w.q), c) }

  lemma {:induction false} ZapArgsAt(b: seq<char>, argv: seq<Span>, i: nat)
    requires forall w :: w in argv ==> w.eq < |b|
    requires i < |b|
    ensures ZapArgs(b, argv)[i] == if exists w :: w in argv && w.eq == i then NUL else b[i]
    decreases argv
  {
    if argv != [] {
      ZapArgsAt(b, argv[..|argv| - 1], i);
      assert argv == argv[..|argv| - 1] + [argv[|argv| - 1]];
    }
  }

  /** A NUL goes to the position after each word and nowhere else. */
  lemma {:induction false} ZapAt(b: seq<char>, c: Cmd<Span>, i: nat)
    requires forall w :: w in Words(c) ==> w.eq < |b|
    requires i < |b|
    ensures Zap(b, c)[i] == if exists w :: w in Words(c) && w.eq == i then NUL else b[i]
    decreases c
  {
    match c
    case Exec(argv) => ZapArgsAt(b, argv, i); assert forall w :: w in argv <==> w in Words(c);
    case Redir(d, f, _) => ZapAt(b, d, i); assert f in Words(c);
    case Pipe(l, r) => ZapAt(b, l, i); ZapAt(Zap(b, l), r, i);
    case List(l, r) => ZapAt(b, l, i); ZapAt(Zap(b, l), r, i);
    case Back(d) => ZapAt(b, d, i);
  }

  lemma {:induction false} CStringIs(b: seq<char>, q: nat, eq: nat)
    requires q <= eq < |b| && b[eq] == NUL
    requires forall k :: q <= k < eq ==> b[k] != NUL
    ensures CString(b, q) == b[q..eq]
    decreases eq - q
  {
    if q < eq {
      CStringIs(b, q + 1, eq);
    }
  }

  /** Ending one word never damages another: afterwards the C string at every pointer of the tree is the word
      the lexer delimited. */
  lemma NulTerminationKeepsWords(line: string, b: seq<char>, c: Cmd<Span>)
    requires |line| < |b| && b[..|line|] == line
    requires forall w :: w in Words(c) ==> IsWordSpan(line, w)
    ensures forall w :: w in Words(c) ==> w.eq < |b|
    ensures CText(Zap(b, c), c) == Text(line, c)
  {
    assert forall w :: w in Words(c) ==> IsWordSpan(line, w) && w.eq < |b|;
    var z := Zap(b, c);
    forall w | w in Words(c) ensures CString(z, w.q) == Slice(line, w) {
      forall k | w.q <= k < w.eq ensures z[k] == line[k] != NUL {
        ZapAt(b, c, k);
        assert IsWordChar(line[k]);
        assert b[..|line|][k] == b[k];
      }
      ZapAt(b, c, w.eq);
      CStringIs(z, w.q, w.eq);
      assert z[w.q..w.eq] == line[w.q..w.eq];
    }
    MapCmdAgrees((w: Span) => CString(z, w.q), (w: Span) => Slice(line, w), c);
  }

  // ---------- The parser ----------

  class Parser {
    const buf: array<char>
    const es: nat
    ghost const line: string   // the text when the parser was pointed at it
    var ps: nat                // the cursor
    var used: nat              // bytes of the arena handed out

    ghost predicate Valid()
      reads this`ps, buf
    {
      es < buf.Length && buf[es] == NUL && buf[..es] == line && IsLine(line) && ps <= es
    }

    ghost function Rest(): seq<Token<Span>>
      requires ps <= |line|
      reads this`ps
    {
      Lex(line, ps)
    }

    /** Points the parser at a NUL-terminated string: `es = s + strlen(s)`. */
    constructor (s: array<char>, used: nat)
      requires NUL in s[..]
      ensures Valid() && buf == s && this.used == used && ps == 0 && es == |line|
    {
      ghost var end :| 0 <= end < s.Length && s[end] == NUL;
      var len := 0;
      while s[len] != NUL
        invariant 0 <= len <= end
        invariant NUL !in s[..len]
        decreases end - len
      {
        assert s[..len + 1] == s[..len] + [s[len]];
        len := len + 1;
      }
      this.buf := s;
      this.es := len;
      this.line := s[..len];
      this.ps := 0;
      this.used := used;
    }

    method SkipBlanks(i: nat) returns (s: nat)
      requires Valid() && i <= es
      ensures s == SkipSpaces(line, i)
    {
      s := i;
      while s < es && IsSpace(buf[s])
        invariant i <= s <= es
        invariant SkipSpaces(line, s) == SkipSpaces(line, i)
      {
        s := s + 1;
      }
    }

    method ScanWord(i: nat) returns (s: nat)
      requires Valid() && i <= es
      ensures s == SkipWord(line, i)
    {
      s := i;
      while s < es && !IsSpace(buf[s]) && !IsSymbol(buf[s])
        invariant i <= s <= es
        invariant SkipWord(line, s) == SkipWord(line, i)
      {
        s := s + 1;
      }
    }

    method Peek(toks: set<char>) returns (b: bool)
      requires Valid() && forall c :: c in toks ==> IsSymbol(c)
      modifies this`ps
      ensures Valid() && Rest() == old(Rest())
      ensures ps == SkipSpaces(line, old(ps))
      ensures b <==> HeadIn(Rest(), toks)
    {
      LexSkipsSpaces(line, ps);
      ps := SkipBlanks(ps);
      b := buf[ps] != NUL && buf[ps] in toks;
    }

    /** Returns NUL at the end, 'a' for a word with its bounds, '+' for `>>`, or the operator itself. */
    method GetToken() returns (ret: char, q: nat, eq: nat)
      requires Valid()
      modifies this`ps
      ensures Valid() && ps >= old(ps)
      ensures ret == NUL <==> old(Rest()) == []
      ensures old(Rest()) != [] ==> Rest() == old(Rest())[1..] && ps > old(ps)
      ensures old(Rest()) != [] ==> old(Rest())[0] == if ret == 'a' then Word(Span(q, eq)) else Op(ret)
    {
      var s := SkipBlanks(ps);
      q := s;
      ret := buf[s];
      if buf[s] == NUL {
        assert forall k :: 0 <= k < es ==> line[k] != NUL;
      } else if buf[s] == '>' {
        s := s + 1;
        if buf[s] == '>' {
          assert s != es;
          ret := '+';
          s := s + 1;
        }
      } else if IsSymbol(buf[s]) {
        s := s + 1;
      } else {
        ret := 'a';
        s := ScanWord(s);
      }
      eq := s;
      LexSkipsSpaces(line, s);
      ps := SkipBlanks(s);
    }

    method Zalloc(sz: nat) returns (ok: bool)
      requires Valid()
      modifies this`used
      ensures Valid()
      ensures ok <==> old(used) + sz < ARENA
      ensures used == if ok then old(used) + sz else old(used)
    {
      ok := used + sz < ARENA;
      if ok {
        used := used + sz;
      }
    }

    /** The `&` loop of `parseline`. */
    method ParseAmps(cmd: Cmd<Span>) returns (r: Option<Cmd<Span>>)
      requires Valid() && used < ARENA
      modifies this`ps, this`used
      ensures Valid()
      ensures r.Some? ==> G.ParseAmps(cmd, old(Rest())) == (r.value, Rest())
      ensures r.Some? ==> used == old(used) - Size(cmd) + Size(r.value) < ARENA
      ensures r.None? ==> old(used) - Size(cmd) + Size(G.ParseAmps(cmd, old(Rest())).0) >= ARENA
      ensures ps >= old(ps)
    {
      hide Lex, SkipSpaces;
      var c := cmd;
      var more := Peek({'&'});
      while more
        invariant Valid() && ps >= old(ps)
        invariant more <==> HeadIs(Rest(), '&')
        invariant G.ParseAmps(c, Rest()) == G.ParseAmps(cmd, old(Rest()))
        invariant used == old(used) - Size(cmd) + Size(c) < ARENA
        decreases es - ps
      {
        AmpsGrow(Back(c), Rest()[1..]);
        var _, _, _ := GetToken();
        var ok := Zalloc(16);
        if !ok { return None; }
        c := Back(c);
        more := Peek({'&'});
      }
      r := Some(c);
    }

    method ParseLine() returns (r: Option<Cmd<Span>>)
      requires Valid()
      modifies this`ps, this`used
      ensures Valid()
      ensures Follows(r, Rest(), used, G.ParseLine(old(Rest())), old(used))
      ensures ps >= old(ps)
      decreases es - ps, 3
    {
      hide Lex, G.ParsePipe, G.ParseAmps;
      r := ParsePipe();
      ghost var pipe := G.ParsePipe(old(Rest()));
      if r.None? {
        if pipe.Some? { AmpsGrow(pipe.value.0, pipe.value.1); }
        return;
      }
      r := ParseAmps(r.value);
      if r.None? { return; }
      var semi := Peek({';'});
      if semi {
        var _, _, _ := GetToken();
        var e := ParseLine();
        if e.None? { return None; }
        var ok := Zalloc(24);
        r := if ok then Some(List(r.value, e.value)) else None;
      }
    }

    method ParsePipe() returns (r: Option<Cmd<Span>>)
      requires Valid()
      modifies this`ps, this`used
      ensures Valid()
      ensures Follows(r, Rest(), used, G.ParsePipe(old(Rest())), old(used))
      ensures ps >= old(ps)
      decreases es - ps, 2
    {
      r := ParseExec();
      if r.None? { return; }
      var bar := Peek({'|'});
      if bar {
        var _, _, _ := GetToken();
        var e := ParsePipe();
        if e.None? { r := None; return; }
        var ok := Zalloc(24);
        r := if ok then Some(Pipe(r.value, e.value)) else None;
      }
    }

    method ParseRedirs(cmd: Cmd<Span>) returns (r: Option<Cmd<Span>>)
      requires Valid() && used < ARENA
      modifies this`ps, this`used
      ensures Valid()
      ensures Follows(r, Rest(), used, G.ParseRedirs(cmd, old(Rest())), old(used) - Size(cmd))
      ensures ps >= old(ps)
    {
      ghost var goal, base := G.ParseRedirs(cmd, Rest()), used - Size(cmd);
      r := Some(cmd);
      var more := Peek({'<', '>'});
      while r.Some? && more
        invariant Valid() && ps >= old(ps)
        invariant more <==> HeadIsRedir(Rest())
        invariant r.None? ==> Rejects(goal, base)
        invariant r.Some? ==> G.ParseRedirs(r.value, Rest()) == goal
        invariant r.Some? ==> used == base + Size(r.value) < ARENA
        decreases es - ps
      {
        r := ParseRedir(r.value);
        more := Peek({'<', '>'});
      }
    }

    /** One round of the loop of `parseredirs`. */
    method ParseRedir(cmd: Cmd<Span>) returns (r: Option<Cmd<Span>>)
      requires Valid() && used < ARENA && HeadIsRedir(Rest())
      modifies this`ps, this`used
      ensures Valid() && ps > old(ps)
      ensures r.Some? ==> G.ParseRedirs(r.value, Rest()) == G.ParseRedirs(cmd, old(Rest()))
      ensures r.Some? ==> used == old(used) - Size(cmd) + Size(r.value) < ARENA
      ensures r.None? ==> Rejects(G.ParseRedirs(cmd, old(Rest())), old(used) - Size(cmd))
    {
      ghost var ts := Rest();
      var tok, _, _ := GetToken();
      var tok', q, eq := GetToken();
      if tok' != 'a' { return None; }
      var redir := Redir(cmd, Span(q, eq), RedirOpOf(tok));
      assert ts[2..] == ts[1..][1..];
      assert G.ParseRedirs(redir, Rest()) == G.ParseRedirs(cmd, ts);
      if G.ParseRedirs(redir, Rest()).Some? { RedirsGrow(redir, Rest()); }
      var ok := Zalloc(40);
      r := if ok then Some(redir) else None;
    }

    method ParseBlock() returns (r: Option<Cmd<Span>>)
      requires Valid() && HeadIs(Rest(), '(')
      modifies this`ps, this`used
      ensures Valid()
      ensures Follows(r, Rest(), used, G.ParseBlock(old(Rest())), old(used))
      ensures ps >= old(ps)
      decreases es - ps, 0
    {
      var open := Peek({'('});
      if !open { return None; }
      var _, _, _ := GetToken();
      r := ParseLine();
      if r.None? {
        ghost var inner := G.ParseLine(old(Rest())[1..]);
        if inner.Some? && HeadIs(inner.value.1, ')') && G.ParseRedirs(inner.value.0, inner.value.1[1..]).Some? {
          RedirsGrow(inner.value.0, inner.value.1[1..]);
        }
        return;
      }
      var close := Peek({')'});
      if !close { r := None; return; }
      var _, _, _ := GetToken();
      r := ParseRedirs(r.value);
    }

    method ParseExec() returns (r: Option<Cmd<Span>>)
      requires Valid()
      modifies this`ps, this`used
      ensures Valid()
      ensures Follows(r, Rest(), used, G.ParseExec(old(Rest())), old(used))
      ensures ps >= old(ps)
      decreases es - ps, 1
    {
      var block := Peek({'('});
      if block {
        r := ParseBlock();
        return;
      }
      ghost var goal := G.ParseItems(Exec([]), 0, Rest());
      if goal.Some? { ItemsGrow(Exec([]), 0, Rest()); }
      var ok := Zalloc(168);
      if !ok { return None; }
      r := ParseArgs();
    }

    /** The rest of `parseexec`, once its node is allocated. */
    method ParseArgs() returns (r: Option<Cmd<Span>>)
      requires Valid() && 168 <= used < ARENA
      modifies this`ps, this`used
      ensures Valid()
      ensures Follows(r, Rest(), used, G.ParseItems(Exec([]), 0, old(Rest())), old(used) - 168)
      ensures ps >= old(ps)
    {
      hide G.ParseItems, HeadIsRedir;
      ghost var goal, base := G.ParseItems(Exec([]), 0, Rest()), used - 168;
      var argc, more := 0, true;
      r := ParseArgRedirs(Exec([]), 0);
      while r.Some? && more
        invariant Valid() && ps >= old(ps)
        invariant r.None? ==> Rejects(goal, base)
        invariant r.Some? ==> used == base + Size(r.value) < ARENA
        invariant r.Some? && more ==> argc < MAXARGS && !HeadIsRedir(Rest())
        invariant r.Some? && more ==> G.ParseItems(r.value, argc, Rest()) == goal
        invariant r.Some? && !more ==> Some((r.value, Rest())) == goal
        decreases if more then es - ps + 1 else 0
      {
        r, more := ParseArg(r.value, argc);
        argc := argc + 1;
        if r.Some? && more {
          r := ParseArgRedirs(r.value, argc);
        }
      }
    }

    /** One round of the word loop, up to its redirections; no more rounds follow the last word. */
    method ParseArg(cmd: Cmd<Span>, argc: nat) returns (r: Option<Cmd<Span>>, more: bool)
      requires Valid() && argc < MAXARGS && !HeadIsRedir(Rest())
      modifies this`ps
      ensures Valid() && ps >= old(ps)
      ensures more ==> ps > old(ps)
      ensures !more ==> r == Some(cmd) && Some((cmd, Rest())) == G.ParseItems(cmd, argc, old(Rest()))
      ensures r.Some? ==> Size(r.value) == Size(cmd)
      ensures more && r.Some? ==> argc + 1 < MAXARGS
      ensures more && r.Some? ==> G.ParseItems(r.value, argc + 1, Rest()) == G.ParseItems(cmd, argc, old(Rest()))
      ensures r.None? ==> G.ParseItems(cmd, argc, old(Rest())).None?
    {
      var stop := Peek({'|', ')', '&', ';'});
      if stop { return Some(cmd), false; }
      var tok, q, eq := GetToken();
      if tok == NUL { return Some(cmd), false; }
      if tok != 'a' || argc + 1 >= MAXARGS { return None, true; }
      AddArgKeepsSize(cmd, Span(q, eq));
      r, more := Some(AddArg(cmd, Span(q, eq))), true;
    }

    /** The redirections after a word of a simple command. */
    method ParseArgRedirs(cmd: Cmd<Span>, ghost argc: nat) returns (r: Option<Cmd<Span>>)
      requires Valid() && used < ARENA
      modifies this`ps, this`used
      ensures Valid()
      ensures r.Some? ==> !HeadIsRedir(Rest())
      ensures r.Some? ==> G.ParseItems(r.value, argc, Rest()) == G.ParseItems(cmd, argc, old(Rest()))
      ensures r.Some? ==> used == old(used) - Size(cmd) + Size(r.value) < ARENA
      ensures r.None? ==> Rejects(G.ParseItems(cmd, argc, old(Rest())), old(used) - Size(cmd))
      ensures ps >= old(ps)
    {
      ghost var ts := Rest();
      r := ParseRedirs(cmd);
      if G.ParseRedirs(cmd, ts).Some? { RedirsGrow(cmd, ts); }
      if G.ParseItems(cmd, argc, ts).Some? { ItemsGrow(cmd, argc, ts); }
    }

    method NulTerminate(c: Cmd<Span>)
      requires forall w :: w in Words(c) ==> w.eq < buf.Length
      modifies buf
      ensures buf[..] == Zap(old(buf[..]), c)
      decreases c
    {
      match c
      case Exec(argv) =>
        var i := 0;
        while i < |argv|
          invariant 0 <= i <= |argv|
          invariant buf[..] == ZapArgs(old(buf[..]), argv[..i])
        {
          assert argv[i] in Words(c);
          assert argv[..i + 1][..i] == argv[..i];
          buf[argv[i].eq] := NUL;
          i := i + 1;
        }
        assert argv[..i] == argv;
      case Redir(d, f, _) =>
        NulTerminate(d);
        assert f in Words(c);
        buf[f.eq] := NUL;
      case Pipe(l, r) =>
        NulTerminate(l);
        NulTerminate(r);
      case List(l, r) =>
        NulTerminate(l);
        NulTerminate(r);
      case Back(d) =>
        NulTerminate(d);
    }

    /** Parses the whole line and ends its words in place, or panics (None) and leaves the line alone. */
    method ParseCmd() returns (r: Option<Cmd<Span>>)
      requires Valid() && ps == 0
      modifies this`ps, this`used, buf
      ensures r.Some? ==> Derives(Lex(line, 0), r.value) && old(used) + Size(r.value) < ARENA
      ensures r.None? ==> forall c :: Derives(Lex(line, 0), c) ==> old(used) + Size(c) >= ARENA
      ensures r.Some? ==> CText(buf[..], r.value) == Text(line, r.value)
      ensures r.None? ==> buf[..] == old(buf[..])
    {
      forall c | Derives(Lex(line, 0), c) ensures ParseAll(Lex(line, 0)) == Some(c) {
        T.ParserDecidesGrammar(Lex(line, 0), c);
      }
      r := ParseLine();
      if r.None? { return; }
      var _ := Peek({});
      if ps != es { r := None; return; }
      T.ParserDecidesGrammar(Lex(line, 0), r.value);
      forall w | w in Words(r.value) ensures IsWordSpan(line, w) {
        ParsedWordsAreDelimited(line, r.value, w);
      }
      NulTerminationKeepsWords(line, buf[..], r.value);
      NulTerminate(r.value);
    }
  }
}
