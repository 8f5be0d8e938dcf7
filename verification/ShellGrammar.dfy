/** The command grammar of sh-xv6.c: its derivations, the trees they denote, and the recursive-descent parser
    over tokens, proved to decide exactly that grammar. */
module ShellGrammar {
  import opened Prelude
  import opened ShellLexer

  /** How a redirection opens its file. */
  datatype RedirOp = Input | Output | Append

  /** A parsed command. Words are spans of the line when the parser builds it, or plain strings. */
  datatype Cmd<W> =
    | Exec(argv: seq<W>)
    | Redir(cmd: Cmd<W>, file: W, op: RedirOp)
    | Pipe(left: Cmd<W>, right: Cmd<W>)
    | List(left: Cmd<W>, right: Cmd<W>)
    | Back(cmd: Cmd<W>)

  const MAXARGS: nat := 10

  /** Bytes `zalloc` hands out for the nodes of a tree (LP64 structure sizes). */
  function Size<W>(c: Cmd<W>): (n: nat)
    ensures n >= 168
  {
    match c
    case Exec(_) => 168
    case Redir(d, _, _) => Size(d) + 40
    case Pipe(l, r) => Size(l) + Size(r) + 24
    case List(l, r) => Size(l) + Size(r) + 24
    case Back(d) => Size(d) + 16
  }

  // ---------- Derivations ----------
  //   line := pipe '&'* | pipe '&'* ';' line
  //   pipe := exec | exec '|' pipe
  //   exec := '(' line ')' redir* | (word | redir)*      with at most 9 words

  datatype Redirection<W> = Redirection(op: RedirOp, file: W)
  datatype Item<W> = Arg(word: W) | Redirect(redir: Redirection<W>)
  datatype Line<W> = Last(pipe: Pipeline<W>, amps: nat) | Then(pipe: Pipeline<W>, amps: nat, next: Line<W>)
  datatype Pipeline<W> = Single(exec: Simple<W>) | Bar(exec: Simple<W>, next: Pipeline<W>)
  datatype Simple<W> = Block(line: Line<W>, redirs: seq<Redirection<W>>) | Items(items: seq<Item<W>>)

  function OpChar(op: RedirOp): char {
    match op case Input => '<' case Output => '>' case Append => '+'
  }

  predicate IsRedirOp(c: char) { c == '<' || c == '>' || c == '+' }

  function RedirOpOf(c: char): RedirOp
    requires IsRedirOp(c)
  {
    if c == '<' then Input else if c == '>' then Output else Append
  }

  // The tokens a derivation yields, followed by `rest`.

  function YieldLine<W>(d: Line<W>, rest: seq<Token<W>>): seq<Token<W>> {
    match d
    case Last(p, n) => YieldPipe(p, YieldAmps(n, rest))
    case Then(p, n, e) => YieldPipe(p, YieldAmps(n, [Op(';')] + YieldLine(e, rest)))
  }

  function YieldPipe<W>(d: Pipeline<W>, rest: seq<Token<W>>): seq<Token<W>> {
    match d
    case Single(e) => YieldSimple(e, rest)
    case Bar(e, p) => YieldSimple(e, [Op('|')] + YieldPipe(p, rest))
  }

  function YieldSimple<W>(d: Simple<W>, rest: seq<Token<W>>): seq<Token<W>> {
    match d
    case Block(l, rs) => [Op('(')] + YieldLine(l, [Op(')')] + YieldRedirs(rs, rest))
    case Items(items) => YieldItems(items, rest)
  }

  function YieldAmps<W>(n: nat, rest: seq<Token<W>>): seq<Token<W>>
    decreases n
  {
    if n == 0 then rest else [Op('&')] + YieldAmps(n - 1, rest)
  }

  function YieldRedirs<W>(rs: seq<Redirection<W>>, rest: seq<Token<W>>): seq<Token<W>>
    decreases rs
  {
    if rs == [] then rest else [Op(OpChar(rs[0].op)), Word(rs[0].file)] + YieldRedirs(rs[1..], rest)
  }

  function YieldItems<W>(items: seq<Item<W>>, rest: seq<Token<W>>): seq<Token<W>>
    decreases items
  {
    if items == [] then rest else
    match items[0]
    case Arg(w) => [Word(w)] + YieldItems(items[1..], rest)
    case Redirect(r) => [Op(OpChar(r.op)), Word(r.file)] + YieldItems(items[1..], rest)
  }

  // The tree a derivation denotes. A later redirection is wrapped outside an earlier one.

  function TreeLine<W>(d: Line<W>): Cmd<W> {
    match d
    case Last(p, n) => Backs(TreePipe(p), n)
    case Then(p, n, e) => List(Backs(TreePipe(p), n), TreeLine(e))
  }

  function TreePipe<W>(d: Pipeline<W>): Cmd<W> {
    match d
    case Single(e) => TreeSimple(e)
    case Bar(e, p) => Pipe(TreeSimple(e), TreePipe(p))
  }

  function TreeSimple<W>(d: Simple<W>): Cmd<W> {
    match d
    case Block(l, rs) => Wrap(TreeLine(l), rs)
    case Items(items) => Wrap(Exec(ArgsOf(items)), RedirsOf(items))
  }

  function Backs<W>(c: Cmd<W>, n: nat): Cmd<W>
    decreases n
  {
    if n == 0 then c else Backs(Back(c), n - 1)
  }

  function Wrap<W>(c: Cmd<W>, rs: seq<Redirection<W>>): Cmd<W>
    decreases rs
  {
    if rs == [] then c else Wrap(Redir(c, rs[0].file, rs[0].op), rs[1..])
  }

  function ArgsOf<W>(items: seq<Item<W>>): seq<W> {
    if items == [] then [] else
    match items[0] case Arg(w) => [w] + ArgsOf(items[1..]) case Redirect(_) => ArgsOf(items[1..])
  }

  function RedirsOf<W>(items: seq<Item<W>>): seq<Redirection<W>> {
    if items == [] then [] else
    match items[0] case Arg(_) => RedirsOf(items[1..]) case Redirect(r) => [r] + RedirsOf(items[1..])
  }

  /** The only limit the parser puts on a derivation: fewer than MAXARGS words in each simple command. */
  predicate FewArgsLine<W>(d: Line<W>) {
    match d
    case Last(p, _) => FewArgsPipe(p)
    case Then(p, _, e) => FewArgsPipe(p) && FewArgsLine(e)
  }

  predicate FewArgsPipe<W>(d: Pipeline<W>) {
    match d
    case Single(e) => FewArgsSimple(e)
    case Bar(e, p) => FewArgsSimple(e) && FewArgsPipe(p)
  }

  predicate FewArgsSimple<W>(d: Simple<W>) {
    match d
    case Block(l, _) => FewArgsLine(l)
    case Items(items) => |ArgsOf(items)| < MAXARGS
  }

  /** `c` is a command the token string `ts` may stand for. */
  ghost predicate Derives<W(!new)>(ts: seq<Token<W>>, c: Cmd<W>) {
    exists d: Line<W> :: FewArgsLine(d) && YieldLine(d, []) == ts && TreeLine(d) == c
  }

  // ---------- Recursive descent over tokens ----------

  type Parse<W> = Option<(Cmd<W>, seq<Token<W>>)>

  predicate HeadIs<W>(ts: seq<Token<W>>, c: char) { ts != [] && ts[0].Op? && ts[0].op == c }

  predicate HeadIsRedir<W>(ts: seq<Token<W>>) { ts != [] && ts[0].Op? && IsRedirOp(ts[0].op) }

  /** `cmd->argv[argc] = q` through the pointer to the exec node that `ret` has been wrapped around. */
  function AddArg<W>(c: Cmd<W>, w: W): Cmd<W> {
    match c
    case Exec(argv) => Exec(argv + [w])
    case Redir(d, f, op) => Redir(AddArg(d, w), f, op)
    case _ => c
  }

  function ParseLine<W>(ts: seq<Token<W>>): (r: Parse<W>)
    ensures r.Some? ==> |r.value.1| <= |ts|
    decreases |ts|, 3
  {
    match ParsePipe(ts)
    case None => None
    case Some((c, rest)) =>
      var (b, rest') := ParseAmps(c, rest);
      if !HeadIs(rest', ';') then Some((b, rest')) else
      match ParseLine(rest'[1..])
      case None => None
      case Some((e, rest'')) => Some((List(b, e), rest''))
  }

  function ParseAmps<W>(c: Cmd<W>, ts: seq<Token<W>>): (r: (Cmd<W>, seq<Token<W>>))
    ensures |r.1| <= |ts|
    decreases |ts|
  {
    if HeadIs(ts, '&') then ParseAmps(Back(c), ts[1..]) else (c, ts)
  }

  function ParsePipe<W>(ts: seq<Token<W>>): (r: Parse<W>)
    ensures r.Some? ==> |r.value.1| <= |ts|
    decreases |ts|, 2
  {
    match ParseExec(ts)
    case None => None
    case Some((c, rest)) =>
      if !HeadIs(rest, '|') then Some((c, rest)) else
      match ParsePipe(rest[1..])
      case None => None
      case Some((e, rest')) => Some((Pipe(c, e), rest'))
  }

  function ParseExec<W>(ts: seq<Token<W>>): (r: Parse<W>)
    ensures r.Some? ==> |r.value.1| <= |ts|
    decreases |ts|, 1
  {
    if HeadIs(ts, '(') then ParseBlock(ts) else ParseItems(Exec([]), 0, ts)
  }

  function ParseBlock<W>(ts: seq<Token<W>>): (r: Parse<W>)
    requires HeadIs(ts, '(')
    ensures r.Some? ==> |r.value.1| <= |ts|
    decreases |ts|, 0
  {
    match ParseLine(ts[1..])
    case None => None
    case Some((c, rest)) =>
      if HeadIs(rest, ')') then ParseRedirs(c, rest[1..]) else None
  }

  function ParseRedirs<W>(c: Cmd<W>, ts: seq<Token<W>>): (r: Parse<W>)
    ensures r.Some? ==> |r.value.1| <= |ts|
    decreases |ts|
  {
    if !HeadIsRedir(ts) then Some((c, ts))
    else if |ts| < 2 || ts[1].Op? then None
    else ParseRedirs(Redir(c, ts[1].word, RedirOpOf(ts[0].op)), ts[2..])
  }

  /** The rest of a simple command that has `argc` words already. */
  function ParseItems<W>(c: Cmd<W>, argc: nat, ts: seq<Token<W>>): (r: Parse<W>)
    ensures r.Some? ==> |r.value.1| <= |ts|
    decreases |ts|
  {
    match ParseRedirs(c, ts)
    case None => None
    case Some((d, rest)) =>
      if rest == [] || HeadIs(rest, '|') || HeadIs(rest, ')') || HeadIs(rest, '&') || HeadIs(rest, ';') then
        Some((d, rest))
      else if rest[0].Op? || argc + 1 >= MAXARGS then None
      else ParseItems(AddArg(d, rest[0].word), argc + 1, rest[1..])
  }

  /** What `parsecmd` accepts: a line with nothing after it. */
  function ParseAll<W>(ts: seq<Token<W>>): Option<Cmd<W>> {
    match ParseLine(ts)
    case None => None
    case Some((c, rest)) => if rest == [] then Some(c) else None
  }
}
