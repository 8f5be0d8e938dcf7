/** The initial stack that loader-static.c builds for a program, and a reader of such a stack after section 3.4.1 of the
    System V AMD64 ABI. */
module ProcessStack {
  import opened Prelude
  import opened LittleEndian

  /** A 64-bit value or address; 0 is the null pointer. */
  const WORDS: int := 0x1_0000_0000_0000_0000

  type u64 = x: int | 0 <= x < WORDS

  // ---------- Words in bytes ----------

  /** The bytes after a word was stored at `at`. */
  function Put(b: seq<byte>, at: nat, v: u64): (r: seq<byte>)
    requires at + 8 <= |b|
    ensures |r| == |b|
  {
    b[..at] + Bytes(v, 8) + b[at + 8..]
  }

  function Get(b: seq<byte>, at: nat): (r: int)
    requires at + 8 <= |b|
    ensures r >= 0
  {
    Number(b[at..at + 8])
  }

  lemma GetPut(b: seq<byte>, at: nat, v: u64, i: nat)
    requires at + 8 <= |b| && i + 8 <= |b|
    ensures i == at ==> Get(Put(b, at, v), i) == v
    ensures i + 8 <= at || at + 8 <= i ==> Get(Put(b, at, v), i) == Get(b, i)
  {
    if i == at {
      assert Pow256(8) == WORDS by {
        assert Pow256(4) == 0x1_0000_0000;
      }
      NumberOfBytes(v, 8);
      assert Put(b, at, v)[at..at + 8] == Bytes(v, 8);
    } else if i + 8 <= at || at + 8 <= i {
      assert Put(b, at, v)[i..i + 8] == b[i..i + 8];
    }
  }

  /** The bytes after the words were stored one after the other from `at` on. */
  function PutAll(b: seq<byte>, at: nat, ws: seq<u64>): (r: seq<byte>)
    requires at + 8 * |ws| <= |b|
    ensures |r| == |b|
  {
    if ws == [] then b else Put(PutAll(b, at, ws[..|ws| - 1]), at + 8 * (|ws| - 1), ws[|ws| - 1])
  }

  /** The words are in the bytes from `at` on. */
  ghost predicate HasWords(b: seq<byte>, at: nat, ws: seq<u64>) {
    at + 8 * |ws| <= |b| && forall i :: 0 <= i < |ws| ==> Get(b, at + 8 * i) == ws[i]
  }

  lemma HasWordsSplit(b: seq<byte>, at: nat, us: seq<u64>, vs: seq<u64>)
    requires HasWords(b, at, us + vs)
    ensures HasWords(b, at, us) && HasWords(b, at + 8 * |us|, vs)
  {
    forall i | 0 <= i < |us| ensures Get(b, at + 8 * i) == us[i] {
      assert (us + vs)[i] == us[i];
    }
    forall i | 0 <= i < |vs| ensures Get(b, at + 8 * |us| + 8 * i) == vs[i] {
      assert Get(b, at + 8 * (|us| + i)) == (us + vs)[|us| + i];
    }
  }

  lemma {:induction false} PutAllHasWords(b: seq<byte>, at: nat, ws: seq<u64>)
    requires at + 8 * |ws| <= |b|
    ensures HasWords(PutAll(b, at, ws), at, ws)
    ensures PutAll(b, at, ws)[..at] == b[..at] && PutAll(b, at, ws)[at + 8 * |ws|..] == b[at + 8 * |ws|..]
    decreases |ws|
  {
    if ws != [] {
      var front := ws[..|ws| - 1];
      PutAllHasWords(b, at, front);
      var b1 := PutAll(b, at, front);
      forall i | 0 <= i < |ws| ensures Get(PutAll(b, at, ws), at + 8 * i) == ws[i] {
        GetPut(b1, at + 8 * (|ws| - 1), ws[|ws| - 1], at + 8 * i);
      }
    }
  }

  // ---------- The words of the stack ----------

  /** Index of the first null pointer. */
  function FirstNull(ps: seq<u64>): (n: nat)
    requires 0 in ps
    ensures n < |ps| && ps[n] == 0 && forall i :: 0 <= i < n ==> ps[i] != 0
  {
    if ps[0] == 0 then 0 else 1 + FirstNull(ps[1..])
  }

  /** The strings that pointers point to. */
  type Text = u64 -> string

  predicate Verbose(text: Text, p: u64) { '_' in text(p) }

  /** The environment without the entries that have an underscore. */
  function Kept(text: Text, env: seq<u64>): (r: seq<u64>)
    ensures |r| <= |env|
    ensures (forall i :: 0 <= i < |env| ==> env[i] != 0) ==> forall i :: 0 <= i < |r| ==> r[i] != 0
  {
    if env == [] then [] else
    var front, p := Kept(text, env[..|env| - 1]), env[|env| - 1];
    if Verbose(text, p) then front else front + [p]
  }

  /** `kept` are the entries of `env` without an underscore in their text, in order: `at` says where each of them is. */
  ghost predicate KeptAt(text: Text, env: seq<u64>, kept: seq<int>, at: seq<nat>) {
    && |at| == |kept|
    && (forall i :: 0 <= i < |at| ==> at[i] < |env| && kept[i] == env[at[i]] && '_' !in text(env[at[i]]))
    && (forall i, j :: 0 <= i < j < |at| ==> at[i] < at[j])
    && forall k :: 0 <= k < |env| && '_' !in text(env[k]) ==> k in at
  }

  ghost predicate IsKept(text: Text, env: seq<u64>, kept: seq<int>) { exists at :: KeptAt(text, env, kept, at) }

  lemma KeptMore(text: Text, front: seq<u64>, p: u64, kept: seq<int>, at: seq<nat>)
    requires KeptAt(text, front, kept, at)
    ensures '_' in text(p) ==> KeptAt(text, front + [p], kept, at)
    ensures '_' !in text(p) ==> KeptAt(text, front + [p], kept + [p], at + [|front|])
  {
    var env, at' := front + [p], if '_' in text(p) then at else at + [|front|];
    forall k | 0 <= k < |env| && '_' !in text(env[k]) ensures k in at' {
      if k < |front| {
        assert env[k] == front[k] && k in at;
      } else {
        assert at'[|at|] == k;
      }
    }
  }

  /** Exactly the entries without an underscore are kept, in order. */
  lemma {:induction false} KeptExactly(text: Text, env: seq<u64>)
    ensures IsKept(text, env, Kept(text, env))
    decreases |env|
  {
    hide KeptAt;
    if env == [] {
      NothingKept(text);
    } else {
      var front, p := env[..|env| - 1], env[|env| - 1];
      KeptExactly(text, front);
      var at :| KeptAt(text, front, Kept(text, front), at);
      KeptMore(text, front, p, Kept(text, front), at);
      assert env == front + [p];
    }
  }

  lemma NothingKept(text: Text)
    ensures KeptAt(text, [], [], [])
  {
  }

  const AT_NULL: u64 := 0
  const AT_RANDOM: u64 := 25

  function Words(text: Text, argv: seq<u64>, env: seq<u64>, rnd: u64): seq<u64>
    requires |argv| < WORDS
  {
    [|argv|] + (argv + ([0] + (Kept(text, env) + ([0] + [AT_RANDOM, rnd, AT_NULL, 0]))))
  }

  // ---------- Reading it ----------

  /** What a program finds: argc and argv, the environment, and the auxiliary vector up to and with its AT_NULL. */
  datatype Image = Image(argv: seq<int>, env: seq<int>, aux: seq<(int, int)>)

  /** The words up to a zero. */
  function ReadToNull(b: seq<byte>, at: nat): Option<seq<int>>
    decreases |b| - at
  {
    if at + 8 > |b| then None
    else if Get(b, at) == 0 then Some([])
    else match ReadToNull(b, at + 8)
      case None => None
      case Some(ps) => Some([Get(b, at)] + ps)
  }

  function ReadAux(b: seq<byte>, at: nat): Option<seq<(int, int)>>
    decreases |b| - at
  {
    if at + 16 > |b| then None else
    var entry := (Get(b, at), Get(b, at + 8));
    if entry.0 == AT_NULL then Some([entry]) else
    match ReadAux(b, at + 16)
    case None => None
    case Some(rest) => Some([entry] + rest)
  }

  function ReadWords(b: seq<byte>, at: nat, n: nat): seq<int>
    requires at + 8 * n <= |b|
  {
    seq(n, i requires 0 <= i < n => Get(b, at + 8 * i))
  }

  function ReadImage(b: seq<byte>, at: nat): Option<Image> {
    if at + 8 > |b| then None else
    var argc := Get(b, at);
    var argv := at + 8;
    if argv + 8 * argc + 8 > |b| || Get(b, argv + 8 * argc) != 0 then None else
    match ReadToNull(b, argv + 8 * argc + 8)
    case None => None
    case Some(env) =>
      match ReadAux(b, argv + 8 * argc + 8 + 8 * |env| + 8)
      case None => None
      case Some(aux) => Some(Image(ReadWords(b, argv, argc), env, aux))
  }

  lemma {:induction false} ReadsToNull(b: seq<byte>, at: nat, ps: seq<u64>)
    requires HasWords(b, at, ps + [0]) && forall i :: 0 <= i < |ps| ==> ps[i] != 0
    ensures ReadToNull(b, at) == Some(ps)
    decreases |ps|
  {
    assert Get(b, at + 8 * 0) == (ps + [0])[0];
    if ps != [] {
      assert ps + [0] == [ps[0]] + (ps[1..] + [0]);
      HasWordsSplit(b, at, [ps[0]], ps[1..] + [0]);
      ReadsToNull(b, at + 8, ps[1..]);
      assert [ps[0]] + ps[1..] == ps;
    }
  }

  /** A random value for the program, and the end. */
  function AuxEntries(rnd: u64): seq<(int, int)> { [(AT_RANDOM, rnd), (AT_NULL, 0)] }

  lemma ReadsAux(b: seq<byte>, at: nat, rnd: u64)
    requires HasWords(b, at, [AT_RANDOM, rnd, AT_NULL, 0])
    ensures ReadAux(b, at) == Some(AuxEntries(rnd))
  {
    hide Get;
    var ws := [AT_RANDOM, rnd, AT_NULL, 0];
    assert Get(b, at + 8 * 0) == ws[0] && Get(b, at + 8 * 1) == ws[1];
    assert Get(b, at + 8 * 2) == ws[2] && Get(b, at + 8 * 3) == ws[3];
    assert ReadAux(b, at + 16) == Some([(AT_NULL, 0)]);
    var first: (int, int), last: (int, int) := (AT_RANDOM, rnd), (AT_NULL, 0);
    assert [first] + [last] == [first, last];
  }

  lemma ReadsWords(b: seq<byte>, at: nat, ws: seq<u64>)
    requires HasWords(b, at, ws)
    ensures ReadWords(b, at, |ws|) == ws
  {
  }

  lemma OneWord(b: seq<byte>, at: nat, v: u64)
    requires HasWords(b, at, [v])
    ensures at + 8 <= |b| && Get(b, at) == v
  {
    assert Get(b, at + 8 * 0) == [v][0];
  }

  /** The parts of the layout, one behind the other. */
  lemma Parts(b: seq<byte>, at: nat, argv: seq<u64>, kept: seq<u64>, aux: seq<u64>) returns (at1: nat, at2: nat)
    requires |argv| < WORDS && HasWords(b, at, [|argv|] + (argv + ([0] + (kept + ([0] + aux)))))
    ensures HasWords(b, at, [|argv|]) && HasWords(b, at + 8, argv) && HasWords(b, at + 8 + 8 * |argv|, [0])
    ensures at1 == at + 8 + 8 * |argv| + 8 && HasWords(b, at1, kept + [0])
    ensures at2 == at1 + 8 * |kept| + 8 && HasWords(b, at2, aux)
  {
    hide HasWords;
    HasWordsSplit(b, at, [|argv|], argv + ([0] + (kept + ([0] + aux))));
    HasWordsSplit(b, at + 8, argv, [0] + (kept + ([0] + aux)));
    HasWordsSplit(b, at + 8 + 8 * |argv|, [0], kept + ([0] + aux));
    at1 := at + 8 + 8 * |argv| + 8;
    assert kept + ([0] + aux) == (kept + [0]) + aux;
    HasWordsSplit(b, at1, kept + [0], aux);
    at2 := at1 + 8 * |kept + [0]|;
  }

  lemma ReadsParts(b: seq<byte>, at: nat, n: nat, image: Image)
    requires at + 8 + 8 * n + 8 <= |b| && Get(b, at) == n && Get(b, at + 8 + 8 * n) == 0
    requires ReadWords(b, at + 8, n) == image.argv && ReadToNull(b, at + 8 + 8 * n + 8) == Some(image.env)
    requires ReadAux(b, at + 8 + 8 * n + 8 + 8 * |image.env| + 8) == Some(image.aux)
    ensures ReadImage(b, at) == Some(image)
  {
    hide Get, ReadToNull, ReadAux, ReadWords;
  }

  /** The reader finds what was laid out. */
  lemma ReadsImage(b: seq<byte>, at: nat, text: Text, argv: seq<u64>, env: seq<u64>, rnd: u64) returns (image: Image)
    requires |argv| < WORDS && (forall i :: 0 <= i < |env| ==> env[i] != 0)
    requires HasWords(b, at, Words(text, argv, env, rnd))
    ensures ReadImage(b, at) == Some(image) && image == Image(argv, Kept(text, env), AuxEntries(rnd))
  {
    hide Get, ReadToNull, ReadAux, Kept, ReadWords, HasWords, ReadImage, AuxEntries;
    var n, kept := |argv|, Kept(text, env);
    var at1, at2 := Parts(b, at, argv, kept, [AT_RANDOM, rnd, AT_NULL, 0]);
    OneWord(b, at, n);
    OneWord(b, at + 8 + 8 * n, 0);
    ReadsWords(b, at + 8, argv);
    ReadsToNull(b, at1, kept);
    ReadsAux(b, at2, rnd);
    image := Image(argv, kept, AuxEntries(rnd));
    ReadsParts(b, at, n, image);
  }

  // ---------- Laying it out ----------

  const STK_SZ: nat := 0x10_0000

  function Round(x: nat, align: nat): nat
    requires align > 0
  {
    x - x % align
  }

  /** `sp_exec` for a stack at address `base`. */
  function Start(base: nat): nat { Round(base + STK_SZ - 4096, 16) }

  /** The words fit between `sp_exec` and the end of the stack. */
  predicate Fits(base: nat, words: nat) { Start(base) + 8 * words <= base + STK_SZ }

  class Loader {
    const base: nat
    const stack: array<byte>
    var sp: nat

    ghost predicate Valid()
      reads this
    {
      stack.Length == STK_SZ && base <= sp <= base + STK_SZ
    }

    constructor (base: nat, stack: array<byte>)
      requires stack.Length == STK_SZ
      ensures Valid() && this.base == base && this.stack == stack
    {
      this.base, this.stack, this.sp := base, stack, base;
    }

    /** One store of eight bytes. */
    method Push(v: u64)
      requires Valid() && sp + 8 <= base + STK_SZ
      modifies this`sp, stack
      ensures Valid() && sp == old(sp) + 8 && stack[..] == Put(old(stack[..]), old(sp) - base, v)
    {
      var at := sp - base;
      forall k | 0 <= k < 8 {
        stack[at + k] := Bytes(v, 8)[k];
      }
      sp := sp + 8;
    }

    /** A push that appends to what has been laid out so far. */
    method PushNext(v: u64, ghost b: seq<byte>, ghost at: nat, ghost ws: seq<u64>)
      requires Valid() && Laid(b, at, ws) && sp + 8 <= base + STK_SZ
      modifies this`sp, stack
      ensures Valid() && Laid(b, at, ws + [v])
    {
      Push(v);
      assert (ws + [v])[..|ws|] == ws;
    }

    /** The words `ws` are laid out from `at` on over the bytes `b`, and `sp` is behind them. */
    ghost predicate Laid(b: seq<byte>, at: nat, ws: seq<u64>)
      reads this, stack
    {
      at + 8 * |ws| <= |b| && stack[..] == PutAll(b, at, ws) && sp == base + at + 8 * |ws|
    }

    /** argc and argv, with its null pointer. */
    method PushArgv(argv: seq<u64>, ghost b: seq<byte>, ghost at: nat)
      requires Valid() && 0 in argv && FirstNull(argv) < WORDS && Laid(b, at, [])
      requires sp + 8 * (FirstNull(argv) + 2) <= base + STK_SZ
      modifies this`sp, stack
      ensures Valid() && Laid(b, at, [FirstNull(argv)] + argv[..FirstNull(argv) + 1])
    {
      hide PutAll;
      var argc := 0;
      while argv[argc] != 0
        invariant argc <= FirstNull(argv)
        decreases FirstNull(argv) - argc
      {
        argc := argc + 1;
      }
      assert argc == FirstNull(argv);
      PushNext(argc, b, at, []);
      assert [] + [argc] == [argc] + argv[..0];
      var i := 0;
      while i <= argc
        invariant i <= argc + 1 && Valid() && Laid(b, at, [argc] + argv[..i])
      {
        PushNext(argv[i], b, at, [argc] + argv[..i]);
        assert [argc] + argv[..i] + [argv[i]] == [argc] + argv[..i + 1];
        i := i + 1;
      }
    }

    /** The environment without its verbose entries. */
    method PushEnvp(envp: seq<u64>, text: Text, ghost b: seq<byte>, ghost at: nat, ghost ws: seq<u64>)
      requires Valid() && 0 in envp && Laid(b, at, ws)
      requires sp + 8 * |Kept(text, envp[..FirstNull(envp)])| <= base + STK_SZ
      modifies this`sp, stack
      ensures Valid() && Laid(b, at, ws + Kept(text, envp[..FirstNull(envp)]))
    {
      hide PutAll, Kept, FirstNull;
      var e := 0;
      assert ws + Kept(text, envp[..0]) == ws by {
        KeptNone(text, envp);
      }
      while envp[e] != 0
        invariant e <= FirstNull(envp) && Valid() && Laid(b, at, ws + Kept(text, envp[..e]))
        decreases FirstNull(envp) - e
      {
        KeptStep(text, envp, e);
        KeptPrefix(text, envp, e + 1, FirstNull(envp));
        if !Verbose(text, envp[e]) {
          PushNext(envp[e], b, at, ws + Kept(text, envp[..e]));
          assert ws + Kept(text, envp[..e]) + [envp[e]] == ws + (Kept(text, envp[..e]) + [envp[e]]);
        }
        e := e + 1;
      }
    }

    /** The null pointer behind the environment, and the auxiliary vector. */
    method PushAuxv(rnd: u64, ghost b: seq<byte>, ghost at: nat, ghost ws: seq<u64>)
      requires Valid() && Laid(b, at, ws) && sp + 8 * 5 <= base + STK_SZ
      modifies this`sp, stack
      ensures Valid() && Laid(b, at, ws + [0, AT_RANDOM, rnd, AT_NULL, 0])
    {
      hide PutAll;
      PushNext(0, b, at, ws);
      PushNext(AT_RANDOM, b, at, ws + [0]);
      PushNext(rnd, b, at, ws + [0] + [AT_RANDOM]);
      PushNext(AT_NULL, b, at, ws + [0] + [AT_RANDOM] + [rnd]);
      PushNext(0, b, at, ws + [0] + [AT_RANDOM] + [rnd] + [AT_NULL]);
      assert ws + [0] + [AT_RANDOM] + [rnd] + [AT_NULL] + [0] == ws + [0, AT_RANDOM, rnd, AT_NULL, 0];
    }

    /** The stack part of execve_: `argv` and `envp` are the pointers up to a null at least. What a program reads there
        after the ABI is its arguments, the kept environment and the two auxiliary entries. */
    method LayOut(argv: seq<u64>, envp: seq<u64>, text: Text, rnd: u64) returns (sp_exec: nat)
      requires Valid() && 0 in argv && 0 in envp
      requires Fits(base, FirstNull(argv) + |Kept(text, envp[..FirstNull(envp)])| + 7)
      modifies this`sp, stack
      ensures Valid() && sp_exec == Start(base) && base <= sp_exec && sp_exec % 16 == 0
      ensures Laid(old(stack[..]), sp_exec - base, Words(text, argv[..FirstNull(argv)], envp[..FirstNull(envp)], rnd))
      ensures ReadImage(stack[..], sp_exec - base) ==
              Some(Image(argv[..FirstNull(argv)], Kept(text, envp[..FirstNull(envp)]), AuxEntries(rnd)))
      ensures IsKept(text, envp[..FirstNull(envp)], ReadImage(stack[..], sp_exec - base).value.env)
    {
      hide PutAll, ReadImage, Kept, AuxEntries, HasWords, FirstNull, IsKept;
      sp := Round(base + STK_SZ - 4096, 16);
      sp_exec := sp;
      ghost var b, at := stack[..], sp - base;
      assert Laid(b, at, []) by {
        NothingLaid(b, at);
      }
      PushArgv(argv, b, at);
      ghost var args, env := argv[..FirstNull(argv)], envp[..FirstNull(envp)];
      ghost var ws := [FirstNull(argv)] + argv[..FirstNull(argv) + 1];
      PushEnvp(envp, text, b, at, ws);
      PushAuxv(rnd, b, at, ws + Kept(text, env));
      assert argv[..FirstNull(argv) + 1] == args + [0];
      WordsInOrder(text, args, env, rnd);
      hide Words;
      PutAllHasWords(b, at, Words(text, args, env, rnd));
      ghost var image := ReadsImage(stack[..], at, text, args, env, rnd);
      KeptExactly(text, env);
    }
  }

  lemma WordsInOrder(text: Text, argv: seq<u64>, env: seq<u64>, rnd: u64)
    requires |argv| < WORDS
    ensures [|argv|] + (argv + [0]) + Kept(text, env) + [0, AT_RANDOM, rnd, AT_NULL, 0] == Words(text, argv, env, rnd)
    ensures |Words(text, argv, env, rnd)| == |argv| + |Kept(text, env)| + 7
  {
  }

  lemma NothingLaid(b: seq<byte>, at: nat)
    requires at <= |b|
    ensures PutAll(b, at, []) == b
  {
  }

  lemma KeptNone(text: Text, envp: seq<u64>)
    ensures Kept(text, envp[..0]) == []
  {
  }

  lemma KeptStep(text: Text, envp: seq<u64>, e: nat)
    requires e < |envp|
    ensures Kept(text, envp[..e + 1]) ==
            if Verbose(text, envp[e]) then Kept(text, envp[..e]) else Kept(text, envp[..e]) + [envp[e]]
  {
    assert envp[..e + 1][..e] == envp[..e];
  }

  lemma {:induction false} KeptPrefix(text: Text, envp: seq<u64>, e: nat, n: nat)
    requires e <= n <= |envp|
    ensures |Kept(text, envp[..e])| <= |Kept(text, envp[..n])|
    decreases n - e
  {
    if e < n {
      KeptStep(text, envp, e);
      KeptPrefix(text, envp, e + 1, n);
    }
  }

  /** The room is 4096 bytes and what the base is off a multiple of 16: with the null pointers and the auxiliary vector,
      at most 505 arguments and kept environment entries fit, and one more if the base is off by a word at least. */
  lemma FitsExactly(base: nat, argc: nat, kept: nat)
    ensures Fits(base, argc + kept + 7) <==> argc + kept <= if base % 16 < 8 then 505 else 506
  {
  }
}
