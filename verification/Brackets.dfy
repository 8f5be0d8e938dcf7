/** What producers and consumers may print (the comment at the head of pc.c): a prefix of a balanced bracket string that
    nests at most n deep. */
module Brackets {
  import opened Prelude

  datatype Role = Producer | Consumer

  /** What a thread prints. */
  function Bracket(role: Role): char { if role == Producer then '(' else ')' }

  /** The nesting depth after `out`, from depth `k`; None if it goes below 0 or above `n`, or `out` is no bracket
      string. */
  function Scan(n: nat, k: nat, out: string): Option<nat>
    decreases |out|
  {
    if out == "" then Some(k)
    else if out[0] == '(' && k < n then Scan(n, k + 1, out[1..])
    else if out[0] == ')' && k > 0 then Scan(n, k - 1, out[1..])
    else None
  }

  predicate Legal(n: nat, out: string) { Scan(n, 0, out).Some? }

  lemma {:induction false} ScanAppend(n: nat, k: nat, out: string, more: string)
    ensures Scan(n, k, out + more) == match Scan(n, k, out) case None => None case Some(d) => Scan(n, d, more)
    decreases |out|
  {
    if out == "" {
      assert out + more == more;
    } else {
      assert (out + more)[1..] == out[1..] + more;
      if out[0] == '(' && k < n {
        ScanAppend(n, k + 1, out[1..], more);
      } else if out[0] == ')' && k > 0 {
        ScanAppend(n, k - 1, out[1..], more);
      }
    }
  }

  /** One more bracket. */
  lemma Print(n: nat, out: string, c: char)
    requires Legal(n, out) && (c == '(' || c == ')')
    ensures var d := Scan(n, 0, out).value;
            && (c == '(' ==> Scan(n, 0, out + [c]) == if d < n then Some(d + 1) else None)
            && (c == ')' ==> Scan(n, 0, out + [c]) == if d > 0 then Some(d - 1) else None)
  {
    ScanAppend(n, 0, out, [c]);
  }

  lemma {:induction false} ScanBound(n: nat, k: nat, out: string)
    requires k <= n && Scan(n, k, out).Some?
    ensures Scan(n, k, out).value <= n
    decreases |out|
  {
    if out != "" {
      ScanBound(n, if out[0] == '(' then k + 1 else k - 1, out[1..]);
    }
  }

  /** A larger bound changes nothing. */
  lemma {:induction false} ScanWiden(n: nat, m: nat, k: nat, out: string)
    requires n <= m && Scan(n, k, out).Some?
    ensures Scan(m, k, out) == Scan(n, k, out)
    decreases |out|
  {
    if out != "" {
      ScanWiden(n, m, if out[0] == '(' then k + 1 else k - 1, out[1..]);
    }
  }

  function Opens(n: nat): string { if n == 0 then "" else ['('] + Opens(n - 1) }

  lemma {:induction false} ScanOpens(n: nat, k: nat, m: nat)
    requires k + m <= n
    ensures Scan(n, k, Opens(m)) == Some(k + m) && ')' !in Opens(m)
    decreases m
  {
    if m > 0 {
      ScanOpens(n, k + 1, m - 1);
      assert Opens(m)[1..] == Opens(m - 1);
    }
  }

  /** There are threads for all the brackets in `out`. */
  predicate PrintableBy(roles: seq<Role>, out: string) {
    ('(' in out ==> Producer in roles) && (')' in out ==> Consumer in roles)
  }

  // ---------- Balanced strings ----------

  /** A balanced bracket string: empty, or a pair of brackets around one and followed by another. */
  datatype Balanced = Empty | Pair(inner: Balanced, rest: Balanced)

  function Nesting(b: Balanced): nat {
    match b
    case Empty => 0
    case Pair(i, r) => if Nesting(i) + 1 >= Nesting(r) then Nesting(i) + 1 else Nesting(r)
  }

  /** The string of `b`, followed by `rest`. */
  function ShowOnto(b: Balanced, rest: string): string {
    match b
    case Empty => rest
    case Pair(i, r) => ['('] + ShowOnto(i, [')'] + ShowOnto(r, rest))
  }

  function Show(b: Balanced): string { ShowOnto(b, "") }

  lemma {:induction false} ScanSkipsBalanced(n: nat, k: nat, b: Balanced, rest: string)
    requires k + Nesting(b) <= n
    ensures Scan(n, k, ShowOnto(b, rest)) == Scan(n, k, rest)
    decreases b
  {
    match b
    case Empty =>
    case Pair(i, r) =>
      ScanSkipsBalanced(n, k + 1, i, [')'] + ShowOnto(r, rest));
      ScanSkipsBalanced(n, k, r, rest);
  }

  /** The strings of `bs`, with a closing bracket between any two. */
  function ShowStack(bs: seq<Balanced>): string {
    if bs == [] then "" else ShowOnto(bs[0], if |bs| == 1 then "" else [')'] + ShowStack(bs[1..]))
  }

  /** A string that is legal from depth k is completed by closing what it and its context left open. */
  lemma {:induction false} Complete(n: nat, k: nat, out: string) returns (bs: seq<Balanced>)
    requires k <= n && Scan(n, k, out).Some?
    ensures |bs| == k + 1 && out <= ShowStack(bs)
    ensures forall j :: 0 <= j <= k ==> Nesting(bs[j]) + (k - j) <= n
    decreases |out|
  {
    if out == "" {
      bs := seq(k + 1, _ => Empty);
    } else if out[0] == '(' {
      var cs := Complete(n, k + 1, out[1..]);
      bs := [Pair(cs[0], cs[1])] + cs[2..];
      assert cs[1..][1..] == cs[2..] == bs[1..];
      assert ShowStack(bs) == ['('] + ShowStack(cs);
    } else {
      var cs := Complete(n, k - 1, out[1..]);
      bs := [Empty] + cs;
      assert bs[1..] == cs;
      assert ShowStack(bs) == [')'] + ShowStack(cs);
    }
  }

  /** The two readings of the comment agree: no prefix leaves the depths 0, ..., n exactly when the string is a prefix
      of a balanced one that nests at most n deep. */
  lemma LegalMeansPrefixOfBalanced(n: nat, out: string)
    ensures Legal(n, out) <==> exists b :: Nesting(b) <= n && out <= Show(b)
  {
    if Legal(n, out) {
      var bs := Complete(n, 0, out);
      assert ShowStack(bs) == Show(bs[0]);
    }
    if b :| Nesting(b) <= n && out <= Show(b) {
      ScanSkipsBalanced(n, 0, b, "");
      assert Show(b) == out + Show(b)[|out|..];
      ScanAppend(n, 0, out, Show(b)[|out|..]);
    }
  }
}
