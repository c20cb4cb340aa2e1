/**
 * `produce` of `generate.py`: top-down random expansion of a nonterminal
 * over the productions the grammar text was read into. The random draws
 * of `random.choice` come from an injected stream `rng`: the n-th draw
 * selects production `rng(n) % k` among k. The interpreter's recursion
 * limit is `fuel`.
 */
module Derivation {
  import opened Wrappers

  /** A right-hand-side symbol as read from grammar text: a quoted terminal
      or a bare nonterminal name. */
  datatype Sym = T(text: string) | N(name: string)

  /** Each nonterminal's productions, in the order they were read. */
  type Productions = map<string, seq<seq<Sym>>>

  /** Why no name came out. */
  datatype Error =
    | Unreadable(text: string)     // grammar text the reader rejects
    | EmptyProduction(name: string) // `choice` on a nonterminal without productions
    | DepthExceeded                 // the recursion limit was reached

  /** The words derived so far and the index of the next random draw. */
  datatype Derived = Derived(words: seq<string>, next: nat)

  function Prepend(w: seq<string>, r: Result<Derived, Error>): Result<Derived, Error>
  {
    match r
    case Success(d) => Success(Derived(w + d.words, d.next))
    case Failure(e) => Failure(e)
  }

  lemma PrependNothing(r: Result<Derived, Error>)
    ensures Prepend([], r) == r
  {
    if r.Success? {
      assert [] + r.value.words == r.value.words;
    }
  }

  lemma PrependTwice(u: seq<string>, w: seq<string>, r: Result<Derived, Error>)
    ensures Prepend(u, Prepend(w, r)) == Prepend(u + w, r)
  {
    if r.Success? {
      assert u + (w + r.value.words) == (u + w) + r.value.words;
    }
  }

  /** Expansion of nonterminal `a` starting at draw `n`. */
  function Expand(g: Productions, a: string, rng: nat -> nat, n: nat, fuel: nat): Result<Derived, Error>
    decreases fuel, 0
  {
    if fuel == 0 then Failure(DepthExceeded)
    else if a !in g || |g[a]| == 0 then Failure(EmptyProduction(a))
    else ExpandSeq(g, g[a][rng(n) % |g[a]|], rng, n + 1, fuel - 1)
  }

  /** Expansion of a right-hand side, symbol by symbol, left to right. */
  function ExpandSeq(g: Productions, rhs: seq<Sym>, rng: nat -> nat, n: nat, fuel: nat): Result<Derived, Error>
    decreases fuel, |rhs| + 1
  {
    if rhs == [] then Success(Derived([], n))
    else
      match rhs[0]
      case T(t) => Prepend([t], ExpandSeq(g, rhs[1..], rng, n, fuel))
      case N(b) =>
        match Expand(g, b, rng, n, fuel)
        case Failure(e) => Failure(e)
        case Success(d) => Prepend(d.words, ExpandSeq(g, rhs[1..], rng, d.next, fuel))
  }

  /** `produce(grammar, symbol)`: picks one production of `a` and appends,
      in order, each terminal and the expansion of each nonterminal. */
  method Produce(g: Productions, a: string, rng: nat -> nat, n: nat, fuel: nat) returns (r: Result<Derived, Error>)
    ensures r == Expand(g, a, rng, n, fuel)
    decreases fuel
  {
    if fuel == 0 {
      return Failure(DepthExceeded);
    }
    var productions := if a in g then g[a] else [];
    if |productions| == 0 {
      return Failure(EmptyProduction(a));
    }
    var production := productions[rng(n) % |productions|];
    var words: seq<string> := [];
    var next: nat := n + 1;
    PrependNothing(ExpandSeq(g, production, rng, next, fuel - 1));
    for i := 0 to |production|
      invariant ExpandSeq(g, production, rng, n + 1, fuel - 1)
             == Prepend(words, ExpandSeq(g, production[i..], rng, next, fuel - 1))
    {
      var sym := production[i];
      assert production[i..][0] == sym && production[i..][1..] == production[i + 1..];
      match sym {
        case T(t) =>
          PrependTwice(words, [t], ExpandSeq(g, production[i + 1..], rng, next, fuel - 1));
          words := words + [t];
        case N(b) =>
          var sub := Produce(g, b, rng, next, fuel - 1);
          if sub.Failure? {
            return Failure(sub.error);
          }
          PrependTwice(words, sub.value.words, ExpandSeq(g, production[i + 1..], rng, sub.value.next, fuel - 1));
          words := words + sub.value.words;
          next := sub.value.next;
      }
    }
    assert production[|production|..] == [];
    assert words + [] == words;
    r := Success(Derived(words, next));
  }

  /** A derivation tree: a leaf per terminal, a node per nonterminal
      expansion recording which production was chosen. */
  datatype Tree = Leaf(text: string) | Node(name: string, choice: nat, kids: seq<Tree>)

  /** `t` derives symbol `s` in `g`: a terminal is its own leaf; a
      nonterminal is a node naming one of its productions, with one subtree
      per symbol of that production, each deriving that symbol. */
  predicate Derives(g: Productions, s: Sym, t: Tree)
    decreases t
  {
    match s
    case T(x) => t == Leaf(x)
    case N(a) =>
      && t.Node? && t.name == a && a in g && t.choice < |g[a]|
      && |t.kids| == |g[a][t.choice]|
      && forall i :: 0 <= i < |t.kids| ==> Derives(g, g[a][t.choice][i], t.kids[i])
  }

  /** The terminals at the leaves, left to right. */
  function Yield(t: Tree): seq<string>
    decreases t
  {
    match t
    case Leaf(x) => [x]
    case Node(_, _, kids) => YieldAll(kids)
  }

  function YieldAll(ts: seq<Tree>): seq<string>
    decreases ts
  {
    if ts == [] then [] else Yield(ts[0]) + YieldAll(ts[1..])
  }

  /** The number of nonterminal expansions in a tree. */
  function Expansions(t: Tree): nat
    decreases t
  {
    match t
    case Leaf(_) => 0
    case Node(_, _, kids) => 1 + ExpansionsAll(kids)
  }

  function ExpansionsAll(ts: seq<Tree>): nat
    decreases ts
  {
    if ts == [] then 0 else Expansions(ts[0]) + ExpansionsAll(ts[1..])
  }

  /** What `produce` returns is the yield of a derivation tree of the
      grammar: only terminals, in right-hand-side order, with exactly one
      production chosen, and one random draw used, per nonterminal expanded. */
  lemma {:induction false} ExpandIsDerivation(g: Productions, a: string, rng: nat -> nat, n: nat, fuel: nat)
    returns (t: Tree)
    requires Expand(g, a, rng, n, fuel).Success?
    ensures Derives(g, N(a), t)
    ensures Yield(t) == Expand(g, a, rng, n, fuel).value.words
    ensures Expand(g, a, rng, n, fuel).value.next == n + Expansions(t)
    decreases fuel, 0
  {
    var k := rng(n) % |g[a]|;
    var kids := ExpandSeqIsDerivation(g, g[a][k], rng, n + 1, fuel - 1);
    t := Node(a, k, kids);
  }

  lemma {:induction false} ExpandSeqIsDerivation(g: Productions, rhs: seq<Sym>, rng: nat -> nat, n: nat, fuel: nat)
    returns (ts: seq<Tree>)
    requires ExpandSeq(g, rhs, rng, n, fuel).Success?
    ensures |ts| == |rhs|
    ensures forall i :: 0 <= i < |rhs| ==> Derives(g, rhs[i], ts[i])
    ensures YieldAll(ts) == ExpandSeq(g, rhs, rng, n, fuel).value.words
    ensures ExpandSeq(g, rhs, rng, n, fuel).value.next == n + ExpansionsAll(ts)
    decreases fuel, |rhs| + 1
  {
    if rhs == [] {
      ts := [];
    } else {
      match rhs[0]
      case T(x) => {
        var rest := ExpandSeqIsDerivation(g, rhs[1..], rng, n, fuel);
        ts := [Leaf(x)] + rest;
        assert ts[1..] == rest;
      }
      case N(b) => {
        var t := ExpandIsDerivation(g, b, rng, n, fuel);
        var d := Expand(g, b, rng, n, fuel).value;
        var rest := ExpandSeqIsDerivation(g, rhs[1..], rng, d.next, fuel);
        ts := [t] + rest;
        assert ts[1..] == rest;
      }
    }
  }

  /** Every nonterminal has a production, and every nonterminal a production
      mentions is defined and ranks below the one it belongs to: the rule
      graph has no cycle and no dead end. */
  ghost predicate Grounded(g: Productions, rank: string -> nat)
  {
    forall a :: a in g ==>
      && |g[a]| > 0
      && forall alt, s :: alt in g[a] && s in alt && s.N? ==> s.name in g && rank(s.name) < rank(a)
  }

  /** On a grounded grammar `produce` never fails: every random stream
      yields a name once the recursion limit exceeds the start symbol's rank. */
  lemma {:induction false} ExpandTotal(g: Productions, rank: string -> nat, a: string, rng: nat -> nat, n: nat, fuel: nat)
    requires Grounded(g, rank) && a in g && rank(a) < fuel
    ensures Expand(g, a, rng, n, fuel).Success?
    decreases fuel, 0
  {
    var alt := g[a][rng(n) % |g[a]|];
    assert alt in g[a];
    ExpandSeqTotal(g, rank, alt, rng, n + 1, fuel - 1);
  }

  lemma {:induction false} ExpandSeqTotal(g: Productions, rank: string -> nat, rhs: seq<Sym>, rng: nat -> nat, n: nat, fuel: nat)
    requires Grounded(g, rank)
    requires forall s :: s in rhs && s.N? ==> s.name in g && rank(s.name) < fuel
    ensures ExpandSeq(g, rhs, rng, n, fuel).Success?
    decreases fuel, |rhs| + 1
  {
    if rhs != [] {
      assert rhs[0] in rhs;
      assert forall s :: s in rhs[1..] ==> s in rhs;
      match rhs[0]
      case T(x) =>
        ExpandSeqTotal(g, rank, rhs[1..], rng, n, fuel);
      case N(b) =>
        ExpandTotal(g, rank, b, rng, n, fuel);
        ExpandSeqTotal(g, rank, rhs[1..], rng, Expand(g, b, rng, n, fuel).value.next, fuel);
    }
  }

  /** `choice` on a nonterminal without productions is a failure, never an empty result. */
  lemma UndefinedFails(g: Productions, a: string, rng: nat -> nat, n: nat, fuel: nat)
    requires a !in g || g[a] == []
    requires fuel > 0
    ensures Expand(g, a, rng, n, fuel) == Failure(EmptyProduction(a))
  {
  }
}
