/**
 * Class `Grammar` of `generate.py` and its driver `define_grammar`: the rule
 * dictionary `obj` that the builder methods fill in, and `write`, which turns
 * it into grammar text, one line per key.
 */
module GrammarBuilder {
  import opened NameConfig
  import opened FileFetcher

  /** One right-hand-side entry of `obj`. In the source the first three are
      strings written verbatim (`"PRE"`, `"' '"`, `"['nouns/air.txt']"`),
      `PathList` is a Python list of paths and `Empty` is `None`. */
  datatype Item =
    | Nonterminal(name: string)
    | Terminal(text: string)
    | VocabRef(path: string)
    | PathList(paths: seq<string>)
    | Empty

  /** `f"'{p}'"` for each path, joined by `", "`: the inside of a list's `str`. */
  function QuotedList(ps: seq<string>): string
  {
    if ps == [] then ""
    else if |ps| == 1 then "'" + ps[0] + "'"
    else "'" + ps[0] + "', " + QuotedList(ps[1..])
  }

  /** The text `write` emits for one item (before its separating space). */
  function Render(it: Item): string
  {
    match it
    case Nonterminal(n) => n
    case Terminal(t) => "'" + t + "'"
    case VocabRef(p) => "['" + p + "']"
    case PathList(ps) => "[" + QuotedList(ps) + "]"
    case Empty => " | "
  }

  /** A list of one path is written exactly like a single vocabulary reference. */
  lemma SinglePathListRendersAsRef(p: string)
    ensures Render(PathList([p])) == Render(VocabRef(p))
  {
  }

  /** No key occurs twice: each key is absent from the keys before it. */
  ghost predicate Distinct(ks: seq<string>)
    decreases |ks|
  {
    ks == [] || (ks[|ks| - 1] !in ks[..|ks| - 1] && Distinct(ks[..|ks| - 1]))
  }

  lemma DistinctSnoc(ks: seq<string>, k: string)
    requires Distinct(ks) && k !in ks
    ensures Distinct(ks + [k])
  {
    assert (ks + [k])[..|ks|] == ks;
  }

  /** A list whose entries differ pairwise lists each key once. */
  lemma {:induction false} PairwiseDistinct(ks: seq<string>)
    requires forall i, j :: 0 <= i < j < |ks| ==> ks[i] != ks[j]
    ensures Distinct(ks)
    decreases |ks|
  {
    if ks != [] {
      var init := ks[..|ks| - 1];
      PairwiseDistinct(init);
      forall i | 0 <= i < |init| ensures init[i] != ks[|ks| - 1] {
        assert init[i] == ks[i];
      }
    }
  }

  /** An insertion-ordered dictionary, as a Python `dict` is: `keys` lists
      the keys in the order they were first assigned. */
  datatype Dict = Dict(keys: seq<string>, items: map<string, seq<Item>>)
  {
    ghost predicate Valid()
    {
      && Distinct(keys)
      && (forall k :: k in items <==> k in keys)
    }

    /** `d[k] = v`. */
    function Set(k: string, v: seq<Item>): Dict
    {
      if k in items then Dict(keys, items[k := v]) else Dict(keys + [k], items[k := v])
    }
  }

  /** Assignment keeps the dictionary well formed; an existing key keeps its
      place and a new key goes last, every earlier key staying where it was. */
  lemma SetKeepsOrder(d: Dict, k: string, v: seq<Item>)
    requires d.Valid()
    ensures d.Set(k, v).Valid()
    ensures d.Set(k, v).items == d.items[k := v]
    ensures k in d.items ==> d.Set(k, v).keys == d.keys
    ensures k !in d.items ==> d.Set(k, v).keys == d.keys + [k]
  {
    var e := d.Set(k, v);
    if k !in d.items {
      DistinctSnoc(d.keys, k);
      forall x | x in e.items ensures x in e.keys {
        if x != k {
          assert x in d.keys;
        }
      }
    }
  }

  /** Assigning a key twice leaves it as assigning it once with the second value. */
  lemma SetTwice(d: Dict, k: string, v1: seq<Item>, v2: seq<Item>)
    ensures d.Set(k, v1).Set(k, v2) == d.Set(k, v2)
  {
  }

  const EmptyDict := Dict([], map[])

  /** The text of one key's line: `key -> ` then each item and a space. */
  function RenderItems(vs: seq<Item>): string
  {
    if vs == [] then "" else RenderItems(vs[..|vs| - 1]) + Render(vs[|vs| - 1]) + " "
  }

  function Line(k: string, vs: seq<Item>): string
  {
    k + " -> " + RenderItems(vs) + "\n"
  }

  /** The lines of the given keys, in the given order. */
  function Lines(ks: seq<string>, items: map<string, seq<Item>>): string
    requires forall k :: k in ks ==> k in items
  {
    if ks == [] then "" else Lines(ks[..|ks| - 1], items) + Line(ks[|ks| - 1], items[ks[|ks| - 1]])
  }

  lemma RenderItemsSnoc(vs: seq<Item>, j: nat)
    requires j < |vs|
    ensures RenderItems(vs[..j + 1]) == RenderItems(vs[..j]) + Render(vs[j]) + " "
  {
    assert vs[..j + 1][..j] == vs[..j];
  }

  lemma LinesSnoc(ks: seq<string>, items: map<string, seq<Item>>, i: nat)
    requires i < |ks|
    requires forall k :: k in ks ==> k in items
    ensures forall k :: k in ks[..i + 1] ==> k in items
    ensures Lines(ks[..i + 1], items) == Lines(ks[..i], items) + Line(ks[i], items[ks[i]])
  {
    assert ks[..i + 1][..i] == ks[..i];
  }

  /** The grammar text `write` produces for a dictionary. */
  function Serialise(d: Dict): string
    requires d.Valid()
  {
    Lines(d.keys, d.items)
  }

  /** The number of newline characters in a string. */
  function Newlines(s: string): nat
  {
    if s == [] then 0 else (if s[0] == '\n' then 1 else 0) + Newlines(s[1..])
  }

  lemma {:induction false} NewlinesConcat(a: string, b: string)
    ensures Newlines(a + b) == Newlines(a) + Newlines(b)
  {
    if a != [] {
      assert (a + b)[0] == a[0];
      assert (a + b)[1..] == a[1..] + b;
      NewlinesConcat(a[1..], b);
    } else {
      assert a + b == b;
    }
  }

  predicate ItemOneLine(it: Item)
  {
    match it
    case Nonterminal(n) => '\n' !in n
    case Terminal(t) => '\n' !in t
    case VocabRef(p) => '\n' !in p
    case PathList(ps) => forall p :: p in ps ==> '\n' !in p
    case Empty => true
  }

  lemma {:induction false} QuotedListOneLine(ps: seq<string>)
    requires forall p :: p in ps ==> '\n' !in p
    ensures Newlines(QuotedList(ps)) == 0
  {
    NoNewlineCount("'");
    NoNewlineCount("', ");
    if |ps| == 1 {
      NoNewlineCount(ps[0]);
      NewlinesConcat("'", ps[0]);
      NewlinesConcat("'" + ps[0], "'");
    } else if |ps| > 1 {
      QuotedListOneLine(ps[1..]);
      NoNewlineCount(ps[0]);
      NewlinesConcat("'", ps[0]);
      NewlinesConcat("'" + ps[0], "', ");
      NewlinesConcat("'" + ps[0] + "', ", QuotedList(ps[1..]));
    }
  }

  lemma RenderOneLine(it: Item)
    requires ItemOneLine(it)
    ensures Newlines(Render(it)) == 0
  {
    match it
    case Nonterminal(n) =>
      assert Newlines(n) == 0 by { NoNewlineCount(n); }
    case Terminal(t) =>
      NoNewlineCount(t);
      NoNewlineCount("'");
      NewlinesConcat("'", t);
      NewlinesConcat("'" + t, "'");
    case VocabRef(p) =>
      NoNewlineCount(p);
      NoNewlineCount("['");
      NoNewlineCount("']");
      NewlinesConcat("['", p);
      NewlinesConcat("['" + p, "']");
    case PathList(ps) =>
      QuotedListOneLine(ps);
      NoNewlineCount("[");
      NoNewlineCount("]");
      NewlinesConcat("[", QuotedList(ps));
      NewlinesConcat("[" + QuotedList(ps), "]");
    case Empty =>
      NoNewlineCount(" | ");
  }

  lemma {:induction false} NoNewlineCount(s: string)
    requires '\n' !in s
    ensures Newlines(s) == 0
  {
    if s != [] {
      assert s[0] in s;
      NoNewlineCount(s[1..]);
    }
  }

  lemma {:induction false} RenderItemsOneLine(vs: seq<Item>)
    requires forall it :: it in vs ==> ItemOneLine(it)
    ensures Newlines(RenderItems(vs)) == 0
  {
    if vs != [] {
      var last := vs[|vs| - 1];
      RenderItemsOneLine(vs[..|vs| - 1]);
      RenderOneLine(last);
      NoNewlineCount(" ");
      NewlinesConcat(RenderItems(vs[..|vs| - 1]), Render(last));
      NewlinesConcat(RenderItems(vs[..|vs| - 1]) + Render(last), " ");
    }
  }

  /** When no key or item spans a line break, the text has exactly one line per key. */
  lemma {:induction false} OneLinePerKey(ks: seq<string>, items: map<string, seq<Item>>)
    requires forall k :: k in ks ==> k in items && '\n' !in k
    requires forall k, it :: k in ks && it in items[k] ==> ItemOneLine(it)
    ensures Newlines(Lines(ks, items)) == |ks|
  {
    if ks != [] {
      var k := ks[|ks| - 1];
      OneLinePerKey(ks[..|ks| - 1], items);
      NoNewlineCount(k);
      NoNewlineCount(" -> ");
      RenderItemsOneLine(items[k]);
      NewlinesConcat(k, " -> ");
      NewlinesConcat(k + " -> ", RenderItems(items[k]));
      NewlinesConcat(k + " -> " + RenderItems(items[k]), "\n");
      NewlinesConcat(Lines(ks[..|ks| - 1], items), Line(k, items[k]));
    }
  }
}

module GrammarRules {
  import opened NameConfig
  import opened FileFetcher
  import opened GrammarBuilder

  /** `S -> PRE CORE POST`. */
  const StartRule := [Nonterminal("PRE"), Nonterminal("CORE"), Nonterminal("POST")]
  /** `SPC -> ' '`. */
  const SpaceRule := [Terminal(" ")]
  /** `OF -> 'o' 'f'`. */
  const OfRule := [Terminal("o"), Terminal("f")]

  /** `PRE -> TITLE SPC`, with a trailing empty alternative when optional. */
  function PrefixRule(optional: bool): seq<Item>
  {
    [Nonterminal("TITLE"), Nonterminal("SPC")] + (if optional then [Empty] else [])
  }

  /** `POST -> SPC OF SPC WHERE`, with a trailing empty alternative when optional. */
  function PostfixRule(optional: bool): seq<Item>
  {
    [Nonterminal("SPC"), Nonterminal("OF"), Nonterminal("SPC"), Nonterminal("WHERE")]
    + (if optional then [Empty] else [])
  }

  /** Each path as its own bracketed reference, side by side. */
  function RefItems(ps: seq<string>): (r: seq<Item>)
  {
    seq(|ps|, i requires 0 <= i < |ps| => VocabRef(ps[i]))
  }

  /** `TITLE`: one reference per position file of the configuration. */
  function TitleRule(c: Config): seq<Item>
  {
    RefItems(VariantPaths(PositionsBase, GenderEndings(c, false)))
  }

  /** `WHERE`: the single postfix file of the origin. */
  function WhereRule(o: Origin): seq<Item>
  {
    [VocabRef("postfixes/" + OriginName(o) + ".txt")]
  }

  /** The `CORE` shape a name order selects. */
  function CoreShape(order: NameOrder): seq<Item>
  {
    match order
    case Western => [Nonterminal("FORENAME"), Nonterminal("SPC"), Nonterminal("SURNAME")]
    case Eastern => [Nonterminal("SURNAME"), Nonterminal("SPC"), Nonterminal("FORENAME")]
    case ForenameOnly => [Nonterminal("FORENAME")]
    case SurnameOnly => [Nonterminal("FORENAME")]
    case Unrecognized => [Nonterminal("FORENAME"), Nonterminal("SPC"), Nonterminal("SURNAME")]
  }

  /** Western puts the forename first and Eastern the surname, each with
      exactly one space between; the two single-part orders (including
      `SurnameOnly`, which the source aliases to the forename) emit the
      forename alone; an unrecognised order falls back to Western. */
  lemma CoreShapeOrder(order: NameOrder)
    ensures var r := CoreShape(order);
      && (order.Western? ==> r[0] == Nonterminal("FORENAME") && r[1..] == [Nonterminal("SPC"), Nonterminal("SURNAME")])
      && (order.Eastern? ==> r[0] == Nonterminal("SURNAME") && r[1..] == [Nonterminal("SPC"), Nonterminal("FORENAME")])
      && (order.ForenameOnly? || order.SurnameOnly? ==> r == [Nonterminal("FORENAME")])
      && (order.Unrecognized? ==> r == CoreShape(Western))
      && (Nonterminal("SURNAME") in r <==> order.Western? || order.Eastern? || order.Unrecognized?)
  {
  }

  /** The base of the name-bank files of a name type: `forenames/{bank}`. */
  function BankBase(t: NameType, b: NameBank): string
  {
    TypeLower(t) + "s/" + BankName(b)
  }

  /** `FORENAME` (or `SURNAME`) as `getNamesFromBank` sets it: ONE item holding
      the list of every gender variant's file. */
  function BankRule(t: NameType, c: Config): seq<Item>
  {
    [PathList(VariantPaths(BankBase(t, c.nameBank), GenderEndings(c, false)))]
  }

  /** `SURNAME -> ADJ NOUN`: adjective and noun with no separator. */
  const CompoundRule := [Nonterminal("ADJ"), Nonterminal("NOUN")]

  function AdjRule(o: Origin): seq<Item>
  {
    [VocabRef("adjectives/" + OriginName(o) + ".txt")]
  }

  function NounRule(o: Origin): seq<Item>
  {
    [VocabRef("nouns/" + OriginName(o) + ".txt")]
  }

  /** The dictionary `define_grammar` builds for a configuration, key order included. */
  function BuiltRules(c: Config): (d: Dict)
  {
    var start := map["S" := StartRule, "SPC" := SpaceRule, "OF" := OfRule];
    var position :=
      if c.hasPosition
      then start["PRE" := PrefixRule(false)]["TITLE" := TitleRule(c)]
                ["POST" := PostfixRule(false)]["WHERE" := WhereRule(c.origin)]
      else start;
    Dict(
      ["S", "SPC", "OF"]
      + (if c.hasPosition then ["PRE", "TITLE", "POST", "WHERE"] else [])
      + ["CORE", "FORENAME", "SURNAME", "ADJ", "NOUN"],
      position["CORE" := CoreShape(c.order)]["FORENAME" := BankRule(Forename, c)]
        ["SURNAME" := CompoundRule]["ADJ" := AdjRule(c.origin)]["NOUN" := NounRule(c.origin)])
  }

  /** Every nonterminal a rule mentions has a rule of its own. */
  ghost predicate ReferencesDefined(d: Dict)
  {
    forall k, i :: k in d.items && 0 <= i < |d.items[k]| && d.items[k][i].Nonterminal? ==> d.items[k][i].name in d.items
  }

  /** The keys with a position, each once. */
  lemma PositionKeysDistinct()
    ensures Distinct(["S", "SPC", "OF", "PRE", "TITLE", "POST", "WHERE", "CORE", "FORENAME", "SURNAME", "ADJ", "NOUN"])
  {
    PairwiseDistinct(["S", "SPC", "OF", "PRE", "TITLE", "POST", "WHERE", "CORE", "FORENAME", "SURNAME", "ADJ", "NOUN"]);
  }

  /** The keys without a position, each once. */
  lemma PlainKeysDistinct()
    ensures Distinct(["S", "SPC", "OF", "CORE", "FORENAME", "SURNAME", "ADJ", "NOUN"])
  {
    PairwiseDistinct(["S", "SPC", "OF", "CORE", "FORENAME", "SURNAME", "ADJ", "NOUN"]);
  }

  /** Every key given a rule is listed among the keys. */
  lemma BuiltItemsListed(c: Config)
    ensures forall k :: k in BuiltRules(c).items ==> k in BuiltRules(c).keys
  {
    var d := BuiltRules(c);
    forall k | k in d.items ensures k in d.keys {
      if c.hasPosition {
        PositionItemListed(c, k);
      } else {
        PlainItemListed(c, k);
      }
    }
  }

  lemma PositionItemListed(c: Config, k: string)
    requires c.hasPosition && k in BuiltRules(c).items
    ensures k in BuiltRules(c).keys
  {
    assert BuiltRules(c).keys == ["S", "SPC", "OF", "PRE", "TITLE", "POST", "WHERE", "CORE", "FORENAME", "SURNAME", "ADJ", "NOUN"];
  }

  lemma PlainItemListed(c: Config, k: string)
    requires !c.hasPosition && k in BuiltRules(c).items
    ensures k in BuiltRules(c).keys
  {
    assert BuiltRules(c).keys == ["S", "SPC", "OF", "CORE", "FORENAME", "SURNAME", "ADJ", "NOUN"];
  }

  /** Every listed key is given a rule. */
  lemma BuiltKeysListed(c: Config)
    ensures forall k :: k in BuiltRules(c).keys ==> k in BuiltRules(c).items
  {
  }

  lemma PositionKeysValid(c: Config)
    requires c.hasPosition
    ensures BuiltRules(c).Valid()
    ensures BuiltRules(c).keys == ["S", "SPC", "OF", "PRE", "TITLE", "POST", "WHERE", "CORE", "FORENAME", "SURNAME", "ADJ", "NOUN"]
  {
    assert BuiltRules(c).keys == ["S", "SPC", "OF", "PRE", "TITLE", "POST", "WHERE", "CORE", "FORENAME", "SURNAME", "ADJ", "NOUN"];
    PositionKeysDistinct();
    BuiltItemsListed(c);
    BuiltKeysListed(c);
  }

  lemma PlainKeysValid(c: Config)
    requires !c.hasPosition
    ensures BuiltRules(c).Valid()
    ensures BuiltRules(c).keys == ["S", "SPC", "OF", "CORE", "FORENAME", "SURNAME", "ADJ", "NOUN"]
  {
    assert BuiltRules(c).keys == ["S", "SPC", "OF", "CORE", "FORENAME", "SURNAME", "ADJ", "NOUN"];
    PlainKeysDistinct();
    BuiltItemsListed(c);
    BuiltKeysListed(c);
  }

  /** The keys `define_grammar` assigns, in assignment order, each once. */
  lemma BuiltKeys(c: Config)
    ensures var d := BuiltRules(c);
      && d.Valid()
      && (c.hasPosition ==> d.keys == ["S", "SPC", "OF", "PRE", "TITLE", "POST", "WHERE", "CORE", "FORENAME", "SURNAME", "ADJ", "NOUN"])
      && (!c.hasPosition ==> d.keys == ["S", "SPC", "OF", "CORE", "FORENAME", "SURNAME", "ADJ", "NOUN"])
  {
    if c.hasPosition {
      PositionKeysValid(c);
    } else {
      PlainKeysValid(c);
    }
  }

  /** Every nonterminal mentioned by the built rules names a key, with
      `PRE` and `POST` the only ones that may be missing. */
  lemma BuiltReferences(c: Config, k: string, i: int)
    requires k in BuiltRules(c).items && 0 <= i < |BuiltRules(c).items[k]|
    requires BuiltRules(c).items[k][i].Nonterminal?
    ensures var n := BuiltRules(c).items[k][i].name;
      n in BuiltRules(c).items || (!c.hasPosition && (n == "PRE" || n == "POST"))
  {
  }

  /** The built dictionary defines every nonterminal it mentions exactly when
      the configuration has a position: without one, `S` still mentions
      `PRE` and `POST`, which nothing defines. */
  lemma BuiltRulesClosedIffPosition(c: Config)
    ensures ReferencesDefined(BuiltRules(c)) <==> c.hasPosition
    ensures !c.hasPosition ==> "PRE" !in BuiltRules(c).items && "POST" !in BuiltRules(c).items
  {
    var d := BuiltRules(c);
    if c.hasPosition {
      forall k, i | k in d.items && 0 <= i < |d.items[k]| && d.items[k][i].Nonterminal?
        ensures d.items[k][i].name in d.items
      {
        BuiltReferences(c, k, i);
      }
    } else {
      assert d.items["S"][0] == Nonterminal("PRE");
    }
  }
}
