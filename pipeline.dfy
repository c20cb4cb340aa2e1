/**
 * The script path of `generate.py`: `define_grammar`, then `resolve_grammar`
 * on the text it wrote, then the reading of that text into productions and
 * `produce` from the start symbol, the words joined into the name.
 */
module Pipeline {
  import opened Wrappers
  import opened NameConfig
  import opened FileFetcher
  import opened GrammarBuilder
  import opened GrammarRules
  import opened Derivation
  import opened Resolver

  /** `''.join(words)`: the words in order with nothing between them, so
      the name is empty exactly when every word is. */
  function Join(ws: seq<string>): (r: string)
    ensures |r| == 0 <==> forall i :: 0 <= i < |ws| ==> ws[i] == ""
  {
    if ws == [] then "" else ws[0] + Join(ws[1..])
  }

  /** Joining two runs of words is joining each and concatenating. */
  lemma {:induction false} JoinConcat(a: seq<string>, b: seq<string>)
    ensures Join(a + b) == Join(a) + Join(b)
    decreases |a|
  {
    if a == [] {
      assert a + b == b;
    } else {
      assert (a + b)[0] == a[0] && (a + b)[1..] == a[1..] + b;
      JoinConcat(a[1..], b);
    }
  }

  /** A successful expansion is the yield of a derivation tree. */
  lemma ExpandYields(g: Productions, a: string, rng: nat -> nat, fuel: nat)
    requires Expand(g, a, rng, 0, fuel).Success?
    ensures exists t :: Derives(g, N(a), t) && Yield(t) == Expand(g, a, rng, 0, fuel).value.words
  {
    var t := ExpandIsDerivation(g, a, rng, 0, fuel);
  }

  /** The name generated for a configuration, before title-casing: the
      built rules, resolved against the vocabulary files and read, expanded
      from `S` with the random stream `rng` and recursion limit `fuel`. A
      name is the joined yield of a derivation of `S` in the grammar read
      from the resolved text; text the reader rejects stops the script with
      the offending line. */
  function GenerateName(c: Config, vocab: Vocabulary, rng: nat -> nat, fuel: nat): (r: Result<string, Error>)
    ensures BuiltRules(c).Valid()
    ensures r.Success? ==>
      && ReadGrammar(BuiltRules(c), vocab).Success?
      && exists t :: Derives(ReadGrammar(BuiltRules(c), vocab).value, N("S"), t) && r.value == Join(Yield(t))
    ensures ReadGrammar(BuiltRules(c), vocab).Failure? ==>
      r.Failure? && r.error.Unreadable? && r.error.text in BuiltRules(c).keys
  {
    BuiltKeys(c);
    ReadGrammarIff(BuiltRules(c), vocab);
    match ReadGrammar(BuiltRules(c), vocab)
    case Failure(e) => Failure(e)
    case Success(g) =>
      match Expand(g, "S", rng, 0, fuel)
      case Failure(e) => Failure(e)
      case Success(r) => ExpandYields(g, "S", rng, fuel); Success(Join(r.words))
  }

  /** How deep below it a rule's expansion may reach. */
  function Rank(k: string): nat
  {
    if k == "S" then 3
    else if k == "CORE" then 2
    else if k == "PRE" || k == "POST" || k == "SURNAME" then 1
    else 0
  }

  /** With a position, every nonterminal the built rules mention is defined
      and ranks below the rule mentioning it. */
  lemma BuiltRulesRanked(c: Config)
    requires c.hasPosition
    ensures var d := BuiltRules(c);
      forall k, i :: k in d.items && 0 <= i < |d.items[k]| && d.items[k][i].Nonterminal? ==>
        d.items[k][i].name in d.items && Rank(d.items[k][i].name) < Rank(k)
  {
    var d := BuiltRules(c);
    forall k, i | k in d.items && 0 <= i < |d.items[k]| && d.items[k][i].Nonterminal?
      ensures d.items[k][i].name in d.items && Rank(d.items[k][i].name) < Rank(k)
    {
      RankedAt(c, k, i);
    }
  }

  lemma BuiltLookups(c: Config)
    requires c.hasPosition
    ensures var m := BuiltRules(c).items;
      && "PRE" in m && "TITLE" in m && "POST" in m && "WHERE" in m && "SPC" in m && "OF" in m
      && "CORE" in m && "FORENAME" in m && "SURNAME" in m && "ADJ" in m && "NOUN" in m
      && m["S"] == StartRule && m["SPC"] == SpaceRule && m["OF"] == OfRule
      && m["PRE"] == PrefixRule(false) && m["TITLE"] == TitleRule(c) && m["POST"] == PostfixRule(false)
      && m["WHERE"] == WhereRule(c.origin) && m["CORE"] == CoreShape(c.order)
      && m["FORENAME"] == BankRule(Forename, c) && m["SURNAME"] == CompoundRule
      && m["ADJ"] == AdjRule(c.origin) && m["NOUN"] == NounRule(c.origin)
  {
  }

  lemma RankedAt(c: Config, k: string, i: int)
    requires c.hasPosition
    requires k in BuiltRules(c).items && 0 <= i < |BuiltRules(c).items[k]|
    ensures var it := BuiltRules(c).items[k][i];
      it.Nonterminal? ==> it.name in BuiltRules(c).items && Rank(it.name) < Rank(k)
  {
    BuiltLookups(c);
    if k == "S" || k == "PRE" || k == "POST" || k == "CORE" || k == "SURNAME" {
      InnerRulesRanked(c, k, i);
    } else {
      LeafRulesPlain(c, k, i);
    }
  }

  /** The rules that mention other rules. */
  lemma InnerRulesRanked(c: Config, k: string, i: int)
    requires c.hasPosition
    requires k == "S" || k == "PRE" || k == "POST" || k == "CORE" || k == "SURNAME"
    requires 0 <= i < |BuiltRules(c).items[k]|
    ensures var it := BuiltRules(c).items[k][i];
      it.Nonterminal? ==> it.name in BuiltRules(c).items && Rank(it.name) < Rank(k)
  {
    var m := BuiltRules(c).items;
    BuiltLookups(c);
    var names := if k == "S" then ["PRE", "CORE", "POST"]
      else if k == "PRE" then ["TITLE", "SPC"]
      else if k == "POST" then ["SPC", "OF", "SPC", "WHERE"]
      else if k == "CORE" then [CoreShape(c.order)[i].name]
      else ["ADJ", "NOUN"];
    if k == "S" {
      assert m[k][i] == Nonterminal(names[i]);
    } else if k == "PRE" {
      assert m[k][i] == Nonterminal(names[i]);
    } else if k == "POST" {
      assert m[k][i] == Nonterminal(names[i]);
    } else if k == "CORE" {
      assert m[k][i].name == "FORENAME" || m[k][i].name == "SPC" || m[k][i].name == "SURNAME";
    } else {
      assert m[k][i] == Nonterminal(names[i]);
    }
  }

  /** Which rule each key holds, with a position. */
  lemma PositionCases(c: Config, k: string)
    requires c.hasPosition
    requires k in BuiltRules(c).items
    ensures var v := BuiltRules(c).items[k];
      || (k == "S" && v == StartRule) || (k == "SPC" && v == SpaceRule) || (k == "OF" && v == OfRule)
      || (k == "PRE" && v == PrefixRule(false)) || (k == "TITLE" && v == TitleRule(c))
      || (k == "POST" && v == PostfixRule(false)) || (k == "WHERE" && v == WhereRule(c.origin))
      || (k == "CORE" && v == CoreShape(c.order)) || (k == "FORENAME" && v == BankRule(Forename, c))
      || (k == "SURNAME" && v == CompoundRule) || (k == "ADJ" && v == AdjRule(c.origin))
      || (k == "NOUN" && v == NounRule(c.origin))
  {
  }

  /** The rules that mention no other rule. */
  lemma LeafRulesPlain(c: Config, k: string, i: int)
    requires c.hasPosition
    requires k in BuiltRules(c).items && 0 <= i < |BuiltRules(c).items[k]|
    requires k != "S" && k != "PRE" && k != "POST" && k != "CORE" && k != "SURNAME"
    ensures !BuiltRules(c).items[k][i].Nonterminal?
  {
    var v := BuiltRules(c).items[k];
    PositionCases(c, k);
    if k == "TITLE" {
      assert v[i] == VocabRef(VariantPaths(PositionsBase, GenderEndings(c, false))[i]);
    } else {
      assert v in [SpaceRule, OfRule, WhereRule(c.origin), BankRule(Forename, c), AdjRule(c.origin), NounRule(c.origin)];
    }
  }

  lemma PathTextConcat(a: string, b: string)
    requires PathText(a) && PathText(b)
    ensures PathText(a + b)
  {
    forall i | 0 <= i < |a + b| ensures PathChar((a + b)[i]) {
      if i >= |a| {
        assert (a + b)[i] == b[i - |a|];
      }
    }
  }

  /** Every variant file of a path-like base is matched by the pattern. */
  lemma VariantPathText(base: string, g: string)
    requires PathText(base) && IsLowerAscii(g)
    ensures PathText(VariantPath(base, g))
  {
    if g != "" {
      PathTextConcat("-", g);
    }
    PathTextConcat(base, Suffix(g));
    PathTextConcat(base + Suffix(g), ".txt");
  }

  /** `base/{origin}.txt` is matched by the pattern. */
  lemma OriginPathText(dir: string, o: Origin)
    requires PathText(dir)
    ensures PathText(dir + OriginName(o) + ".txt")
  {
    OriginNameLower(o);
    PathTextConcat(dir, OriginName(o));
    PathTextConcat(dir + OriginName(o), ".txt");
  }

  lemma EndingsLower(c: Config, i: int)
    requires 0 <= i < |GenderEndings(c, false)|
    ensures IsLowerAscii(GenderEndings(c, false)[i])
  {
    GenderEndingsShape(c, false);
    assert GenderEndings(c, false)[i] in GenderEndings(c, false);
  }

  lemma PositionsBaseText()
    ensures PathText(PositionsBase)
  {
  }

  lemma TitleItemReadable(c: Config, vocab: Vocabulary, i: int)
    requires 0 <= i < |TitleRule(c)|
    ensures RefPath(TitleRule(c)[i]).Some? && ItemToks(TitleRule(c)[i], vocab).Some?
  {
    var es := GenderEndings(c, false);
    var p := VariantPath(PositionsBase, es[i]);
    assert TitleRule(c)[i] == VocabRef(p);
    EndingsLower(c, i);
    PositionsBaseText();
    VariantPathText(PositionsBase, es[i]);
  }

  /** Every title file reference is replaced by the substitution. */
  lemma TitleReadable(c: Config, vocab: Vocabulary)
    ensures forall i :: 0 <= i < |TitleRule(c)| ==> RefPath(TitleRule(c)[i]).Some? && ItemToks(TitleRule(c)[i], vocab).Some?
  {
    forall i | 0 <= i < |TitleRule(c)|
      ensures RefPath(TitleRule(c)[i]).Some? && ItemToks(TitleRule(c)[i], vocab).Some?
    {
      TitleItemReadable(c, vocab, i);
    }
  }

  /** The forename list is read exactly when it holds a single file. */
  lemma ForenameReadable(c: Config, vocab: Vocabulary)
    ensures ItemToks(BankRule(Forename, c)[0], vocab).Some? <==> |GenderEndings(c, false)| == 1
  {
    var es := GenderEndings(c, false);
    var base := BankBase(Forename, c.nameBank);
    if |es| == 1 {
      BankNameLower(c.nameBank);
      assert PathText("forenames/");
      PathTextConcat("forenames/", BankName(c.nameBank));
      assert base == "forenames/" + BankName(c.nameBank);
      EndingsLower(c, 0);
      VariantPathText(base, es[0]);
    }
  }

  lemma ForenameLineReadable(c: Config, vocab: Vocabulary)
    ensures ReadRule(BuiltRules(c).items["FORENAME"], vocab).Some? <==> |GenderEndings(c, false)| == 1
  {
    var vs := BuiltRules(c).items["FORENAME"];
    assert vs == BankRule(Forename, c);
    ForenameReadable(c, vocab);
    ReadTokensIff(vs, vocab);
  }

  lemma ReadableItems(vs: seq<Item>, vocab: Vocabulary)
    requires forall i :: 0 <= i < |vs| ==> ItemToks(vs[i], vocab).Some?
    ensures ReadRule(vs, vocab).Some?
  {
    ReadTokensIff(vs, vocab);
  }

  /** A rule of names and quoted strings only is readable. */
  lemma PlainRuleReadable(vs: seq<Item>, vocab: Vocabulary)
    requires forall i :: 0 <= i < |vs| ==> vs[i].Nonterminal? || vs[i].Terminal? || vs[i].Empty?
    ensures ReadRule(vs, vocab).Some?
  {
    ReadableItems(vs, vocab);
  }

  /** A rule of one file of an origin is readable. */
  lemma OriginRuleReadable(dir: string, o: Origin, vocab: Vocabulary)
    requires PathText(dir)
    ensures ReadRule([VocabRef(dir + OriginName(o) + ".txt")], vocab).Some?
  {
    OriginPathText(dir, o);
    ReadableItems([VocabRef(dir + OriginName(o) + ".txt")], vocab);
  }

  lemma AdjRuleReadable(o: Origin, vocab: Vocabulary)
    ensures ReadRule(AdjRule(o), vocab).Some?
  {
    assert PathText("adjectives/");
    OriginRuleReadable("adjectives/", o, vocab);
  }

  lemma NounRuleReadable(o: Origin, vocab: Vocabulary)
    ensures ReadRule(NounRule(o), vocab).Some?
  {
    assert PathText("nouns/");
    OriginRuleReadable("nouns/", o, vocab);
  }

  lemma WhereRuleReadable(o: Origin, vocab: Vocabulary)
    ensures ReadRule(WhereRule(o), vocab).Some?
  {
    assert PathText("postfixes/");
    OriginRuleReadable("postfixes/", o, vocab);
  }

  lemma PlainLookups(c: Config)
    requires !c.hasPosition
    ensures var m := BuiltRules(c).items;
      && m["S"] == StartRule && m["SPC"] == SpaceRule && m["OF"] == OfRule
      && m["CORE"] == CoreShape(c.order) && m["SURNAME"] == CompoundRule
  {
  }

  /** The rule values the built rules hold for keys other than `FORENAME`. */
  function OtherValues(c: Config): seq<seq<Item>>
  {
    [StartRule, SpaceRule, OfRule, PrefixRule(false), TitleRule(c), PostfixRule(false),
     WhereRule(c.origin), CoreShape(c.order), CompoundRule, AdjRule(c.origin), NounRule(c.origin)]
  }

  /** Every rule `define_grammar` may assign, except `FORENAME`'s, is readable. */
  lemma OtherValueReadable(c: Config, vocab: Vocabulary, v: seq<Item>)
    requires v in OtherValues(c)
    ensures ReadRule(v, vocab).Some?
  {
    if v == TitleRule(c) {
      TitleReadable(c, vocab);
      ReadableItems(v, vocab);
    } else if v == WhereRule(c.origin) {
      WhereRuleReadable(c.origin, vocab);
    } else if v == AdjRule(c.origin) {
      AdjRuleReadable(c.origin, vocab);
    } else if v == NounRule(c.origin) {
      NounRuleReadable(c.origin, vocab);
    } else {
      assert v in [StartRule, SpaceRule, OfRule, PrefixRule(false), PostfixRule(false), CoreShape(c.order), CompoundRule];
      PlainValueReadable(c, vocab, v);
    }
  }

  lemma PlainValueReadable(c: Config, vocab: Vocabulary, v: seq<Item>)
    requires v in [StartRule, SpaceRule, OfRule, PrefixRule(false), PostfixRule(false), CoreShape(c.order), CompoundRule]
    ensures ReadRule(v, vocab).Some?
  {
    if v == CoreShape(c.order) {
      PlainRuleReadable(CoreShape(c.order), vocab);
    } else if v == PrefixRule(false) || v == PostfixRule(false) {
      PlainRuleReadable(v, vocab);
    } else {
      PlainRuleReadable(v, vocab);
    }
  }

  /** Every rule except `FORENAME` is readable. */
  lemma OtherRulesReadable(c: Config, vocab: Vocabulary, k: string)
    requires k in BuiltRules(c).items && k != "FORENAME"
    ensures ReadRule(BuiltRules(c).items[k], vocab).Some?
  {
    if c.hasPosition {
      PositionValue(c, k);
    } else {
      PlainValue(c, k);
    }
    OtherValueReadable(c, vocab, BuiltRules(c).items[k]);
  }

  lemma PositionValue(c: Config, k: string)
    requires c.hasPosition
    requires k in BuiltRules(c).items && k != "FORENAME"
    ensures BuiltRules(c).items[k] in OtherValues(c)
  {
  }

  lemma PlainValue(c: Config, k: string)
    requires !c.hasPosition
    requires k in BuiltRules(c).items && k != "FORENAME"
    ensures BuiltRules(c).items[k] in OtherValues(c)
  {
  }

  /** Every item of the rule is one the reader takes back as written. */
  predicate GoodRule(vs: seq<Item>)
  {
    forall i :: 0 <= i < |vs| ==> GoodItem(vs[i])
  }

  /** Every rule `define_grammar` may assign names nonterminals by single
      words and writes terminals without quotes. */
  lemma RuleValuesGood(c: Config)
    ensures forall v :: v in OtherValues(c) ==> GoodRule(v)
    ensures GoodRule(BankRule(Forename, c))
  {
    NameRulesGood(c.order);
    assert GoodRule(SpaceRule) && GoodRule(OfRule);
  }

  lemma NameRulesGood(order: NameOrder)
    ensures GoodRule(StartRule) && GoodRule(PrefixRule(false)) && GoodRule(PostfixRule(false))
    ensures GoodRule(CoreShape(order)) && GoodRule(CompoundRule)
  {
    UpperWord("PRE");
    UpperWord("CORE");
    UpperWord("POST");
    UpperWord("TITLE");
    UpperWord("SPC");
    UpperWord("OF");
    UpperWord("WHERE");
    UpperWord("FORENAME");
    UpperWord("SURNAME");
    UpperWord("ADJ");
    UpperWord("NOUN");
  }

  /** A name of capital letters is one bare word. */
  lemma UpperWord(n: string)
    requires n != [] && forall i :: 0 <= i < |n| ==> 'A' <= n[i] <= 'Z'
    ensures WordText(n)
  {
  }

  /** Every built rule is one the reader takes back as written. */
  lemma BuiltRuleGood(c: Config, k: string)
    requires k in BuiltRules(c).items
    ensures GoodRule(BuiltRules(c).items[k])
  {
    RuleValuesGood(c);
    if k == "FORENAME" {
      assert BuiltRules(c).items[k] == BankRule(Forename, c);
    } else if c.hasPosition {
      PositionValue(c, k);
    } else {
      PlainValue(c, k);
    }
  }

  /** For quote-free vocabulary files, every line of the text
      `resolve_grammar` returns for the built rules has a right-hand side
      the reader tokenises exactly as the model reads that rule. */
  lemma BuiltTextReads(c: Config, vocab: Vocabulary)
    requires QuoteFree(vocab)
    ensures BuiltRules(c).Valid()
    ensures forall k :: k in BuiltRules(c).items ==>
      Lex(ResolveItems(BuiltRules(c).items[k], vocab)) == ReadTokens(BuiltRules(c).items[k], vocab)
  {
    var d := BuiltRules(c);
    BuiltKeys(c);
    forall k | k in d.items
      ensures Lex(ResolveItems(d.items[k], vocab)) == ReadTokens(d.items[k], vocab)
    {
      BuiltRuleGood(c, k);
      LexResolvedItems(d.items[k], vocab);
    }
  }

  /** The resolved grammar text is readable exactly when the configuration
      asks for a single gender variant; otherwise the `FORENAME` line, the
      only one holding a list of files, is the one rejected. */
  lemma BuiltReadableIff(c: Config, vocab: Vocabulary)
    ensures BuiltRules(c).Valid()
    ensures ReadGrammar(BuiltRules(c), vocab).Success? <==> |GenderEndings(c, false)| == 1
    ensures ReadGrammar(BuiltRules(c), vocab).Failure? ==>
      ReadGrammar(BuiltRules(c), vocab).error == Unreadable("FORENAME")
  {
    var d := BuiltRules(c);
    BuiltKeys(c);
    ReadGrammarIff(d, vocab);
    forall k | k in d.items && k != "FORENAME" ensures ReadRule(d.items[k], vocab).Some? {
      OtherRulesReadable(c, vocab, k);
    }
    ForenameLineReadable(c, vocab);
  }

  /** A single gender variant is asked for exactly when at most one of the
      three gender flags is set. */
  lemma OneEndingIffOneFlag(c: Config)
    ensures |GenderEndings(c, false)| == 1 <==>
      (if c.genderMale then 1 else 0) + (if c.genderFemale then 1 else 0) + (if c.genderNeutral then 1 else 0) <= 1
  {
  }

  /** The names a rule mentions, in order, as symbols. */
  function NameSyms(vs: seq<Item>): seq<Sym>
  {
    if vs == [] then []
    else (if vs[0].Nonterminal? then [N(vs[0].name)] else []) + NameSyms(vs[1..])
  }

  /** A rule of names only reads as one alternative of those names. */
  lemma {:induction false} NamesRead(vs: seq<Item>, vocab: Vocabulary)
    requires forall i :: 0 <= i < |vs| ==> vs[i].Nonterminal?
    ensures ReadTokens(vs, vocab).Some?
    ensures Split(ReadTokens(vs, vocab).value) == [NameSyms(vs)]
    decreases |vs|
  {
    if vs != [] {
      NamesRead(vs[1..], vocab);
      var rest := Split(ReadTokens(vs[1..], vocab).value);
      assert ReadTokens(vs, vocab).value == [Word(vs[0].name)] + ReadTokens(vs[1..], vocab).value;
      assert ([Word(vs[0].name)] + ReadTokens(vs[1..], vocab).value)[1..] == ReadTokens(vs[1..], vocab).value;
      assert vs[0].Nonterminal?;
    } else {
      assert ReadTokens(vs, vocab) == Some([]);
      assert Split([]) == [[]];
    }
  }

  /** `S -> PRE CORE POST` reads as its one alternative. */
  lemma StartRuleReads(vocab: Vocabulary)
    ensures ReadRule(StartRule, vocab) == Some([[N("PRE"), N("CORE"), N("POST")]])
  {
    NamesRead(StartRule, vocab);
    assert NameSyms(StartRule[2..]) == [N("POST")] by {
      assert StartRule[2..][1..] == [];
    }
    assert NameSyms(StartRule[1..]) == [N("CORE"), N("POST")] by {
      assert StartRule[1..][1..] == StartRule[2..];
    }
    assert NameSyms(StartRule) == [N("PRE"), N("CORE"), N("POST")];
    assert ReadRule(StartRule, vocab) == Some(Split(ReadTokens(StartRule, vocab).value));
  }

  /** A start rule that mentions an undefined `PRE` first fails on it. */
  lemma StartWithoutPrefixFails(g: Productions, rng: nat -> nat, fuel: nat)
    requires "S" in g && g["S"] == [[N("PRE"), N("CORE"), N("POST")]] && "PRE" !in g && fuel >= 2
    ensures Expand(g, "S", rng, 0, fuel) == Failure(EmptyProduction("PRE"))
  {
    var start := [N("PRE"), N("CORE"), N("POST")];
    UndefinedFails(g, "PRE", rng, 1, fuel - 1);
    assert ExpandSeq(g, start, rng, 1, fuel - 1) == Failure(EmptyProduction("PRE"));
    assert rng(0) % 1 == 0;
  }

  /** Without a position the rules read, but `PRE` is not among them. */
  lemma NoPositionGrammar(c: Config, vocab: Vocabulary)
    requires !c.hasPosition && |GenderEndings(c, false)| == 1
    ensures BuiltRules(c).Valid()
    ensures ReadGrammar(BuiltRules(c), vocab).Success?
    ensures var g := ReadGrammar(BuiltRules(c), vocab).value;
      "S" in g && g["S"] == [[N("PRE"), N("CORE"), N("POST")]] && "PRE" !in g
  {
    var d := BuiltRules(c);
    BuiltReadableIff(c, vocab);
    ReadGrammarIff(d, vocab);
    BuiltRulesClosedIffPosition(c);
    PlainLookups(c);
    StartRuleReads(vocab);
  }

  /** Without a position the start rule still mentions `PRE`, which nothing
      defines: every readable configuration fails on the first draw. */
  lemma NoPositionFails(c: Config, vocab: Vocabulary, rng: nat -> nat, fuel: nat)
    requires !c.hasPosition && |GenderEndings(c, false)| == 1 && fuel >= 2
    ensures GenerateName(c, vocab, rng, fuel) == Failure(EmptyProduction("PRE"))
  {
    NoPositionGrammar(c, vocab);
    StartWithoutPrefixFails(ReadGrammar(BuiltRules(c), vocab).value, rng, fuel);
  }

  /** Several gender variants put a list of files on the `FORENAME` line,
      which the pattern does not replace and the reader rejects. */
  lemma ManyEndingsUnreadable(c: Config, vocab: Vocabulary, rng: nat -> nat, fuel: nat)
    requires |GenderEndings(c, false)| >= 2
    ensures GenerateName(c, vocab, rng, fuel) == Failure(Unreadable("FORENAME"))
  {
    BuiltReadableIff(c, vocab);
  }

  /** With a position and a single gender variant every random stream
      yields a name, for any vocabulary files whose lines hold no quote (a
      missing or all-comment file contributes an empty alternative). */
  lemma PositionSucceeds(c: Config, vocab: Vocabulary, rng: nat -> nat, fuel: nat)
    requires c.hasPosition && |GenderEndings(c, false)| == 1 && fuel >= 4
    requires QuoteFree(vocab)
    ensures GenerateName(c, vocab, rng, fuel).Success?
  {
    var d := BuiltRules(c);
    BuiltReadableIff(c, vocab);
    BuiltRulesRanked(c);
    ReadGrammarGrounded(d, vocab, Rank);
    ReadGrammarIff(d, vocab);
    var g := ReadGrammar(d, vocab).value;
    assert "S" in d.items;
    ExpandTotal(g, Rank, "S", rng, 0, fuel);
  }

  /** For vocabulary files whose lines hold no quote, the script yields a
      name exactly when the configuration has a position and asks for a
      single gender variant. */
  lemma GenerateNameIff(c: Config, vocab: Vocabulary, rng: nat -> nat, fuel: nat)
    requires fuel >= 4 && QuoteFree(vocab)
    ensures GenerateName(c, vocab, rng, fuel).Success? <==> c.hasPosition && |GenderEndings(c, false)| == 1
  {
    GenderEndingsShape(c, false);
    if |GenderEndings(c, false)| >= 2 {
      ManyEndingsUnreadable(c, vocab, rng, fuel);
    } else if !c.hasPosition {
      NoPositionFails(c, vocab, rng, fuel);
    } else {
      PositionSucceeds(c, vocab, rng, fuel);
    }
  }
}
