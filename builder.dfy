/**
 * The class `Grammar` of `generate.py`, whose methods assign entries of its
 * rule dictionary `obj` in place, and the driver `define_grammar`.
 */
module Builder {
  import opened NameConfig
  import opened FileFetcher
  import opened GrammarBuilder
  import opened GrammarRules

  class Grammar {
    const config: Config
    const root: string
    var obj: Dict

    ghost predicate Valid()
      reads this
    {
      obj.Valid()
    }

    /** `Grammar(config)`: an empty dictionary rooted at `S`. */
    constructor (c: Config)
      ensures Valid()
      ensures config == c && root == "S" && obj == EmptyDict
    {
      config := c;
      root := "S";
      obj := EmptyDict;
    }

    /** `self.obj[k] = v`. */
    method Put(k: string, v: seq<Item>)
      requires Valid()
      modifies this
      ensures Valid()
      ensures obj == old(obj).Set(k, v)
    {
      SetKeepsOrder(obj, k, v);
      obj := obj.Set(k, v);
    }

    /** `initialize`: the start rule, then the space and "of" tokens. */
    method Initialize()
      requires Valid()
      modifies this
      ensures Valid()
      ensures obj == old(obj).Set(root, StartRule).Set("SPC", SpaceRule).Set("OF", OfRule)
    {
      Put(root, StartRule);
      BasicTokens();
    }

    /** `basic_tokens`. */
    method BasicTokens()
      requires Valid()
      modifies this
      ensures Valid()
      ensures obj == old(obj).Set("SPC", SpaceRule).Set("OF", OfRule)
    {
      Put("SPC", [Terminal(" ")]);
      Put("OF", [Terminal("o"), Terminal("f")]);
    }

    /** `define_position`: the title prefix and the "of {origin}" postfix. */
    method DefinePosition(c: Config, optional: bool)
      requires Valid()
      modifies this
      ensures Valid()
      ensures obj == old(obj).Set("PRE", PrefixRule(optional)).Set("TITLE", TitleRule(c))
                             .Set("POST", PostfixRule(optional)).Set("WHERE", WhereRule(c.origin))
    {
      ghost var d0 := obj;
      assert PrefixRule(false) == [Nonterminal("TITLE"), Nonterminal("SPC")];
      assert PostfixRule(false) == [Nonterminal("SPC"), Nonterminal("OF"), Nonterminal("SPC"), Nonterminal("WHERE")];
      var positions := GetPositionFiles(c);
      var titles := RefItems(positions);
      Put("PRE", [Nonterminal("TITLE"), Nonterminal("SPC")]);
      if optional {
        ghost var d := obj;
        Put("PRE", obj.items["PRE"] + [Empty]);
        assert obj == d.Set("PRE", PrefixRule(true));
        SetTwice(d0, "PRE", [Nonterminal("TITLE"), Nonterminal("SPC")], PrefixRule(true));
      }
      assert obj == d0.Set("PRE", PrefixRule(optional));
      Put("TITLE", titles);
      ghost var d1 := obj;
      var origin := OriginName(c.origin);
      Put("POST", [Nonterminal("SPC"), Nonterminal("OF"), Nonterminal("SPC"), Nonterminal("WHERE")]);
      if optional {
        Put("POST", obj.items["POST"] + [Empty]);
        SetTwice(d1, "POST", [Nonterminal("SPC"), Nonterminal("OF"), Nonterminal("SPC"), Nonterminal("WHERE")], PostfixRule(true));
      }
      assert obj == d1.Set("POST", PostfixRule(optional));
      Put("WHERE", [VocabRef("postfixes/" + origin + ".txt")]);
    }

    /** `setNameOrder`: only the `CORE` entry changes. */
    method SetNameOrder(order: NameOrder)
      requires Valid()
      modifies this
      ensures Valid()
      ensures obj == old(obj).Set("CORE", CoreShape(order))
      decreases if order.Unrecognized? then 1 else 0
    {
      if order == Western {
        Put("CORE", [Nonterminal("FORENAME"), Nonterminal("SPC"), Nonterminal("SURNAME")]);
      } else if order == Eastern {
        Put("CORE", [Nonterminal("SURNAME"), Nonterminal("SPC"), Nonterminal("FORENAME")]);
      } else if order == ForenameOnly {
        Put("CORE", [Nonterminal("FORENAME")]);
      } else if order == SurnameOnly {
        Put("CORE", [Nonterminal("FORENAME")]);
      } else {
        SetNameOrder(Western);
      }
    }

    /** `getNamesFromBank`: the key of the name type holds ONE item, the list
        of the bank's file for every gender ending. */
    method GetNamesFromBank(c: Config, nameType: NameType)
      requires Valid()
      modifies this
      ensures Valid()
      ensures obj == old(obj).Set(TypeKey(nameType), BankRule(nameType, c))
    {
      var ges := GetGenderEndings(c, false);
      var bank := BankName(c.nameBank);
      var key := TypeKey(nameType);
      var pt: seq<string> := [];
      for k := 0 to |ges|
        invariant |pt| == k
        invariant forall i :: 0 <= i < k ==> pt[i] == VariantPath(TypeLower(nameType) + "s/" + bank, ges[i])
      {
        var g := ges[k];
        g := if g != "" then "-" + g else g;
        pt := pt + [TypeLower(nameType) + "s/" + bank + g + ".txt"];
      }
      assert pt == VariantPaths(BankBase(nameType, c.nameBank), ges);
      Put(key, [PathList(pt)]);
    }

    /** `constructName`: the name type becomes adjective then noun. */
    method ConstructName(c: Config, nameType: NameType)
      requires Valid()
      modifies this
      ensures Valid()
      ensures obj == old(obj).Set(TypeKey(nameType), CompoundRule)
                             .Set("ADJ", AdjRule(c.origin)).Set("NOUN", NounRule(c.origin))
    {
      Put(TypeKey(nameType), [Nonterminal("ADJ"), Nonterminal("NOUN")]);
      BuildAdjBank(c);
      BuildNounBank(c);
    }

    /** `buildAdjBank`. */
    method BuildAdjBank(c: Config)
      requires Valid()
      modifies this
      ensures Valid()
      ensures obj == old(obj).Set("ADJ", AdjRule(c.origin))
    {
      var origin := OriginName(c.origin);
      var pt := [VocabRef("adjectives/" + origin + ".txt")];
      Put("ADJ", pt);
    }

    /** `buildNounBank`. */
    method BuildNounBank(c: Config)
      requires Valid()
      modifies this
      ensures Valid()
      ensures obj == old(obj).Set("NOUN", NounRule(c.origin))
    {
      var origin := OriginName(c.origin);
      var pt := [VocabRef("nouns/" + origin + ".txt")];
      Put("NOUN", pt);
    }

    /** `write`: the grammar text, one `key -> items` line per key in
        insertion order (the file it is saved to is not modelled). */
    method Write() returns (s: string)
      requires Valid()
      ensures s == Serialise(obj)
    {
      s := "";
      var keys := obj.keys;
      assert forall k :: k in keys ==> k in obj.items;
      for i := 0 to |keys|
        invariant s == Lines(keys[..i], obj.items)
      {
        var key := keys[i];
        var value := obj.items[key];
        var rendered := "";
        for j := 0 to |value|
          invariant rendered == RenderItems(value[..j])
        {
          var v := value[j];
          var text := if v.Empty? then " | " else Render(v);
          RenderItemsSnoc(value, j);
          rendered := rendered + text + " ";
        }
        assert value[..|value|] == value;
        var line := key + " -> " + rendered + "\n";
        LinesSnoc(keys, obj.items, i);
        s := s + line;
      }
      assert keys[..|keys|] == keys;
    }
  }

  /** `define_grammar`: builds the rules for a configuration and writes
      them out. The source returns the name of the file `write` saved the
      text to, and the script reads that file back; the model returns the
      text itself. */
  method DefineGrammar(c: Config) returns (text: string)
    ensures BuiltRules(c).Valid()
    ensures text == Serialise(BuiltRules(c))
  {
    var grammar := new Grammar(c);
    grammar.Initialize();
    assert grammar.obj == InitialDict;
    if c.hasPosition {
      grammar.DefinePosition(c, false);
      assert grammar.obj == PositionDict(c);
    }
    grammar.SetNameOrder(c.order);
    grammar.GetNamesFromBank(c, Forename);
    grammar.ConstructName(c, Surname);
    assert grammar.obj == NameDict(c, if c.hasPosition then PositionDict(c) else InitialDict);
    BuildOrder(c);
    text := grammar.Write();
  }

  const InitialDict := EmptyDict.Set("S", StartRule).Set("SPC", SpaceRule).Set("OF", OfRule)

  function PositionDict(c: Config): Dict
  {
    InitialDict.Set("PRE", PrefixRule(false)).Set("TITLE", TitleRule(c))
      .Set("POST", PostfixRule(false)).Set("WHERE", WhereRule(c.origin))
  }

  function NameDict(c: Config, d: Dict): Dict
  {
    d.Set("CORE", CoreShape(c.order)).Set("FORENAME", BankRule(Forename, c))
      .Set("SURNAME", CompoundRule).Set("ADJ", AdjRule(c.origin)).Set("NOUN", NounRule(c.origin))
  }

  lemma InitialDictIs()
    ensures InitialDict == Dict(["S", "SPC", "OF"], map["S" := StartRule, "SPC" := SpaceRule, "OF" := OfRule])
  {
    var d1 := EmptyDict.Set("S", StartRule);
    assert d1 == Dict(["S"], map["S" := StartRule]);
    var d2 := d1.Set("SPC", SpaceRule);
    assert "SPC" !in d1.items;
    assert d2 == Dict(["S", "SPC"], map["S" := StartRule, "SPC" := SpaceRule]);
    assert "OF" !in d2.items;
  }

  lemma PositionDictIs(c: Config)
    ensures PositionDict(c) == Dict(["S", "SPC", "OF"] + ["PRE", "TITLE", "POST", "WHERE"],
      map["S" := StartRule, "SPC" := SpaceRule, "OF" := OfRule]
        ["PRE" := PrefixRule(false)]["TITLE" := TitleRule(c)]
        ["POST" := PostfixRule(false)]["WHERE" := WhereRule(c.origin)])
  {
    InitialDictIs();
    var d3 := InitialDict.Set("PRE", PrefixRule(false));
    assert "PRE" !in InitialDict.items;
    var d4 := d3.Set("TITLE", TitleRule(c));
    assert "TITLE" !in d3.items;
    var d5 := d4.Set("POST", PostfixRule(false));
    assert "POST" !in d4.items;
    assert "WHERE" !in d5.items;
    assert ["S", "SPC", "OF"] + ["PRE"] + ["TITLE"] + ["POST"] + ["WHERE"]
        == ["S", "SPC", "OF"] + ["PRE", "TITLE", "POST", "WHERE"];
  }

  lemma NameDictKeys(c: Config, d: Dict)
    requires "CORE" !in d.items && "FORENAME" !in d.items && "SURNAME" !in d.items
    requires "ADJ" !in d.items && "NOUN" !in d.items
    ensures NameDict(c, d).keys == d.keys + ["CORE", "FORENAME", "SURNAME", "ADJ", "NOUN"]
    ensures NameDict(c, d).items == d.items["CORE" := CoreShape(c.order)]["FORENAME" := BankRule(Forename, c)]
      ["SURNAME" := CompoundRule]["ADJ" := AdjRule(c.origin)]["NOUN" := NounRule(c.origin)]
  {
    var e1 := d.Set("CORE", CoreShape(c.order));
    var e2 := e1.Set("FORENAME", BankRule(Forename, c));
    assert "FORENAME" !in e1.items;
    var e3 := e2.Set("SURNAME", CompoundRule);
    assert "SURNAME" !in e2.items;
    var e4 := e3.Set("ADJ", AdjRule(c.origin));
    assert "ADJ" !in e3.items;
    assert "NOUN" !in e4.items;
  }

  lemma BuildOrderPosition(c: Config)
    requires c.hasPosition
    ensures NameDict(c, PositionDict(c)) == BuiltRules(c)
  {
    PositionDictIs(c);
    NameDictKeys(c, PositionDict(c));
  }

  lemma BuildOrderPlain(c: Config)
    requires !c.hasPosition
    ensures NameDict(c, InitialDict) == BuiltRules(c)
  {
    InitialDictIs();
    NameDictKeys(c, InitialDict);
  }

  /** Assigning the entries in `define_grammar`'s order yields `BuiltRules`. */
  lemma BuildOrder(c: Config)
    ensures NameDict(c, if c.hasPosition then PositionDict(c) else InitialDict) == BuiltRules(c)
  {
    if c.hasPosition {
      BuildOrderPosition(c);
    } else {
      BuildOrderPlain(c);
    }
  }
}
