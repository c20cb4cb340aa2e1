# Name-generation grammar compiler, modelled in Dafny

`generate.py` builds a fictional character name in three stages:

1. **Grammar builder.** The class `Grammar` fills the rule dictionary `obj`, with help from `FileFetcher`. Each key is a nonterminal such as `S`, `PRE`, `CORE`, `FORENAME` or `NOUN`. Its value is a list of right-hand-side items: a symbol string, `None` (an empty alternative), a bracketed vocabulary reference `['nouns/air.txt']`, or a Python list of file paths. `define_grammar` calls the builder methods in a fixed order for a configuration (gender flags, position flag, name order, origin, name bank). `write` turns the dictionary into grammar text, one `KEY -> items` line per key, in insertion order.
2. **Vocabulary resolver.** `resolve_grammar` replaces every bracketed reference with `file_contents` of that file. `file_contents` drops lines containing `#` and writes the other lines as a quoted alternation. A missing file gives the empty string.
3. **Derivation.** The resolved text is read as a context-free grammar. `produce` expands the start symbol top-down: it picks one production per nonterminal and concatenates the terminals in order.

The project is organised as follows:

| file | module | contents |
|---|---|---|
| `wrappers.dfy` | `Wrappers` | `Option` and `Result` |
| `config.dfy` | `NameConfig` | the `Name` configuration, its enums and their spellings |
| `file_fetcher.dfy` | `FileFetcher` | gender endings and gender-variant file paths |
| `grammar.dfy` | `GrammarBuilder` | items, the insertion-ordered dictionary, serialisation |
| `grammar.dfy` | `GrammarRules` | each rule's shape; `BuiltRules`, the dictionary `define_grammar` builds |
| `builder.dfy` | `Builder` | class `Grammar`, whose methods update `obj` in place, and `DefineGrammar` |
| `resolve.dfy` | `Resolver` | `file_contents`, the substitution, and the reading of the text into productions |
| `derivation.dfy` | `Derivation` | `produce`, derivation trees, termination on grounded grammars |
| `pipeline.dfy` | `Pipeline` | the script's path from a configuration to a name, and when it succeeds |

Modelling choices:

- The Python dictionary is a value `Dict(keys, items)`. `keys` records first-assignment order. `Set` is `d[k] = v`: an existing key keeps its place and a new key goes last.
- `Grammar` is a class. Its field `obj` is reassigned by every method, and each method's `ensures` gives the new dictionary as a chain of `Set`s on the old one. This states exactly which keys change and that nothing else does.
- A vocabulary file is `Option<seq<string>>`: its lines without line breaks, or `None` when it does not exist. All files together form a map from path to lines.
- `random.choice` draws from an injected stream `rng: nat -> nat`. The n-th draw picks production `rng(n) % k` of k. The interpreter's recursion limit is a `fuel` bound.
- The nltk grammar reader is modelled by the token-level reading that matters for these grammars:
  - `|` separates alternatives;
  - a quoted string is a terminal and a bare name is a nonterminal (`Resolver.Lex` tokenises resolved text this way);
  - an empty right-hand side is one empty alternative;
  - text in brackets that was not replaced is rejected.

Headline results:

- `Pipeline.GenerateNameIff`: once the recursion limit is at least 4, the script produces a name for every random stream and every vocabulary whose lines contain no quote exactly when the configuration has a position and asks for a single gender variant. The model reads vocabulary lines verbatim; a line with a quote is outside what it captures (see Left out).
- With two or more gender variants, the `FORENAME` line holds a list of files. The substitution does not match a list, and the reader rejects the line, so the run fails first with `Unreadable("FORENAME")` (`Pipeline.ManyEndingsUnreadable`).
- Without a position and with a single gender variant, `S` refers to `PRE`, which nothing defines, so every run fails with `EmptyProduction("PRE")` (`Pipeline.NoPositionFails`).
- A missing or empty vocabulary file reads as one empty alternative, so derivation succeeds and that part of the name comes out empty (`Resolver.ReferenceReads`).
- Several gender variants are stored as one Python list, which `write` renders as `['a', 'b']` and the substitution does not match (`Pipeline.BuiltReadableIff`).

## Model

| member | source | states |
|---|---|---|
| `FileFetcher.GenderEndingsShape` | generate.py:48-59 | the endings are non-empty, drawn from `"male"`, `"female"`, `""` in that order and without repeats; `""` is present iff the neutral flag, `always_neutral`, or no flag at all; no flags give exactly `[""]` |
| `FileFetcher.GetGenderEndings` | generate.py:48-59 | the appending method returns the endings `GenderEndings` characterises |
| `FileFetcher.GenderEndingsDistinct` | generate.py:48-59 | no ending occurs twice |
| `FileFetcher.VariantPaths` | generate.py:64-66 | one path per ending, in the order of the endings, each `base{-g}.txt` |
| `FileFetcher.VariantRoundTrip` | generate.py:65-66 | a variant path can be read back to its ending, and only the path built from that ending reads back to it |
| `FileFetcher.VariantPathInjective` | generate.py:65-66 | different endings give different files |
| `FileFetcher.VariantPathsDistinct` | generate.py:61-68 | the paths of distinct endings are distinct, and each reads back to its own ending |
| `FileFetcher.GetPositionFiles` | generate.py:61-68 | `prefixes/positions{-g}.txt` for each ending in order, no two alike |
| `GrammarBuilder.SinglePathListRendersAsRef` | generate.py:165-169 | a list of one path is written exactly like a single bracketed reference |
| `GrammarBuilder.SetKeepsOrder` | generate.py:163 | assignment keeps the dictionary well formed; a reassigned key keeps its place and a new key goes last |
| `GrammarBuilder.SetTwice` | generate.py:91-93 | assigning a key twice in a row is the same as assigning the second value |
| `GrammarBuilder.OneLinePerKey` | generate.py:160-170 | the text has exactly one line per key |
| `GrammarRules.CoreShapeOrder` | generate.py:106-117 | Western is forename, space, surname; Eastern is surname, space, forename; both single-part orders, `Surname_Only` included, give the forename alone; any other order falls back to Western; `SURNAME` appears iff the order is Western, Eastern or unrecognised |
| `GrammarRules.BuiltKeys` | generate.py:186-196 | the keys `define_grammar` assigns, in order, each once; the `PRE`, `TITLE`, `POST` and `WHERE` keys appear iff `has_position` |
| `GrammarRules.BuiltReferences` | generate.py:186-196 | every nonterminal a built rule mentions is defined, except `PRE` and `POST` without a position |
| `GrammarRules.BuiltRulesClosedIffPosition` | generate.py:186-196 | the built rules define every nonterminal they mention iff `has_position` |
| `Builder.Grammar.constructor` | generate.py:71-75 | an empty dictionary rooted at `S` |
| `Builder.Grammar.Initialize` | generate.py:77-80 | sets `S = PRE CORE POST`, then `SPC` and `OF`, and nothing else |
| `Builder.Grammar.BasicTokens` | generate.py:82-84 | sets `SPC = ' '` and `OF = 'o' 'f'`, and nothing else |
| `Builder.Grammar.DefinePosition` | generate.py:86-104 | sets `PRE = TITLE SPC`, `TITLE` to one reference per position file, `POST = SPC OF SPC WHERE` and `WHERE` to the origin's postfix file; `PRE` and `POST` end in an empty alternative iff `optional` |
| `Builder.Grammar.SetNameOrder` | generate.py:106-117 | only `CORE` changes, to the order's shape |
| `Builder.Grammar.GetNamesFromBank` | generate.py:120-130 | only the name type's key changes, to ONE item that lists the bank's file for each gender ending |
| `Builder.Grammar.ConstructName` | generate.py:132-139 | sets the name type to `ADJ NOUN`, then `ADJ` and `NOUN`, and nothing else |
| `Builder.Grammar.BuildAdjBank` | generate.py:141-148 | only `ADJ` changes, to the origin's adjective file |
| `Builder.Grammar.BuildNounBank` | generate.py:150-156 | only `NOUN` changes, to the origin's noun file |
| `Builder.Grammar.Write` | generate.py:160-170 | the text is one `key -> ` line per key in insertion order, each item followed by a space and `None` written as ` \| ` |
| `Builder.BuildOrder` | generate.py:188-194 | assigning the rules in `define_grammar`'s order yields `BuiltRules` |
| `Builder.DefineGrammar` | generate.py:186-196 | the text written is the serialisation of `BuiltRules` for the configuration, which is a well-formed dictionary |
| `Resolver.FileContents` | generate.py:199-213 | a missing file gives `""`; otherwise each line without `#` is written as ` '{t}' `, preceded by `\|` iff its index in the file is above 0 |
| `Resolver.FileContentsStep` | generate.py:204-209 | what one line appends to the accumulated text |
| `Resolver.KeptFromLines` | generate.py:207 | the lines kept are exactly the lines of the file that contain no `#`, and there are no more of them than the file has |
| `Resolver.KeptConcat` | generate.py:204-209 | filtering keeps file order: the kept lines of two consecutive pieces of a file are those of the first followed by those of the second |
| `Resolver.FileTokensAsWritten` | generate.py:204-209 | as written, the output is the intended alternation of the kept lines, with one extra leading `\|` iff the file opens with a comment and keeps a later line |
| `Resolver.KeptTokensAlternation` | generate.py:204-209 | separators counted among kept lines make every kept line exactly one alternative, in file order; a file that keeps nothing gives one empty alternative |
| `Resolver.LeadingCommentAddsEmptyAlternative` | generate.py:207-209 | as written, a file opening with a comment gains an empty alternative ahead of its lines |
| `Resolver.CommentThenName` | generate.py:204-209 | as written, a file of one comment line and then one name reads as an empty alternative followed by the name |
| `Resolver.CommentedNameFile` | generate.py:207-209 | the file `# dwarf names` / `Thrain` reads as the alternatives `[]` and `['Thrain']` |
| `Resolver.RefPathIsBracketed` | generate.py:215 | the pattern captures a path only from an item written as `['p']` with `p` made of path characters; a list matches iff it holds one path made of path characters |
| `Resolver.PathListNeverMatches` | generate.py:215 | the text of a list of two or more paths, taken between `['` and `']`, is never made of path characters, so the pattern cannot capture it |
| `Resolver.ResolveLinesUnchanged` | generate.py:215 | text without matching references comes out of the substitution exactly as `write` produced it |
| `Resolver.ResolveGrammar` | generate.py:198-216 | a text with no matching reference comes back exactly as `write` produced it; where references match, each line's resolved right-hand side is tied to the reading by `LexResolvedItems` |
| `Resolver.LexRender` | generate.py:204-209 | text written for separators, quote-free lines and bare names tokenises back to exactly those tokens |
| `Resolver.RenderToksInjective` | generate.py:204-209 | different sequences of separators, quote-free lines and bare names are written as different text |
| `Resolver.ReplacedTextIsRead` | generate.py:198-216 | for a file whose lines contain no quote, tokenising the text inserted in place of a reference gives exactly the tokens the model reads for that item |
| `Resolver.LexItem` | generate.py:215-219 | the resolved text of one item, followed by its space, tokenises as that item's tokens: a replaced reference as its file's tokens, a name as a nonterminal, a quote-free string as a terminal, ` \| ` as a separator, and an unreplaced bracketed list is rejected |
| `Resolver.LexResolvedItems` | generate.py:198-219 | for quote-free vocabulary files, tokenising the resolved right-hand side of a line gives exactly the tokens the model reads for that line's items, and fails exactly when that reading fails |
| `Resolver.ResolvedRulesRead` | generate.py:198-219 | the same for every line of a dictionary whose names are single words and whose terminals hold no quote |
| `Resolver.ReferenceReads` | generate.py:199-215 | a reference reads as one alternative per kept line of its file, in order, preceded by an empty alternative when the file opens with a comment and keeps a later line; a missing file or one that keeps nothing reads as one empty alternative |
| `Resolver.Split` | generate.py:219 | every right-hand side reads as at least one alternative |
| `Resolver.SplitBar` | generate.py:219 | a `\|` splits a right-hand side into the alternatives on either side |
| `Resolver.AlternationReads` | generate.py:204-209 | comment-free lines written by `file_contents` read as one single-terminal alternative per line |
| `Resolver.SplitSymbols` | generate.py:219 | every nonterminal of every alternative comes from a bare name in the text |
| `Resolver.ReadTokensIff` | generate.py:219 | a right-hand side is readable iff every item is, and the only nonterminals it yields are the names its items mention |
| `Resolver.ReadLinesIff` | generate.py:219 | reading succeeds iff every line is readable; it then defines exactly the keys, each with its own line's alternatives; otherwise it names an unreadable line |
| `Resolver.ReadGrammarIff` | generate.py:219 | the same, for the text of a dictionary |
| `Resolver.ReadGrammarGrounded` | generate.py:219-224 | a readable dictionary whose mentioned nonterminals are defined and rank lower reads as a grounded grammar |
| `Derivation.Produce` | generate.py:228-237 | the recursive method returns what the expansion function `Expand` defines, failures included |
| `Derivation.ExpandIsDerivation` | generate.py:228-237 | a produced word list is the yield of a derivation tree: terminals only, in right-hand-side order, one production chosen and one draw used per expanded nonterminal |
| `Derivation.ExpandTotal` | generate.py:228-237 | on a grounded grammar, expansion succeeds for every random stream once the limit exceeds the symbol's rank |
| `Derivation.UndefinedFails` | generate.py:230-231 | a nonterminal without productions fails with `EmptyProduction`, never with an empty result |
| `Pipeline.Join` | generate.py:225 | the words are concatenated with nothing between them; the result is empty iff every word is |
| `Pipeline.JoinConcat` | generate.py:225 | joining two runs of words is joining each and concatenating |
| `Pipeline.GenerateName` | generate.py:218-226 | a name is the joined yield of a derivation of `S` in the grammar read from the resolved text; when the text is unreadable the run fails with `Unreadable` naming one of the keys |
| `Pipeline.OneEndingIffOneFlag` | generate.py:48-59 | a single gender variant is asked for iff at most one gender flag is set |
| `Pipeline.ForenameReadable` | generate.py:120-130 | the forename list is replaced iff it holds a single file |
| `Pipeline.BuiltRulesRanked` | generate.py:77-156 | with a position, every nonterminal mentioned is defined and ranks below the rule mentioning it |
| `Pipeline.StartRuleReads` | generate.py:78 | `S -> PRE CORE POST` reads as its single alternative |
| `Pipeline.BuiltReadableIff` | generate.py:215-219 | the resolved text is readable iff there is a single gender variant; otherwise the `FORENAME` line is the one rejected |
| `Pipeline.NoPositionFails` | generate.py:186-192 | without a position and with a single gender variant, every run fails with `EmptyProduction("PRE")` |
| `Pipeline.ManyEndingsUnreadable` | generate.py:120-130 | two or more gender variants make the `FORENAME` line unreadable |
| `Pipeline.BuiltTextReads` | generate.py:186-219 | for quote-free vocabulary files, every line of the text `resolve_grammar` returns for the built rules tokenises exactly as the model reads that line |
| `Pipeline.PositionSucceeds` | generate.py:218-237 | with a position and a single gender variant, every random stream yields a name, for every vocabulary whose lines contain no quote |
| `Pipeline.GenerateNameIff` | generate.py:186-237 | with a limit of at least 4 and vocabulary lines without quotes, a name is produced iff the configuration has a position and asks for a single gender variant |

## Left out

- File I/O is not modelled. Vocabulary files are an input map from path to lines. The grammar file that `write` saves (generate.py:174-177) is not modelled, nor is `string_repr` and the `__str__` that reads it. `write` and `define_grammar` return that file's name (generate.py:178, 196) and the script reads the file back (generate.py:248); `Builder.Grammar.Write` and `Builder.DefineGrammar` return the text itself.
- The `print` diagnostics (generate.py:57, 116, 211) and the module-level script (generate.py:240-253) are not modelled. The script's configuration is one value of `Config`.
- `str.title()` (generate.py:226) is Unicode case mapping, so `Pipeline.GenerateName` returns the joined words before title-casing.
- `random.choice` is an injected draw stream. Only the choice made is modelled, not its distribution.
- The recursion limit of the interpreter is the `fuel` bound.
- `Resolver.Split`: nltk's `CFG.fromstring` (generate.py:219) is modelled as a token-level reading. Vocabulary lines are taken as terminals verbatim; lines containing quotes or backslashes, which the real reader mis-reads or rejects, are not modelled.
- `Resolver.ResolveGrammar`: the cutting of the resolved text into lines at line breaks and at ` -> ` is not modelled. Its own contract covers only text without matching references; for the rest, the reading is linked to the resolved text one right-hand side at a time (`Resolver.LexResolvedItems`, `Pipeline.BuiltTextReads`).
- `Resolver.RefPath`: the substitution `re.sub` is modelled item by item. An item's text is replaced iff the whole item is a bracketed reference to a path of pattern characters. Matches inside other text (a nonterminal named like a reference, say) are not modelled; the builder never produces such text.
- `Resolver.ResolveItem`, `Resolver.ItemToks` and so the whole pipeline read vocabulary files as `file_contents` writes them, separator defect included (see Findings). The corrected separator is proved about separately and not used by the pipeline.
- A trailing carriage return on a vocabulary line is not modelled. Lines are given without their line breaks.

## Findings

| source | as written | input that shows it | evidently intended | confidence | as-written member | corrected member |
|---|---|---|---|---|---|---|
| generate.py:204-209 | the `\|` before a kept line is chosen by the line's index in the whole file, which counts dropped comment lines | the file with lines `# dwarf names` and `Thrain` gives ` \| 'Thrain' `, read as the alternatives `[]` and `['Thrain']`, so the name part can come out empty | a separator only between kept lines, so each kept line is exactly one alternative | medium, not executed | `Resolver.CommentedNameFile` | `Resolver.KeptTokensAlternation` |

The pipeline (`Resolver.FileTokensOf`, and through it `Pipeline.GenerateName`) reads vocabulary files as written, so a file headed by a comment contributes an extra empty alternative (`Resolver.ReferenceReads`). The headline results hold either way, because an empty alternative still derives.
