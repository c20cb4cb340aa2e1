/**
 * `resolve_grammar` and its helper `file_contents` of `generate.py`, and the
 * reading of the resolved grammar text into productions.
 *
 * Vocabulary files are given as a map from a path (relative to the
 * `name-segments` directory) to the file's lines, without their line
 * breaks; a path that is not in the map is a file that does not exist.
 */
module Resolver {
  import opened Wrappers
  import opened GrammarBuilder
  import opened Derivation

  /** The tokens a right-hand side of grammar text is made of: a bare
      nonterminal name, a quoted terminal, or the `|` between alternatives. */
  datatype Tok = Word(name: string) | Quoted(text: string) | Bar

  /** The text `file_contents` emits for a token. */
  function RenderTok(t: Tok): string
  {
    match t
    case Word(n) => n + " "
    case Quoted(x) => " '" + x + "' "
    case Bar => "|"
  }

  function RenderToks(ts: seq<Tok>): string
  {
    if ts == [] then "" else RenderTok(ts[0]) + RenderToks(ts[1..])
  }

  lemma {:induction false} RenderToksConcat(a: seq<Tok>, b: seq<Tok>)
    ensures RenderToks(a + b) == RenderToks(a) + RenderToks(b)
  {
    if a == [] {
      assert a + b == b;
    } else {
      assert (a + b)[0] == a[0] && (a + b)[1..] == a[1..] + b;
      RenderToksConcat(a[1..], b);
    }
  }

  /** The lines that survive comment filtering, in file order. */
  function Kept(lines: seq<string>): seq<string>
  {
    if lines == [] then []
    else
      var last := lines[|lines| - 1];
      Kept(lines[..|lines| - 1]) + (if '#' in last then [] else [last])
  }

  /** Filtering keeps exactly the lines of the file without a `#`, and
      never adds a line. */
  lemma {:induction false} KeptFromLines(lines: seq<string>)
    ensures |Kept(lines)| <= |lines|
    ensures forall t :: t in Kept(lines) ==> '#' !in t && t in lines
    ensures forall t :: t in lines && '#' !in t ==> t in Kept(lines)
    decreases |lines|
  {
    if lines != [] {
      var init, last := lines[..|lines| - 1], lines[|lines| - 1];
      KeptFromLines(init);
      assert lines == init + [last];
      assert forall t :: t in lines <==> t in init || t == last;
    }
  }

  /** Filtering keeps the file order: the kept lines of two pieces of a file
      are the kept lines of the first followed by those of the second. */
  lemma {:induction false} KeptConcat(a: seq<string>, b: seq<string>)
    ensures Kept(a + b) == Kept(a) + Kept(b)
    decreases |b|
  {
    if b == [] {
      assert a + b == a;
    } else {
      var init, last := b[..|b| - 1], b[|b| - 1];
      assert (a + b)[..|a + b| - 1] == a + init && (a + b)[|a + b| - 1] == last;
      KeptConcat(a, init);
    }
  }

  /** The tokens of line `i` as `file_contents` writes them: nothing for a
      comment, otherwise the quoted line preceded by `|` whenever `i > 0`. */
  function Entry(i: nat, t: string): seq<Tok>
  {
    if '#' in t then [] else (if i > 0 then [Bar] else []) + [Quoted(t)]
  }

  lemma RenderEntry(i: nat, t: string)
    requires '#' !in t
    ensures RenderToks(Entry(i, t)) == (if i > 0 then "|" else "") + (" '" + t + "' ")
  {
    var quoted := " '" + t + "' ";
    assert RenderToks([Quoted(t)]) == quoted + "";
    if i > 0 {
      assert Entry(i, t) == [Bar, Quoted(t)] && [Bar, Quoted(t)][1..] == [Quoted(t)];
    } else {
      assert Entry(i, t) == [Quoted(t)];
    }
  }

  /** The tokens of a whole file as `file_contents` writes it. */
  function FileTokens(lines: seq<string>): seq<Tok>
  {
    if lines == [] then []
    else FileTokens(lines[..|lines| - 1]) + Entry(|lines| - 1, lines[|lines| - 1])
  }

  lemma FileTokensSnoc(lines: seq<string>, i: nat)
    requires i < |lines|
    ensures FileTokens(lines[..i + 1]) == FileTokens(lines[..i]) + Entry(i, lines[i])
  {
    assert lines[..i + 1][..i] == lines[..i];
  }

  /** What one iteration of `file_contents` appends. */
  lemma FileContentsStep(lines: seq<string>, i: nat)
    requires i < |lines|
    ensures RenderToks(FileTokens(lines[..i + 1]))
         == RenderToks(FileTokens(lines[..i]))
            + (if '#' in lines[i] then "" else (if i > 0 then "|" else "") + (" '" + lines[i] + "' "))
  {
    FileTokensSnoc(lines, i);
    RenderToksConcat(FileTokens(lines[..i]), Entry(i, lines[i]));
    if '#' !in lines[i] {
      RenderEntry(i, lines[i]);
    } else {
      assert Entry(i, lines[i]) == [];
      assert RenderToks(FileTokens(lines[..i])) + "" == RenderToks(FileTokens(lines[..i]));
    }
  }

  /** `file_contents`: each line without `#` as ` '{t}' `, with a `|`
      before it whenever the line is not the first of the file; a missing
      file gives the empty string. */
  method FileContents(file: Option<seq<string>>) returns (s: string)
    ensures file.None? ==> s == ""
    ensures file.Some? ==> s == RenderToks(FileTokens(file.value))
  {
    match file {
      case None =>
        s := "";
      case Some(terms) =>
        s := "";
        assert terms[..0] == [];
        for i := 0 to |terms|
          invariant s == RenderToks(FileTokens(terms[..i]))
        {
          var t := terms[i];
          FileContentsStep(terms, i);
          if '#' !in t {
            var separator := if i > 0 then "|" else "";
            var quoted := " '" + t + "' ";
            s := s + (separator + quoted);
          }
        }
        assert terms[..|terms|] == terms;
    }
  }

  /** `Kept` keeps the first line of a file when it is not a comment. */
  lemma {:induction false} KeptFirst(lines: seq<string>)
    requires lines != [] && '#' !in lines[0]
    ensures Kept(lines) != [] && Kept(lines)[0] == lines[0]
    decreases |lines|
  {
    var init := lines[..|lines| - 1];
    if init == [] {
      assert lines == [lines[0]];
    } else {
      assert init[0] == lines[0];
      KeptFirst(init);
    }
  }

  /** The tokens `file_contents` was evidently meant to write: the kept
      lines, separated by `|`, counted among the kept lines only. */
  function KeptTokens(lines: seq<string>): seq<Tok>
  {
    FileTokens(Kept(lines))
  }

  /** The `|` that, as written, precedes the first kept line of a file
      that opens with a comment. */
  function Lead(lines: seq<string>): seq<Tok>
    requires lines != []
  {
    if '#' in lines[0] && Kept(lines) != [] then [Bar] else []
  }

  lemma KeptSnoc(init: seq<string>, last: string)
    ensures Kept(init + [last]) == Kept(init) + (if '#' in last then [] else [last])
  {
    assert (init + [last])[..|init|] == init;
  }

  lemma FileTokensSnocLine(init: seq<string>, last: string)
    ensures FileTokens(init + [last]) == FileTokens(init) + Entry(|init|, last)
  {
    var lines := init + [last];
    assert lines != [] && |lines| - 1 == |init|;
    assert lines[|lines| - 1] == last;
    assert lines[..|lines| - 1] == init;
  }

  /** A comment line appended to a file changes nothing. */
  lemma AsWrittenComment(init: seq<string>, last: string)
    requires init != [] && '#' in last
    requires FileTokens(init) == Lead(init) + KeptTokens(init)
    ensures FileTokens(init + [last]) == Lead(init + [last]) + KeptTokens(init + [last])
  {
    KeptSnoc(init, last);
    FileTokensSnocLine(init, last);
    assert (init + [last])[0] == init[0];
    assert Kept(init + [last]) == Kept(init);
    assert FileTokens(init + [last]) == FileTokens(init) + [];
  }

  /** A file that keeps nothing before a kept last line opens with a
      comment, so the last line is its only kept line and is led by `|`. */
  lemma LeadFirstKept(init: seq<string>, last: string)
    requires init != [] && '#' !in last && Kept(init) == []
    ensures Kept(init + [last]) == [last]
    ensures Lead(init + [last]) == [Bar]
  {
    if '#' !in init[0] {
      KeptFirst(init);
    }
    KeptSnoc(init, last);
    assert (init + [last])[0] == init[0];
  }

  lemma FileTokensSingle(t: string)
    requires '#' !in t
    ensures FileTokens([t]) == [Quoted(t)]
  {
    FileTokensSnocLine([], t);
    assert [] + [t] == [t];
    assert Entry(0, t) == [Quoted(t)];
  }

  /** The first kept line of a file that opens with comments. */
  lemma AsWrittenFirstKept(init: seq<string>, last: string)
    requires init != [] && '#' !in last && Kept(init) == []
    ensures FileTokens(init + [last]) == Lead(init + [last]) + KeptTokens(init + [last])
  {
    FileTokensSnocLine(init, last);
    FileTokensAsWrittenEmpty(init);
    assert Entry(|init|, last) == [Bar, Quoted(last)];
    LeadFirstKept(init, last);
    FileTokensSingle(last);
  }

  /** A file that keeps nothing writes nothing. */
  lemma {:induction false} FileTokensAsWrittenEmpty(lines: seq<string>)
    requires Kept(lines) == []
    ensures FileTokens(lines) == []
    decreases |lines|
  {
    if lines != [] {
      var init, last := lines[..|lines| - 1], lines[|lines| - 1];
      assert lines == init + [last];
      KeptSnoc(init, last);
      FileTokensSnocLine(init, last);
      FileTokensAsWrittenEmpty(init);
    }
  }

  /** A line without `#` appended to a non-empty file of such lines. */
  lemma FileTokensAppendKept(ks: seq<string>, last: string)
    requires ks != [] && '#' !in last
    ensures FileTokens(ks + [last]) == FileTokens(ks) + [Bar, Quoted(last)]
  {
    FileTokensSnocLine(ks, last);
  }

  lemma AppendAssoc(a: seq<Tok>, b: seq<Tok>, c: seq<Tok>)
    ensures (a + b) + c == a + (b + c)
  {
  }

  /** Appending a kept line to a file that already keeps one adds a
      separator and the line to the intended tokens. */
  lemma KeptTokensSnocKept(init: seq<string>, last: string)
    requires '#' !in last && Kept(init) != []
    ensures KeptTokens(init + [last]) == KeptTokens(init) + [Bar, Quoted(last)]
  {
    KeptSnoc(init, last);
    FileTokensAppendKept(Kept(init), last);
  }

  /** Appending a line does not change whether a file opens with a comment
      that precedes a kept line, once some line is kept. */
  lemma LeadSnoc(init: seq<string>, last: string)
    requires init != [] && Kept(init) != []
    ensures Lead(init + [last]) == Lead(init)
  {
    KeptSnoc(init, last);
    assert (init + [last])[0] == init[0];
  }

  /** A kept line after an earlier kept line. */
  lemma AsWrittenLaterKept(init: seq<string>, last: string)
    requires init != [] && '#' !in last && Kept(init) != []
    requires FileTokens(init) == Lead(init) + KeptTokens(init)
    ensures FileTokens(init + [last]) == Lead(init + [last]) + KeptTokens(init + [last])
  {
    var tail := [Bar, Quoted(last)];
    FileTokensSnocLine(init, last);
    assert Entry(|init|, last) == tail;
    KeptTokensSnocKept(init, last);
    LeadSnoc(init, last);
    AppendAssoc(Lead(init), KeptTokens(init), tail);
  }

  /** As written, the separator is chosen by the line's index in the file,
      not among the kept lines: the output differs from the intended one
      exactly by a leading `|` when the file opens with a comment and keeps
      some later line. */
  lemma {:induction false} FileTokensAsWritten(lines: seq<string>)
    requires lines != []
    ensures FileTokens(lines) == Lead(lines) + KeptTokens(lines)
    decreases |lines|
  {
    var init, last := lines[..|lines| - 1], lines[|lines| - 1];
    assert lines == init + [last];
    if init == [] {
      KeptSnoc(init, last);
      FileTokensSnocLine(init, last);
      assert Kept([]) == [] && FileTokens([]) == [];
      assert Entry(0, last) == if '#' in last then [] else [Quoted(last)];
    } else {
      FileTokensAsWritten(init);
      if '#' in last {
        AsWrittenComment(init, last);
      } else if Kept(init) == [] {
        AsWrittenFirstKept(init, last);
      } else {
        AsWrittenLaterKept(init, last);
      }
    }
  }

  /** The reading of grammar text: `|` separates alternatives, a quoted token
      is a terminal and a bare word a nonterminal. An empty right-hand side
      is one empty alternative. */
  function Split(ts: seq<Tok>): (alts: seq<seq<Sym>>)
    ensures |alts| >= 1
  {
    if ts == [] then [[]]
    else
      var rest := Split(ts[1..]);
      match ts[0]
      case Bar => [[]] + rest
      case Word(n) => [[N(n)] + rest[0]] + rest[1..]
      case Quoted(x) => [[T(x)] + rest[0]] + rest[1..]
  }

  lemma SplitQuoted(x: string)
    ensures Split([Quoted(x)]) == [[T(x)]]
  {
    assert [Quoted(x)][1..] == [];
    var rest := Split([]);
    assert rest == [[]];
    assert [T(x)] + rest[0] == [T(x)] && rest[1..] == [];
  }

  /** A `|` splits a right-hand side into the alternatives on either side. */
  lemma {:induction false} SplitBar(a: seq<Tok>, b: seq<Tok>)
    ensures Split(a + [Bar] + b) == Split(a) + Split(b)
  {
    if a == [] {
      assert a + [Bar] + b == [Bar] + b && ([Bar] + b)[1..] == b;
    } else {
      var a' := a[1..];
      assert (a + [Bar] + b)[0] == a[0];
      assert (a + [Bar] + b)[1..] == a' + [Bar] + b;
      SplitBar(a', b);
    }
  }

  /** Lines without `#`, written as `file_contents` writes them, read as one
      alternative per line holding just that line as a terminal. */
  lemma {:induction false} AlternationReads(ks: seq<string>)
    requires ks != []
    requires forall i :: 0 <= i < |ks| ==> '#' !in ks[i]
    ensures Split(FileTokens(ks)) == seq(|ks|, i requires 0 <= i < |ks| => [T(ks[i])])
    decreases |ks|
  {
    var init := ks[..|ks| - 1];
    var last := ks[|ks| - 1];
    assert ks == init + [last];
    assert '#' !in last;
    if init == [] {
      FileTokensSnocLine(init, last);
      assert Entry(0, last) == [Quoted(last)];
      assert FileTokens(ks) == [Quoted(last)];
      SplitQuoted(last);
    } else {
      AlternationReads(init);
      AlternationSnoc(ks, init, last);
    }
  }

  /** One more kept line adds one more alternative. */
  lemma AlternationSnoc(ks: seq<string>, init: seq<string>, last: string)
    requires ks == init + [last] && init != [] && '#' !in last
    requires Split(FileTokens(init)) == seq(|init|, i requires 0 <= i < |init| => [T(init[i])])
    ensures Split(FileTokens(ks)) == seq(|ks|, i requires 0 <= i < |ks| => [T(ks[i])])
  {
    TokensSnocKept(init, last);
    SplitSnocQuoted(FileTokens(init), last);
    AlternativesSnoc(ks, init, last);
  }

  lemma TokensSnocKept(init: seq<string>, last: string)
    requires init != [] && '#' !in last
    ensures FileTokens(init + [last]) == FileTokens(init) + [Bar] + [Quoted(last)]
  {
    FileTokensSnocLine(init, last);
    assert Entry(|init|, last) == [Bar] + [Quoted(last)];
    AppendAssoc(FileTokens(init), [Bar], [Quoted(last)]);
  }

  lemma SplitSnocQuoted(ts: seq<Tok>, last: string)
    ensures Split(ts + [Bar] + [Quoted(last)]) == Split(ts) + [[T(last)]]
  {
    SplitBar(ts, [Quoted(last)]);
    SplitQuoted(last);
  }

  lemma AlternativesSnoc(ks: seq<string>, init: seq<string>, last: string)
    requires ks == init + [last]
    ensures seq(|init|, i requires 0 <= i < |init| => [T(init[i])]) + [[T(last)]]
         == seq(|ks|, i requires 0 <= i < |ks| => [T(ks[i])])
  {
    var prev := seq(|init|, i requires 0 <= i < |init| => [T(init[i])]);
    var all := seq(|ks|, i requires 0 <= i < |ks| => [T(ks[i])]);
    forall i | 0 <= i < |ks| ensures (prev + [[T(last)]])[i] == all[i] {
      if i < |init| {
        assert ks[i] == init[i];
      }
    }
    assert |prev + [[T(last)]]| == |all|;
  }

  /** The evidently intended property: every kept line becomes exactly one
      alternative, in file order, and a file that keeps nothing contributes
      one empty alternative. */
  lemma KeptTokensAlternation(lines: seq<string>)
    ensures var ks := Kept(lines);
      Split(KeptTokens(lines)) == if ks == [] then [[]] else seq(|ks|, i requires 0 <= i < |ks| => [T(ks[i])])
  {
    var ks := Kept(lines);
    KeptFromLines(lines);
    if ks != [] {
      forall i | 0 <= i < |ks| ensures '#' !in ks[i] {
        assert ks[i] in ks;
      }
      AlternationReads(ks);
    }
  }

  /** As written, a file whose first line is a comment gains an empty
      alternative in front of its kept lines. */
  lemma LeadingCommentAddsEmptyAlternative(lines: seq<string>)
    requires lines != [] && '#' in lines[0] && Kept(lines) != []
    ensures Split(FileTokens(lines)) == [[]] + Split(KeptTokens(lines))
  {
    FileTokensAsWritten(lines);
    assert Lead(lines) == [Bar];
    assert ([Bar] + KeptTokens(lines))[1..] == KeptTokens(lines);
  }

  /** As written, a file of a comment line and then one name reads as an
      empty alternative followed by the name. */
  lemma CommentThenName(comment: string, name: string)
    requires '#' in comment && '#' !in name
    ensures Split(FileTokens([comment, name])) == [[], [T(name)]]
  {
    var lines := [comment, name];
    assert Kept(lines) == [name] by {
      KeptSnoc([], comment);
      KeptSnoc([comment], name);
      assert [] + [comment] == [comment] && [comment] + [name] == lines;
    }
    var ks := Kept(lines);
    LeadingCommentAddsEmptyAlternative(lines);
    KeptTokensAlternation(lines);
    assert seq(|ks|, i requires 0 <= i < |ks| => [T(ks[i])]) == [[T(name)]];
  }

  /** A concrete instance: a name file headed by a comment. */
  lemma CommentedNameFile()
    ensures Split(FileTokens(["# dwarf names", "Thrain"])) == [[], [T("Thrain")]]
  {
    assert "# dwarf names"[0] == '#';
    CommentThenName("# dwarf names", "Thrain");
  }

  /** The tokens a file contributes to the resolved text, as
      `file_contents` writes them; a missing file contributes nothing. */
  function FileTokensOf(file: Option<seq<string>>): seq<Tok>
  {
    match file
    case None => []
    case Some(lines) => FileTokens(lines)
  }

  /** The vocabulary files under `name-segments/`, by relative path. */
  type Vocabulary = map<string, seq<string>>

  function Lookup(vocab: Vocabulary, path: string): Option<seq<string>>
  {
    if path in vocab then Some(vocab[path]) else None
  }

  /** A character of the pattern's path class `[a-zA-Z\-./]`. */
  predicate PathChar(ch: char)
  {
    'a' <= ch <= 'z' || 'A' <= ch <= 'Z' || ch == '-' || ch == '.' || ch == '/'
  }

  predicate PathText(p: string)
  {
    forall i :: 0 <= i < |p| ==> PathChar(p[i])
  }

  /** The path the substitution pattern captures from an item's text, if it
      matches: a bracketed, quoted run of path characters. A list of two or
      more paths is written with `', '` between them and never matches. */
  function RefPath(it: Item): Option<string>
  {
    match it
    case VocabRef(p) => if PathText(p) then Some(p) else None
    case PathList(ps) => if |ps| == 1 && PathText(ps[0]) then Some(ps[0]) else None
    case _ => None
  }

  /** A captured path is the item's whole text between `['` and `']`. */
  lemma RefPathIsBracketed(it: Item)
    ensures RefPath(it).Some? ==> Render(it) == "['" + RefPath(it).value + "']" && PathText(RefPath(it).value)
    ensures it.VocabRef? ==> (RefPath(it).Some? <==> PathText(it.path))
    ensures it.PathList? ==> (RefPath(it).Some? <==> |it.paths| == 1 && PathText(it.paths[0]))
    ensures it.Nonterminal? || it.Terminal? || it.Empty? ==> RefPath(it).None?
  {
    if it.PathList? && |it.paths| == 1 {
      assert QuotedList(it.paths) == "'" + it.paths[0] + "'";
    }
  }

  /** Conversely, text written for a list of two or more paths has a quote
      right after the first path, so whatever sits between its outer `['`
      and `']` is not made of path characters: the pattern cannot match. */
  lemma PathListNeverMatches(ps: seq<string>, q: string)
    requires |ps| >= 2 && Render(PathList(ps)) == "['" + q + "']"
    ensures !PathText(q)
  {
    var p0 := ps[0];
    var r := Render(PathList(ps));
    assert r == "['" + p0 + "', " + QuotedList(ps[1..]) + "]";
    assert r[|p0| + 2] == '\'';
    assert |q| == |r| - 4 > |p0|;
    assert q[|p0|] == r[|p0| + 2];
    assert !PathChar(q[|p0|]);
  }

  /** The text of one item after `re.sub`: a matching reference is replaced
      by the file's contents, anything else is left as written. */
  function ResolveItem(it: Item, vocab: Vocabulary): string
  {
    match RefPath(it)
    case Some(p) => RenderToks(FileTokensOf(Lookup(vocab, p)))
    case None => Render(it)
  }

  function ResolveItems(vs: seq<Item>, vocab: Vocabulary): string
  {
    if vs == [] then ""
    else ResolveItems(vs[..|vs| - 1], vocab) + ResolveItem(vs[|vs| - 1], vocab) + " "
  }

  function ResolvedLine(k: string, vs: seq<Item>, vocab: Vocabulary): string
  {
    k + " -> " + ResolveItems(vs, vocab) + "\n"
  }

  function ResolveLines(ks: seq<string>, items: map<string, seq<Item>>, vocab: Vocabulary): string
    requires forall k :: k in ks ==> k in items
  {
    if ks == [] then ""
    else
      var k := ks[|ks| - 1];
      ResolveLines(ks[..|ks| - 1], items, vocab) + ResolvedLine(k, items[k], vocab)
  }

  /** `resolve_grammar` applied to the text `write` produces for `d`: each
      matching reference is replaced by its file's contents, and a text with
      no matching reference is returned exactly as written. */
  function ResolveGrammar(d: Dict, vocab: Vocabulary): (s: string)
    requires d.Valid()
    ensures (forall k, i :: k in d.items && 0 <= i < |d.items[k]| ==> RefPath(d.items[k][i]).None?) ==>
      s == Serialise(d)
  {
    if forall k, i :: k in d.items && 0 <= i < |d.items[k]| ==> RefPath(d.items[k][i]).None? then
      ResolveLinesUnchanged(d.keys, d.items, vocab);
      ResolveLines(d.keys, d.items, vocab)
    else
      ResolveLines(d.keys, d.items, vocab)
  }

  /** Items without a matching reference come out of `re.sub` unchanged. */
  lemma {:induction false} ResolveItemsUnchanged(vs: seq<Item>, vocab: Vocabulary)
    requires forall i :: 0 <= i < |vs| ==> RefPath(vs[i]).None?
    ensures ResolveItems(vs, vocab) == RenderItems(vs)
    decreases |vs|
  {
    if vs != [] {
      ResolveItemsUnchanged(vs[..|vs| - 1], vocab);
    }
  }

  /** Text without references is left exactly as `write` produced it. */
  lemma {:induction false} ResolveLinesUnchanged(ks: seq<string>, items: map<string, seq<Item>>, vocab: Vocabulary)
    requires forall k :: k in ks ==> k in items
    requires forall k, i :: k in items && 0 <= i < |items[k]| ==> RefPath(items[k][i]).None?
    ensures ResolveLines(ks, items, vocab) == Lines(ks, items)
    decreases |ks|
  {
    if ks != [] {
      ResolveLinesUnchanged(ks[..|ks| - 1], items, vocab);
      ResolveItemsUnchanged(items[ks[|ks| - 1]], vocab);
    }
  }

  /** What the grammar reader takes from one item of resolved text: a
      replaced reference reads as the file's tokens, a bare name as a
      nonterminal, a quoted string as a terminal and ` | ` as a separator.
      A bracketed list the pattern left in place is text the reader rejects. */
  function ItemToks(it: Item, vocab: Vocabulary): Option<seq<Tok>>
  {
    match RefPath(it)
    case Some(p) => Some(FileTokensOf(Lookup(vocab, p)))
    case None =>
      match it
      case Nonterminal(n) => Some([Word(n)])
      case Terminal(t) => Some([Quoted(t)])
      case Empty => Some([Bar])
      case _ => None
  }

  /** The index of the first `'` in `s` at or after `i`, or `|s|` if there
      is none. */
  function QuoteEnd(s: string, i: nat): (j: nat)
    requires i <= |s|
    ensures i <= j <= |s|
    ensures forall k :: i <= k < j ==> s[k] != '\''
    ensures j < |s| ==> s[j] == '\''
    decreases |s| - i
  {
    if i == |s| || s[i] == '\'' then i else QuoteEnd(s, i + 1)
  }

  /** A character that ends a bare name: a space, a quote, a `|` or a `[`. */
  predicate StopChar(ch: char)
  {
    ch == ' ' || ch == '\'' || ch == '|' || ch == '['
  }

  /** A nonterminal name the reader takes as one bare word. */
  predicate WordText(n: string)
  {
    n != [] && forall i :: 0 <= i < |n| ==> !StopChar(n[i])
  }

  /** The index of the first stop character in `s` at or after `i`, or
      `|s|` if there is none. */
  function WordEnd(s: string, i: nat): (j: nat)
    requires i <= |s|
    ensures i <= j <= |s|
    ensures forall k :: i <= k < j ==> !StopChar(s[k])
    ensures j < |s| ==> StopChar(s[j])
    decreases |s| - i
  {
    if i == |s| || StopChar(s[i]) then i else WordEnd(s, i + 1)
  }

  /** The reader's tokenisation of a right-hand side of resolved text:
      spaces only separate tokens, `|` is a separator, the text between two
      quotes is a terminal and a bare word is a nonterminal. An unclosed
      quote, or bracketed text the substitution left in place, is rejected. */
  function Lex(s: string): Option<seq<Tok>>
    decreases |s|
  {
    if s == [] then Some([])
    else if s[0] == ' ' then Lex(s[1..])
    else if s[0] == '|' then Cons(Bar, Lex(s[1..]))
    else if s[0] == '\'' then
      var j := QuoteEnd(s, 1);
      if j == |s| then None else Cons(Quoted(s[1..j]), Lex(s[j + 1..]))
    else if s[0] == '[' then None
    else
      var j := WordEnd(s, 0);
      Cons(Word(s[..j]), Lex(s[j..]))
  }

  function Cons(t: Tok, r: Option<seq<Tok>>): Option<seq<Tok>>
  {
    Glue(Some([t]), r)
  }

  /** Two readings one after the other: both must succeed. */
  function Glue(a: Option<seq<Tok>>, b: Option<seq<Tok>>): Option<seq<Tok>>
  {
    match a
    case None => None
    case Some(x) =>
      match b
      case None => None
      case Some(y) => Some(x + y)
  }

  /** A token whose text reads back as itself: a separator, a terminal
      without a quote, or a nonterminal that is one bare word. */
  predicate PlainTok(t: Tok)
  {
    match t
    case Bar => true
    case Quoted(x) => '\'' !in x
    case Word(n) => WordText(n)
  }

  /** Spaces are skipped. */
  lemma LexSpace(rest: string)
    ensures Lex(" " + rest) == Lex(rest)
  {
    assert (" " + rest)[1..] == rest;
  }

  /** The closing quote of a quote-free text is the first quote after it. */
  lemma QuoteEndAfter(x: string, tail: string)
    requires '\'' !in x && tail != [] && tail[0] == '\''
    ensures QuoteEnd("'" + x + tail, 1) == |x| + 1
  {
    var u := "'" + x + tail;
    assert u[|x| + 1] == tail[0];
    assert forall k :: 1 <= k < |x| + 1 ==> u[k] == x[k - 1];
  }

  /** A quoted, quote-free text followed by a space reads as one terminal. */
  lemma LexQuoted(x: string, rest: string)
    requires '\'' !in x
    ensures Lex("'" + x + "' " + rest) == Cons(Quoted(x), Lex(rest))
  {
    var u := "'" + x + "' " + rest;
    var j := |x| + 1;
    assert u == "'" + x + ("' " + rest);
    QuoteEndAfter(x, "' " + rest);
    LexAtQuote(u);
    assert u[1..j] == x;
    assert u[j + 1..] == " " + rest;
    LexSpace(rest);
  }

  /** A quote opens a terminal that runs to the next quote. */
  lemma LexAtQuote(u: string)
    requires u != [] && u[0] == '\'' && QuoteEnd(u, 1) < |u|
    ensures Lex(u) == Cons(Quoted(u[1..QuoteEnd(u, 1)]), Lex(u[QuoteEnd(u, 1) + 1..]))
  {
  }

  /** Any other character opens a bare word that runs to the next stop. */
  lemma LexAtWord(u: string)
    requires u != [] && !StopChar(u[0])
    ensures Lex(u) == Cons(Word(u[..WordEnd(u, 0)]), Lex(u[WordEnd(u, 0)..]))
  {
  }

  /** A bare word followed by a space reads as one nonterminal. */
  lemma LexWord(n: string, rest: string)
    requires WordText(n)
    ensures Lex(n + " " + rest) == Cons(Word(n), Lex(rest))
  {
    var u := n + " " + rest;
    assert u[0] == n[0];
    assert u[|n|] == ' ';
    assert forall k :: 0 <= k < |n| ==> u[k] == n[k];
    assert WordEnd(u, 0) == |n|;
    LexAtWord(u);
    assert u[..|n|] == n;
    assert u[|n|..] == " " + rest;
    LexSpace(rest);
  }

  /** Reading the text of one such token consumes exactly that token. */
  lemma LexTok(t: Tok, rest: string)
    requires PlainTok(t)
    ensures Lex(RenderTok(t) + rest) == Cons(t, Lex(rest))
  {
    var s := RenderTok(t) + rest;
    match t
    case Quoted(x) =>
      assert s == " " + ("'" + x + "' " + rest);
      LexSpace("'" + x + "' " + rest);
      LexQuoted(x, rest);
    case Word(n) =>
      assert s == n + " " + rest;
      LexWord(n, rest);
    case Bar =>
      assert s[0] == '|' && s[1..] == rest;
  }

  lemma GlueNothing(r: Option<seq<Tok>>)
    ensures Glue(Some([]), r) == r
  {
    if r.Some? {
      assert [] + r.value == r.value;
    }
  }

  lemma GlueCons(t: Tok, ts: seq<Tok>, r: Option<seq<Tok>>)
    ensures Cons(t, Glue(Some(ts), r)) == Glue(Some([t] + ts), r)
  {
    if r.Some? {
      assert [t] + (ts + r.value) == ([t] + ts) + r.value;
    }
  }

  /** Text written from such tokens, followed by more text, reads as those
      tokens followed by the reading of the rest. */
  lemma {:induction false} LexRenderThen(ts: seq<Tok>, rest: string)
    requires forall i :: 0 <= i < |ts| ==> PlainTok(ts[i])
    ensures Lex(RenderToks(ts) + rest) == Glue(Some(ts), Lex(rest))
    decreases |ts|
  {
    if ts == [] {
      assert RenderToks(ts) + rest == rest;
      GlueNothing(Lex(rest));
    } else {
      var t, tail := ts[0], ts[1..];
      assert ts == [t] + tail;
      LexRenderStep(t, tail, rest);
      LexRenderThen(tail, rest);
      GlueCons(t, tail, Lex(rest));
    }
  }

  lemma LexRenderStep(t: Tok, tail: seq<Tok>, rest: string)
    requires PlainTok(t)
    ensures Lex(RenderToks([t] + tail) + rest) == Cons(t, Lex(RenderToks(tail) + rest))
  {
    var r := RenderToks(tail) + rest;
    assert ([t] + tail)[0] == t && ([t] + tail)[1..] == tail;
    assert RenderToks([t] + tail) + rest == RenderTok(t) + r;
    LexTok(t, r);
  }

  /** Text written from such tokens reads back as exactly those tokens. */
  lemma LexRender(ts: seq<Tok>)
    requires forall i :: 0 <= i < |ts| ==> PlainTok(ts[i])
    ensures Lex(RenderToks(ts)) == Some(ts)
  {
    LexRenderThen(ts, "");
    assert RenderToks(ts) + "" == RenderToks(ts);
    assert ts + [] == ts;
  }

  /** Different sequences of such tokens are written as different text, so
      the text determines its tokens. */
  lemma RenderToksInjective(a: seq<Tok>, b: seq<Tok>)
    requires forall i :: 0 <= i < |a| ==> PlainTok(a[i])
    requires forall i :: 0 <= i < |b| ==> PlainTok(b[i])
    requires RenderToks(a) == RenderToks(b)
    ensures a == b
  {
    LexRender(a);
    LexRender(b);
  }

  /** For a file whose lines contain no quote, the reader, tokenising the
      text the substitution put in place of a reference, gets exactly the
      tokens the model reads for that item. */
  lemma ReplacedTextIsRead(it: Item, vocab: Vocabulary)
    requires RefPath(it).Some?
    requires var p := RefPath(it).value; p in vocab ==> forall t :: t in vocab[p] ==> '\'' !in t
    ensures ItemToks(it, vocab).Some?
    ensures Lex(ResolveItem(it, vocab)) == ItemToks(it, vocab)
  {
    var p := RefPath(it).value;
    if p in vocab {
      var ts := FileTokens(vocab[p]);
      FileTokensQuotedOrBar(vocab[p]);
      assert forall i :: 0 <= i < |ts| ==> ts[i] in ts;
      LexRender(ts);
    } else {
      assert Lex("") == Some([]);
    }
  }

  /** The tokens of a right-hand side, or None if some item is unreadable. */
  function ReadTokens(vs: seq<Item>, vocab: Vocabulary): Option<seq<Tok>>
  {
    if vs == [] then Some([])
    else
      match ItemToks(vs[0], vocab)
      case None => None
      case Some(a) =>
        match ReadTokens(vs[1..], vocab)
        case None => None
        case Some(b) => Some(a + b)
  }

  /** The alternatives a right-hand side reads as. */
  function ReadRule(vs: seq<Item>, vocab: Vocabulary): Option<seq<seq<Sym>>>
  {
    match ReadTokens(vs, vocab)
    case None => None
    case Some(ts) => Some(Split(ts))
  }

  /** Reading fails exactly when one of the items is unreadable, and the only
      nonterminals it yields are the names the items mention. */
  lemma {:induction false} ReadTokensIff(vs: seq<Item>, vocab: Vocabulary)
    ensures ReadTokens(vs, vocab).Some? <==> forall i :: 0 <= i < |vs| ==> ItemToks(vs[i], vocab).Some?
    ensures ReadTokens(vs, vocab).Some? ==>
      forall n :: Word(n) in ReadTokens(vs, vocab).value ==> Nonterminal(n) in vs
    decreases |vs|
  {
    if vs != [] {
      ReadTokensIff(vs[1..], vocab);
      if ItemToks(vs[0], vocab).Some? {
        assert forall i :: 1 <= i < |vs| ==> vs[i] == vs[1..][i - 1];
        if ReadTokens(vs, vocab).Some? {
          var a := ItemToks(vs[0], vocab).value;
          var b := ReadTokens(vs[1..], vocab).value;
          FileTokensNoWords(vs[0], vocab);
          forall n | Word(n) in a + b ensures Nonterminal(n) in vs {
            if Word(n) in a {
              assert vs[0] == Nonterminal(n);
            } else {
              assert Word(n) in b;
              assert Nonterminal(n) in vs[1..];
            }
          }
        }
      }
    }
  }

  /** An item yields a nonterminal token only when it names one. */
  lemma FileTokensNoWords(it: Item, vocab: Vocabulary)
    requires ItemToks(it, vocab).Some?
    ensures forall n :: Word(n) in ItemToks(it, vocab).value ==> it == Nonterminal(n)
  {
    if RefPath(it).Some? {
      var f := Lookup(vocab, RefPath(it).value);
      if f.Some? {
        FileTokensQuotedOrBar(f.value);
      }
    }
  }

  /** A file's tokens are only separators and its own lines, quoted. */
  lemma {:induction false} FileTokensQuotedOrBar(lines: seq<string>)
    ensures forall t :: t in FileTokens(lines) ==> t == Bar || (t.Quoted? && t.text in lines)
    decreases |lines|
  {
    if lines != [] {
      var init := lines[..|lines| - 1];
      FileTokensQuotedOrBar(init);
      assert forall t :: t in init ==> t in lines;
    }
  }

  /** Every symbol of every alternative comes from a token of the same kind. */
  lemma {:induction false} SplitSymbols(ts: seq<Tok>)
    ensures forall alt, s :: alt in Split(ts) && s in alt && s.N? ==> Word(s.name) in ts
    decreases |ts|
  {
    if ts != [] {
      SplitSymbols(ts[1..]);
      var rest := Split(ts[1..]);
      assert rest[0] in rest;
      assert forall alt :: alt in rest[1..] ==> alt in rest;
      assert forall t :: t in ts[1..] ==> t in ts;
    }
  }

  /** The productions read from the lines of the given keys; the first
      unreadable line stops the reading. */
  function ReadLines(ks: seq<string>, items: map<string, seq<Item>>, vocab: Vocabulary): Result<Productions, Error>
    requires forall k :: k in ks ==> k in items
  {
    if ks == [] then Success(map[])
    else
      match ReadRule(items[ks[0]], vocab)
      case None => Failure(Unreadable(ks[0]))
      case Some(alts) =>
        match ReadLines(ks[1..], items, vocab)
        case Failure(e) => Failure(e)
        case Success(g) => Success(g[ks[0] := alts])
  }

  /** The grammar the resolved text of `d` reads as. */
  function ReadGrammar(d: Dict, vocab: Vocabulary): Result<Productions, Error>
    requires d.Valid()
  {
    ReadLines(d.keys, d.items, vocab)
  }

  /** Reading succeeds exactly when every line is readable; it then defines
      exactly the keys, each with its own line's alternatives, and otherwise
      names an unreadable line. */
  lemma {:induction false} ReadLinesIff(ks: seq<string>, items: map<string, seq<Item>>, vocab: Vocabulary)
    requires forall k :: k in ks ==> k in items
    ensures ReadLines(ks, items, vocab).Success? <==> forall k :: k in ks ==> ReadRule(items[k], vocab).Some?
    ensures ReadLines(ks, items, vocab).Success? ==>
      var g := ReadLines(ks, items, vocab).value;
      && (forall k :: k in g <==> k in ks)
      && (forall k :: k in ks ==> g[k] == ReadRule(items[k], vocab).value)
    ensures ReadLines(ks, items, vocab).Failure? ==>
      var e := ReadLines(ks, items, vocab).error;
      e.Unreadable? && e.text in ks && ReadRule(items[e.text], vocab).None?
    decreases |ks|
  {
    if ks != [] {
      assert forall k :: k in ks ==> k == ks[0] || k in ks[1..];
      ReadLinesIff(ks[1..], items, vocab);
    }
  }

  /** The reading of `d`'s resolved text, in terms of its lines. */
  lemma ReadGrammarIff(d: Dict, vocab: Vocabulary)
    requires d.Valid()
    ensures ReadGrammar(d, vocab).Success? <==> forall k :: k in d.items ==> ReadRule(d.items[k], vocab).Some?
    ensures ReadGrammar(d, vocab).Success? ==>
      var g := ReadGrammar(d, vocab).value;
      && (forall k :: k in g <==> k in d.items)
      && (forall k :: k in d.items ==> g[k] == ReadRule(d.items[k], vocab).value)
    ensures ReadGrammar(d, vocab).Failure? ==>
      var e := ReadGrammar(d, vocab).error;
      e.Unreadable? && e.text in d.items && ReadRule(d.items[e.text], vocab).None?
  {
    ReadLinesIff(d.keys, d.items, vocab);
  }

  /** A readable dictionary whose every mentioned nonterminal is defined and
      ranks below the rule mentioning it reads as a grounded grammar. */
  lemma ReadGrammarGrounded(d: Dict, vocab: Vocabulary, rank: string -> nat)
    requires d.Valid() && ReadGrammar(d, vocab).Success?
    requires forall k, i :: k in d.items && 0 <= i < |d.items[k]| && d.items[k][i].Nonterminal? ==>
      d.items[k][i].name in d.items && rank(d.items[k][i].name) < rank(k)
    ensures Grounded(ReadGrammar(d, vocab).value, rank)
  {
    var g := ReadGrammar(d, vocab).value;
    ReadGrammarIff(d, vocab);
    forall a: string, alt: seq<Sym>, s: Sym | a in g && alt in g[a] && s in alt && s.N?
      ensures s.name in g && rank(s.name) < rank(a)
    {
      var ts := ReadTokens(d.items[a], vocab).value;
      SplitSymbols(ts);
      ReadTokensIff(d.items[a], vocab);
      assert Nonterminal(s.name) in d.items[a];
      var i :| 0 <= i < |d.items[a]| && d.items[a][i] == Nonterminal(s.name);
    }
  }

  /** A reference reads as one alternative per kept line of its file, in
      file order, preceded by an empty alternative when the file opens with
      a comment and keeps a later line; a missing file, or one that keeps
      nothing, reads as one empty alternative. */
  lemma ReferenceReads(p: string, vocab: Vocabulary)
    requires PathText(p)
    ensures var lines := if p in vocab then vocab[p] else [];
      var ks := Kept(lines);
      ReadRule([VocabRef(p)], vocab)
        == Some((if lines != [] && '#' in lines[0] && ks != [] then [[]] else [])
                + (if ks == [] then [[]] else seq(|ks|, i requires 0 <= i < |ks| => [T(ks[i])])))
  {
    var lines := if p in vocab then vocab[p] else [];
    var ts := FileTokensOf(Lookup(vocab, p));
    assert ts == FileTokens(lines);
    assert ReadTokens([VocabRef(p)][1..], vocab) == Some([]);
    assert ReadTokens([VocabRef(p)], vocab) == Some(ts + []);
    assert ts + [] == ts;
    KeptTokensAlternation(lines);
    if lines == [] {
      assert Kept(lines) == [] && FileTokens(lines) == [];
      var none: seq<seq<Sym>> := [];
      assert Split([]) == [[]] && none + [[]] == [[]];
    } else if '#' in lines[0] && Kept(lines) != [] {
      LeadingCommentAddsEmptyAlternative(lines);
    } else {
      FileTokensAsWritten(lines);
      assert Lead(lines) == [];
      assert [] + KeptTokens(lines) == KeptTokens(lines);
      var none: seq<seq<Sym>> := [];
      assert none + Split(KeptTokens(lines)) == Split(KeptTokens(lines));
    }
  }

  /** An item whose written text the reader takes back as written: a
      nonterminal named by one bare word and a terminal without a quote. */
  predicate GoodItem(it: Item)
  {
    match it
    case Nonterminal(n) => WordText(n)
    case Terminal(t) => '\'' !in t
    case _ => true
  }

  /** Vocabulary files none of whose lines holds a quote. */
  predicate QuoteFree(vocab: Vocabulary)
  {
    forall p, t :: p in vocab && t in vocab[p] ==> '\'' !in t
  }

  /** The resolved text of one item, followed by its separating space,
      reads as that item's tokens. */
  lemma LexItem(it: Item, vocab: Vocabulary, rest: string)
    requires GoodItem(it) && QuoteFree(vocab)
    ensures Lex(ResolveItem(it, vocab) + " " + rest) == Glue(ItemToks(it, vocab), Lex(rest))
  {
    RefPathIsBracketed(it);
    if RefPath(it).Some? {
      LexReplaced(it, vocab, rest);
    } else {
      match it
      case Nonterminal(n) =>
        LexWord(n, rest);
      case Terminal(t) =>
        assert ResolveItem(it, vocab) + " " + rest == "'" + t + "' " + rest;
        LexQuoted(t, rest);
      case Empty =>
        assert ResolveItem(it, vocab) + " " + rest == " | " + " " + rest;
        LexEmpty(rest);
      case VocabRef(_) =>
        LexBracket(ResolveItem(it, vocab) + " " + rest);
      case PathList(_) =>
        LexBracket(ResolveItem(it, vocab) + " " + rest);
    }
  }

  /** A replaced reference reads as its file's tokens. */
  lemma LexReplaced(it: Item, vocab: Vocabulary, rest: string)
    requires RefPath(it).Some? && QuoteFree(vocab)
    ensures Lex(ResolveItem(it, vocab) + " " + rest) == Glue(ItemToks(it, vocab), Lex(rest))
  {
    var p := RefPath(it).value;
    var ts := FileTokensOf(Lookup(vocab, p));
    if p in vocab {
      FileTokensQuotedOrBar(vocab[p]);
    }
    assert forall i :: 0 <= i < |ts| ==> ts[i] in ts;
    assert ResolveItem(it, vocab) + " " + rest == RenderToks(ts) + (" " + rest);
    LexRenderThen(ts, " " + rest);
    LexSpace(rest);
  }

  /** The text written for an empty alternative reads as one separator. */
  lemma LexEmpty(rest: string)
    ensures Lex(" | " + " " + rest) == Cons(Bar, Lex(rest))
  {
    var u := "|" + (" " + (" " + rest));
    assert " | " + " " + rest == " " + u;
    LexSpace(u);
    assert u[0] == '|' && u[1..] == " " + (" " + rest);
    LexSpace(" " + rest);
    LexSpace(rest);
  }

  /** Bracketed text is rejected. */
  lemma LexBracket(u: string)
    requires u != [] && u[0] == '['
    ensures Lex(u) == None
  {
  }

  lemma GlueAssoc(a: Option<seq<Tok>>, b: Option<seq<Tok>>, c: Option<seq<Tok>>)
    ensures Glue(Glue(a, b), c) == Glue(a, Glue(b, c))
  {
    if a.Some? && b.Some? && c.Some? {
      assert (a.value + b.value) + c.value == a.value + (b.value + c.value);
    }
  }

  /** Reading one more item appends its tokens. */
  lemma {:induction false} ReadTokensSnoc(vs: seq<Item>, it: Item, vocab: Vocabulary)
    ensures ReadTokens(vs + [it], vocab) == Glue(ReadTokens(vs, vocab), ItemToks(it, vocab))
    decreases |vs|
  {
    if vs == [] {
      assert vs + [it] == [it];
      assert ReadTokens([it][1..], vocab) == Some([]);
      if ItemToks(it, vocab).Some? {
        assert ItemToks(it, vocab).value + [] == ItemToks(it, vocab).value;
      }
      GlueNothing(ItemToks(it, vocab));
    } else {
      var u := vs + [it];
      assert u[0] == vs[0] && u[1..] == vs[1..] + [it];
      ReadTokensSnoc(vs[1..], it, vocab);
      assert ReadTokens(u, vocab) == Glue(ItemToks(vs[0], vocab), ReadTokens(u[1..], vocab));
      assert ReadTokens(vs, vocab) == Glue(ItemToks(vs[0], vocab), ReadTokens(vs[1..], vocab));
      GlueAssoc(ItemToks(vs[0], vocab), ReadTokens(vs[1..], vocab), ItemToks(it, vocab));
    }
  }

  lemma ResolveItemsThen(vs: seq<Item>, vocab: Vocabulary, rest: string)
    requires vs != []
    ensures vs[..|vs| - 1] + [vs[|vs| - 1]] == vs
    ensures ResolveItems(vs, vocab) + rest
      == ResolveItems(vs[..|vs| - 1], vocab) + (ResolveItem(vs[|vs| - 1], vocab) + " " + rest)
  {
  }

  /** The resolved text of a right-hand side, followed by more text, reads
      as the right-hand side's tokens followed by the reading of the rest. */
  lemma {:induction false} LexResolvedThen(vs: seq<Item>, vocab: Vocabulary, rest: string)
    requires QuoteFree(vocab)
    requires forall i :: 0 <= i < |vs| ==> GoodItem(vs[i])
    ensures Lex(ResolveItems(vs, vocab) + rest) == Glue(ReadTokens(vs, vocab), Lex(rest))
    decreases |vs|
  {
    if vs == [] {
      assert ResolveItems(vs, vocab) + rest == rest;
      GlueNothing(Lex(rest));
    } else {
      var init, last := vs[..|vs| - 1], vs[|vs| - 1];
      var r := ResolveItem(last, vocab) + " " + rest;
      ResolveItemsThen(vs, vocab, rest);
      LexResolvedThen(init, vocab, r);
      LexItem(last, vocab, rest);
      ReadTokensSnoc(init, last, vocab);
      GlueAssoc(ReadTokens(init, vocab), ItemToks(last, vocab), Lex(rest));
    }
  }

  /** For quote-free vocabulary files and well-formed names and terminals,
      the reader's tokenisation of the resolved text of a right-hand side
      is exactly the tokens the model reads for it, failure included. */
  lemma LexResolvedItems(vs: seq<Item>, vocab: Vocabulary)
    requires QuoteFree(vocab)
    requires forall i :: 0 <= i < |vs| ==> GoodItem(vs[i])
    ensures Lex(ResolveItems(vs, vocab)) == ReadTokens(vs, vocab)
  {
    LexResolvedThen(vs, vocab, "");
    assert ResolveItems(vs, vocab) + "" == ResolveItems(vs, vocab);
    assert Lex("") == Some([]);
    var r := ReadTokens(vs, vocab);
    if r.Some? {
      assert r.value + [] == r.value;
    }
  }

  /** Every line of the resolved grammar text of `d` has a right-hand side
      the reader tokenises exactly as the model reads that line's rule. */
  lemma ResolvedRulesRead(d: Dict, vocab: Vocabulary)
    requires d.Valid() && QuoteFree(vocab)
    requires forall k, i :: k in d.items && 0 <= i < |d.items[k]| ==> GoodItem(d.items[k][i])
    ensures forall k :: k in d.items ==> Lex(ResolveItems(d.items[k], vocab)) == ReadTokens(d.items[k], vocab)
  {
    forall k | k in d.items
      ensures Lex(ResolveItems(d.items[k], vocab)) == ReadTokens(d.items[k], vocab)
    {
      LexResolvedItems(d.items[k], vocab);
    }
  }
}
