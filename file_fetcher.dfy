/**
 * `FileFetcher` of `generate.py`: which gender variants a configuration asks
 * for, and the vocabulary paths built from them.
 */
module FileFetcher {
  import opened Wrappers
  import opened NameConfig

  /** The gender endings `get_gender_endings` returns, stated by membership:
      "male" iff the male flag, "female" iff the female flag, and the neutral
      ending "" iff the neutral flag, `alwaysNeutral`, or neither other flag. */
  function GenderEndings(c: Config, alwaysNeutral: bool): seq<string>
  {
    (if c.genderMale then ["male"] else [])
    + (if c.genderFemale then ["female"] else [])
    + (if c.genderNeutral || alwaysNeutral || !(c.genderMale || c.genderFemale) then [""] else [])
  }

  /** Position of an ending in the fixed order male, female, neutral. */
  function EndingRank(g: string): nat
  {
    if g == "male" then 0 else if g == "female" then 1 else 2
  }

  lemma GenderEndingsShape(c: Config, alwaysNeutral: bool)
    ensures var e := GenderEndings(c, alwaysNeutral);
      && |e| > 0
      && (forall g :: g in e ==> g == "male" || g == "female" || g == "")
      && (forall i, j :: 0 <= i < j < |e| ==> EndingRank(e[i]) < EndingRank(e[j]))
      && ("male" in e <==> c.genderMale)
      && ("female" in e <==> c.genderFemale)
      && ("" in e <==> c.genderNeutral || alwaysNeutral || !(c.genderMale || c.genderFemale))
      && (!c.genderMale && !c.genderFemale && !c.genderNeutral && !alwaysNeutral ==> e == [""])
  {
  }

  /** `get_gender_endings`: appends the endings one flag at a time and falls
      back to the neutral ending when nothing was selected. */
  method GetGenderEndings(c: Config, alwaysNeutral: bool) returns (e: seq<string>)
    ensures e == GenderEndings(c, alwaysNeutral)
  {
    e := [];
    if c.genderMale {
      e := e + ["male"];
    }
    if c.genderFemale {
      e := e + ["female"];
    }
    if c.genderNeutral || alwaysNeutral {
      e := e + [""];
    }
    if |e| == 0 {
      e := e + [""];
    }
  }

  /** `-g` for a gendered ending, nothing for the neutral one. */
  function Suffix(g: string): string
  {
    if g != "" then "-" + g else ""
  }

  /** The file of gender variant `g` of the vocabulary `base`: `base{-g}.txt`. */
  function VariantPath(base: string, g: string): string
  {
    base + Suffix(g) + ".txt"
  }

  /** Reads back the gender variant a path of `base` was built from. */
  function VariantOf(base: string, path: string): Option<string>
  {
    if |path| >= |base| + 4 && path[..|base|] == base && path[|path| - 4..] == ".txt" then
      var mid := path[|base|..|path| - 4];
      if mid == "" then Some("")
      else if mid[0] == '-' && |mid| > 1 then Some(mid[1..])
      else None
    else None
  }

  /** A variant path determines its ending and vice versa: building and reading back agree. */
  lemma VariantRoundTrip(base: string, g: string, path: string)
    ensures VariantOf(base, VariantPath(base, g)) == Some(g)
    ensures VariantOf(base, path) == Some(g) ==> VariantPath(base, g) == path
  {
    var p := VariantPath(base, g);
    assert p[..|base|] == base;
    assert p[|p| - 4..] == ".txt";
    assert p[|base|..|p| - 4] == Suffix(g);
    if VariantOf(base, path) == Some(g) {
      var mid := path[|base|..|path| - 4];
      assert path == path[..|base|] + mid + path[|path| - 4..];
      if mid != "" {
        assert mid == "-" + mid[1..];
      }
    }
  }

  /** Different endings give different files. */
  lemma VariantPathInjective(base: string, g1: string, g2: string)
    requires VariantPath(base, g1) == VariantPath(base, g2)
    ensures g1 == g2
  {
    VariantRoundTrip(base, g1, "");
    VariantRoundTrip(base, g2, "");
  }

  /** One variant path per ending, in the order of the endings. */
  function VariantPaths(base: string, gs: seq<string>): (ps: seq<string>)
    ensures |ps| == |gs|
    ensures forall i :: 0 <= i < |gs| ==> ps[i] == VariantPath(base, gs[i])
  {
    if gs == [] then [] else [VariantPath(base, gs[0])] + VariantPaths(base, gs[1..])
  }

  /** Distinct endings give distinct files, and each file reads back to its ending. */
  lemma {:induction false} VariantPathsDistinct(base: string, gs: seq<string>)
    requires forall i, j :: 0 <= i < j < |gs| ==> gs[i] != gs[j]
    ensures var ps := VariantPaths(base, gs);
      && (forall i, j :: 0 <= i < j < |ps| ==> ps[i] != ps[j])
      && (forall i :: 0 <= i < |ps| ==> VariantOf(base, ps[i]) == Some(gs[i]))
  {
    var ps := VariantPaths(base, gs);
    forall i | 0 <= i < |ps| ensures VariantOf(base, ps[i]) == Some(gs[i]) {
      VariantRoundTrip(base, gs[i], "");
    }
    forall i, j | 0 <= i < j < |ps| ensures ps[i] != ps[j] {
      if ps[i] == ps[j] {
        VariantPathInjective(base, gs[i], gs[j]);
      }
    }
  }

  /** The endings of one configuration are pairwise distinct. */
  lemma GenderEndingsDistinct(c: Config, alwaysNeutral: bool)
    ensures var e := GenderEndings(c, alwaysNeutral);
      forall i, j :: 0 <= i < j < |e| ==> e[i] != e[j]
  {
    GenderEndingsShape(c, alwaysNeutral);
  }

  const PositionsBase := "prefixes/positions"

  /** `get_position_files`: one title file `prefixes/positions{-g}.txt` per
      gender ending of the configuration, in the order of the endings, no two alike. */
  method GetPositionFiles(c: Config) returns (pt: seq<string>)
    ensures pt == VariantPaths(PositionsBase, GenderEndings(c, false))
    ensures forall i, j :: 0 <= i < j < |pt| ==> pt[i] != pt[j]
  {
    var ges := GetGenderEndings(c, false);
    pt := [];
    for k := 0 to |ges|
      invariant |pt| == k
      invariant forall i :: 0 <= i < k ==> pt[i] == VariantPath(PositionsBase, ges[i])
    {
      var g := ges[k];
      g := if g != "" then "-" + g else g;
      pt := pt + [PositionsBase + g + ".txt"];
    }
    GenderEndingsDistinct(c, false);
    VariantPathsDistinct(PositionsBase, ges);
  }
}
