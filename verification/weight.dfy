/** `FontSheet._getNumberedWeight`: a weight name and an intensity ("climax") to a
    numeric CSS font weight. */
module Weight {
  import opened Wrappers
  import opened Text

  /** The base table. The name is compared after lower-casing; any other name is regular. */
  function NamedWeight(name: string): (w: int)
    ensures w == 900 <==> Lower(name) == "black"
    ensures w == 700 <==> Lower(name) == "bold"
    ensures w == 500 <==> Lower(name) == "medium"
    ensures w == 300 <==> Lower(name) == "light"
    ensures w == 200 <==> Lower(name) == "thin"
    ensures w == 400 <==> Lower(name) !in {"black", "bold", "medium", "light", "thin"}
  {
    var n := Lower(name);
    if n == "black" then 900
    else if n == "bold" then 700
    else if n == "medium" then 500
    else if n == "roman" || n == "regular" then 400
    else if n == "light" then 300
    else if n == "thin" then 200
    else 400
  }

  /** The weight before any intensity applies: an absent or empty name is regular. */
  function BaseWeight(name: Option<string>): int {
    if name.None? || name.value == "" then 400 else NamedWeight(name.value)
  }

  /** The three intensities the code recognises, exactly as written (lower case). */
  predicate IsIntensity(climax: Option<string>) {
    climax == Some("semi") || climax == Some("extra") || climax == Some("ultra")
  }

  /** The resolver. After the base table three adjustments run in a fixed order, each
      seeing the previous one's result: semi on 700 or more takes 100 off, ultra on 300
      or less takes 100 off, ultra or extra on 700 or more adds 100. The intensity is
      compared case-sensitively; nothing clamps the result. */
  function ResolveWeight(weight: Option<string>, climax: Option<string>): (r: int)
    ensures r % 100 == 0 && 100 <= r <= 1000
    ensures weight.None? || weight.value == "" ==> r == 400
    ensures !IsIntensity(climax) ==> r == BaseWeight(weight)
    ensures -100 <= r - BaseWeight(weight) <= 100
  {
    if weight.None? || weight.value == "" then 400
    else
      var w0 := NamedWeight(weight.value);
      var w1 := if climax == Some("semi") && w0 >= 700 then w0 - 100 else w0;
      var w2 := if climax == Some("ultra") && w1 <= 300 then w1 - 100 else w1;
      if (climax == Some("ultra") || climax == Some("extra")) && w2 >= 700 then w2 + 100 else w2
  }

  /** The two ends of the range: 1000 only for extra/ultra black, 100 only for ultra thin. */
  lemma ExtremeWeights(weight: Option<string>, climax: Option<string>)
    ensures ResolveWeight(weight, climax) == 1000
        <==> BaseWeight(weight) == 900 && (climax == Some("extra") || climax == Some("ultra"))
    ensures ResolveWeight(weight, climax) == 100
        <==> BaseWeight(weight) == 200 && climax == Some("ultra")
  {
  }

  /** Which bases each intensity moves: semi lowers only 700 and 900, ultra lowers only 200
      and 300 and raises 700 and 900, extra raises only 700 and 900. */
  lemma IntensityShifts(weight: Option<string>, climax: Option<string>)
    ensures var b, r := BaseWeight(weight), ResolveWeight(weight, climax);
      && (r < b <==> (climax == Some("semi") && b >= 700) || (climax == Some("ultra") && b <= 300))
      && (r > b <==> (climax == Some("extra") || climax == Some("ultra")) && b >= 700)
  {
  }

  /** An intensity never reorders two weight names. */
  lemma ResolveWeightMonotone(a: Option<string>, b: Option<string>, climax: Option<string>)
    requires BaseWeight(a) <= BaseWeight(b)
    ensures ResolveWeight(a, climax) <= ResolveWeight(b, climax)
  {
  }

  /** Weight names are compared ignoring case. */
  lemma WeightNameIgnoresCase(a: string, b: string, climax: Option<string>)
    requires Lower(a) == Lower(b)
    ensures ResolveWeight(Some(a), climax) == ResolveWeight(Some(b), climax)
  {
  }

  /** The intensity, unlike the weight name, is compared with its case: "SemiBold" gets no
      reduction, although the filename pattern itself ignores case. */
  lemma IntensityCaseSensitive()
    ensures ResolveWeight(Some("Bold"), Some("Semi")) == 700
    ensures ResolveWeight(Some("Bold"), Some("semi")) == 600
    ensures ResolveWeight(Some("Black"), Some("Extra")) == 900
  {
    assert Lower("Bold") == "bold";
    assert Lower("Black") == "black";
  }

  /** The resolver with the intensity lower-cased first, as the pattern's case-insensitive
      match evidently intends. */
  function ResolveWeightFolded(weight: Option<string>, climax: Option<string>): (r: int)
    ensures r % 100 == 0 && 100 <= r <= 1000
    ensures climax.Some? && Lower(climax.value) == "semi" && BaseWeight(weight) >= 700
      ==> r == BaseWeight(weight) - 100
    ensures climax.Some? && Lower(climax.value) in {"extra", "ultra"} && BaseWeight(weight) >= 700
      ==> r == BaseWeight(weight) + 100
    ensures climax.Some? && Lower(climax.value) == "ultra" && BaseWeight(weight) <= 300
      ==> r == BaseWeight(weight) - 100
  {
    ResolveWeight(weight, if climax.Some? then Some(Lower(climax.value)) else None)
  }

  /** The corrected resolver ignores the intensity's case and agrees with the original
      whenever the intensity is already lower case. */
  lemma FoldedIgnoresIntensityCase(weight: Option<string>, a: string, b: string)
    requires Lower(a) == Lower(b)
    ensures ResolveWeightFolded(weight, Some(a)) == ResolveWeightFolded(weight, Some(b))
    ensures Lower(a) == a ==> ResolveWeightFolded(weight, Some(a)) == ResolveWeight(weight, Some(a))
  {
  }
}
