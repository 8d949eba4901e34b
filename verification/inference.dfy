/** `FontSheet.infer`: a font sheet from a filename and, failing a family in the name,
    the name of the directory the file sits in. */
module Inference {
  import opened Wrappers
  import opened Text
  import opened FilenamePattern
  import opened Weight
  import opened FontSheets

  /** The name to match and the parent directory to fall back on. A name with a '/' past
      its first character is split there: its first segment becomes the parent directory
      and its second segment (up to any further '/') the name. Otherwise the name is kept
      and the parent directory is the one the file lies in, if a file was given. */
  function SplitParent(filename: string, fileParent: Option<string>): (r: (string, Option<string>))
    ensures IndexOf(filename, '/') <= 0 ==> r == (filename, fileParent)
    ensures IndexOf(filename, '/') > 0 ==>
      var i := IndexOf(filename, '/');
      && r.1 == Some(filename[..i])
      && '/' !in r.0
      && r.0 <= filename[i + 1..]
      && (|r.0| == |filename[i + 1..]| || filename[i + 1..][|r.0|] == '/')
  {
    var i := IndexOf(filename, '/');
    if i <= 0 then (filename, fileParent)
    else
      var rest := filename[i + 1..];
      var j := IndexOf(rest, '/');
      (if j < 0 then rest else rest[..j], Some(filename[..i]))
  }

  /** The sheet a match describes: the family group, else the parent directory; the
      resolved weight, with the intensity group passed on as captured (so in the
      filename's own case); the style group as captured, else "normal". */
  function SheetFor(c: Captures, parent: Option<string>): FontSheet {
    NewFontSheet(if c.name.Some? then c.name else parent,
                 Some(ResolveWeight(c.weight, c.climax)),
                 Some(c.style.GetOr("normal")))
  }

  /** The sheet with the intensity compared ignoring case, as the pattern matches it. */
  function SheetForFolded(c: Captures, parent: Option<string>): FontSheet {
    NewFontSheet(if c.name.Some? then c.name else parent,
                 Some(ResolveWeightFolded(c.weight, c.climax)),
                 Some(c.style.GetOr("normal")))
  }

  /** Every reading of the name with a family group is the one the matcher returns. */
  lemma FamilyReadingWins(name: string)
    ensures forall c :: WellFormed(c) && Render(c) == name && c.name.Some? ==> MatchFilename(name) == Some(c)
  {
    forall c | WellFormed(c) && Render(c) == name && c.name.Some?
      ensures MatchFilename(name) == Some(c)
    {
      MatchFilenameComplete(c);
    }
  }

  /** `infer`: undefined exactly when the (possibly split) name does not match the pattern;
      otherwise the sheet of the engine's reading, which takes the family group whenever a
      reading with one exists. */
  function Infer(filename: string, fileParent: Option<string>): (r: Option<FontSheet>)
    ensures var (name, parent) := SplitParent(filename, fileParent);
      && (r.Some? <==> Matches(name))
      && (forall c :: WellFormed(c) && Render(c) == name && c.name.Some? ==> r == Some(SheetFor(c, parent)))
      && (r.Some? ==> exists c :: WellFormed(c) && Render(c) == name && r.value == SheetFor(c, parent))
    ensures r.Some? ==> r.value.weight % 100 == 0 && 100 <= r.value.weight <= 1000
    ensures r.Some? ==> r.value.style == "normal" || Lower(r.value.style) in StyleNames
    ensures r.Some? && r.value.family.None? ==> SplitParent(filename, fileParent).1.None?
  {
    var (name, parent) := SplitParent(filename, fileParent);
    MatchFilenameIffMatches(name);
    FamilyReadingWins(name);
    match MatchFilename(name)
    case None => None
    case Some(c) => Some(SheetFor(c, parent))
  }

  /** `infer` with the intensity folded to lower case before the weight is resolved: the
      same reading of the name, so the same family and style, and a weight that agrees
      with `Infer`'s whenever the intensity is written in lower case. */
  function InferFolded(filename: string, fileParent: Option<string>): (r: Option<FontSheet>)
    ensures var (name, parent) := SplitParent(filename, fileParent);
      && (r.Some? <==> Matches(name))
      && (forall c :: WellFormed(c) && Render(c) == name && c.name.Some? ==> r == Some(SheetForFolded(c, parent)))
      && (r.Some? ==> exists c :: WellFormed(c) && Render(c) == name && r.value == SheetForFolded(c, parent))
    ensures r.Some? <==> Infer(filename, fileParent).Some?
    ensures r.Some? ==> r.value.family == Infer(filename, fileParent).value.family
    ensures r.Some? ==> r.value.style == Infer(filename, fileParent).value.style
    ensures r.Some? ==> r.value.weight % 100 == 0 && 100 <= r.value.weight <= 1000
  {
    var (name, parent) := SplitParent(filename, fileParent);
    MatchFilenameIffMatches(name);
    FamilyReadingWins(name);
    match MatchFilename(name)
    case None => None
    case Some(c) => FoldedSheetAgrees(c, parent); Some(SheetForFolded(c, parent))
  }

  /** Folding the intensity changes the weight alone. */
  lemma FoldedSheetAgrees(c: Captures, parent: Option<string>)
    ensures SheetForFolded(c, parent).family == SheetFor(c, parent).family
    ensures SheetForFolded(c, parent).style == SheetFor(c, parent).style
    ensures var w := SheetForFolded(c, parent).weight; w % 100 == 0 && 100 <= w <= 1000
  {
  }

  // ---------------------------------------------------------------------------------
  // The engine's preference on two names

  lemma NoSlashKeepsName(s: string, parent: Option<string>)
    requires '/' !in s
    ensures SplitParent(s, parent) == (s, parent)
  {
  }

  lemma LowerItalic()
    ensures Lower("Italic") == "italic"
  {
    assert forall i :: 0 <= i < 6 ==> Lower("Italic")[i] == "italic"[i];
  }

  lemma LowerBold()
    ensures Lower("Bold") == "bold"
  {
    assert forall i :: 0 <= i < 4 ==> Lower("Bold")[i] == "bold"[i];
  }

  lemma LowerWebfont()
    ensures Lower("-webfont") == "-webfont"
  {
    assert forall i :: 0 <= i < 8 ==> Lower("-webfont")[i] == "-webfont"[i];
  }

  /** "Bold-Italic.ttf" reads with family "Bold", no weight word and the style "Italic". */
  lemma BoldItalicReading()
    ensures var c := Captures(Some("Bold"), None, None, false, Some("Italic"), None, "ttf");
      WellFormed(c) && Render(c) == "Bold-Italic.ttf"
  {
    var c := Captures(Some("Bold"), None, None, false, Some("Italic"), None, "ttf");
    LowerItalic();
    assert Render(c) == "Bold-" + ("" + ("" + ("" + "Italic" + ("" + ".ttf"))));
  }

  /** A word the family group can take is a family, even when it is also a weight word. */
  lemma BoldItalicHasFamily()
    ensures Infer("Bold-Italic.ttf", None) == Some(FontSheet(Some("Bold"), 400, "Italic"))
  {
    NoSlashKeepsName("Bold-Italic.ttf", None);
    BoldItalicReading();
    MatchFilenameComplete(Captures(Some("Bold"), None, None, false, Some("Italic"), None, "ttf"));
    BoldItalicSheet();
  }

  lemma BoldItalicSheet()
    ensures SheetFor(Captures(Some("Bold"), None, None, false, Some("Italic"), None, "ttf"), None)
         == FontSheet(Some("Bold"), 400, "Italic")
  {
  }

  /** No reading of "webfont.ttf" exists: none starts with a 'w'. */
  lemma WebfontTailUnmatched()
    ensures MatchTail("webfont.ttf") == None
  {
    if m :| MatchTail("webfont.ttf") == Some(m) {
      RenderClimaxHead(m);
      assert false;
    }
  }

  /** The word-character run of a name ends at the first character that is not one. */
  lemma WordPrefixAt(s: string, k: nat)
    requires k < |s| && AllWordChars(s[..k]) && !IsWordChar(s[k])
    ensures WordPrefixLength(s) == k
  {
  }

  lemma BoldWordPrefix()
    ensures WordPrefixLength("Bold-webfont.ttf") == 4
  {
    var s := "Bold-webfont.ttf";
    assert s[..4] == "Bold";
    WordPrefixAt(s, 4);
  }

  /** "Bold-webfont.ttf" reads as the weight word "Bold" and the webfont marker. */
  lemma BoldWebfontReading()
    ensures var c := Captures(None, None, Some("Bold"), false, None, Some("-webfont"), "ttf");
      WellFormed(c) && Render(c) == "Bold-webfont.ttf"
  {
    var c := Captures(None, None, Some("Bold"), false, None, Some("-webfont"), "ttf");
    LowerBold();
    LowerWebfont();
    assert Render(c) == "" + ("" + ("Bold" + ("" + "" + ("-webfont" + ".ttf"))));
  }

  /** The family group takes "Bold", the rest "webfont.ttf" fails, and the engine falls
      back on the reading without a family. */
  lemma BoldWebfontMatch()
    ensures MatchFilename("Bold-webfont.ttf")
         == Some(Captures(None, None, Some("Bold"), false, None, Some("-webfont"), "ttf"))
  {
    var s := "Bold-webfont.ttf";
    var c := Captures(None, None, Some("Bold"), false, None, Some("-webfont"), "ttf");
    BoldWebfontReading();
    BoldWordPrefix();
    assert s[5..] == "webfont.ttf";
    WebfontTailUnmatched();
    assert MatchFilename(s) == MatchTail(s);
    MatchFilenameComplete(c);
  }

  /** Hence "Bold-webfont.ttf" has no family and weight 700. */
  lemma BoldWebfontSheet()
    ensures SheetFor(Captures(None, None, Some("Bold"), false, None, Some("-webfont"), "ttf"), None)
         == FontSheet(None, 700, "normal")
  {
    LowerBold();
  }

  lemma BoldWebfontHasNoFamily()
    ensures Infer("Bold-webfont.ttf", None) == Some(FontSheet(None, 700, "normal"))
  {
    NoSlashKeepsName("Bold-webfont.ttf", None);
    BoldWebfontMatch();
    BoldWebfontSheet();
  }

  // ---------------------------------------------------------------------------------
  // An intensity written with a capital

  lemma LowerSemi()
    ensures Lower("Semi") == "semi"
  {
    assert forall i :: 0 <= i < 4 ==> Lower("Semi")[i] == "semi"[i];
  }

  /** "Roboto-SemiBold.ttf" reads as family "Roboto", intensity "Semi" and weight "Bold". */
  lemma SemiBoldReading()
    ensures var c := Captures(Some("Roboto"), Some("Semi"), Some("Bold"), false, None, None, "ttf");
      WellFormed(c) && Render(c) == "Roboto-SemiBold.ttf"
  {
    var c := Captures(Some("Roboto"), Some("Semi"), Some("Bold"), false, None, None, "ttf");
    LowerSemi();
    LowerBold();
    assert Render(c) == "Roboto-" + ("Semi" + ("Bold" + ("" + "" + ("" + ".ttf"))));
  }

  /** As written, the capitalised intensity is not recognised and the weight stays 700. */
  lemma SemiBoldAsWritten()
    ensures Infer("Roboto-SemiBold.ttf", None) == Some(FontSheet(Some("Roboto"), 700, "normal"))
  {
    NoSlashKeepsName("Roboto-SemiBold.ttf", None);
    SemiBoldReading();
    MatchFilenameComplete(Captures(Some("Roboto"), Some("Semi"), Some("Bold"), false, None, None, "ttf"));
    SemiBoldSheet();
  }

  lemma SemiBoldSheet()
    ensures SheetFor(Captures(Some("Roboto"), Some("Semi"), Some("Bold"), false, None, None, "ttf"), None)
         == FontSheet(Some("Roboto"), 700, "normal")
  {
    IntensityCaseSensitive();
  }

  /** With the intensity folded, the same name gets the semi-bold weight 600. */
  lemma SemiBoldFolded()
    ensures InferFolded("Roboto-SemiBold.ttf", None) == Some(FontSheet(Some("Roboto"), 600, "normal"))
  {
    NoSlashKeepsName("Roboto-SemiBold.ttf", None);
    SemiBoldReading();
    MatchFilenameComplete(Captures(Some("Roboto"), Some("Semi"), Some("Bold"), false, None, None, "ttf"));
    SemiBoldFoldedSheet();
  }

  lemma SemiBoldFoldedSheet()
    ensures SheetForFolded(Captures(Some("Roboto"), Some("Semi"), Some("Bold"), false, None, None, "ttf"), None)
         == FontSheet(Some("Roboto"), 600, "normal")
  {
    LowerSemi();
    IntensityCaseSensitive();
  }
}
