/** One `@font-face` rule per font file: the plugin maps the file to a font sheet, lets a
    hook adjust the sheet, refuses a variant it has already emitted and a file type it has
    no MIME prefix for, and otherwise inlines the file as a base64 data URL. */
module FaceRules {
  import opened Wrappers
  import opened Text
  import Base64
  import opened Files
  import opened FontSheets
  import opened Inference

  /** The six file types the plugin can inline. */
  const KnownTypes: set<string> := {"woff", "woff2", "ttf", "otf", "svg", "eot"}

  /** A data-URL prefix announcing a base64 payload of type `mime`. */
  function DataUrl(mime: string): string {
    "data:" + mime + ";charset=utf-8;base64,"
  }

  /** A prefix that opens a data URL and ends in the comma after which the base64 text
      starts, holding no line feed. */
  predicate IsDataUrlPrefix(u: string) {
    |u| > 5 && u[..5] == "data:" && u[|u| - 1] == ',' && '\n' !in u
  }

  /** The MIME type of each file type the plugin can inline, None for any other. The
      lookup is on the extension exactly as found in the path: "WOFF" is not "woff". */
  function MimeType(ext: string): (r: Option<string>)
    ensures r.Some? <==> ext in KnownTypes
    ensures r.Some? ==> '\n' !in r.value
  {
    if ext == "woff" then Some("application/font-woff")
    else if ext == "woff2" then Some("application/font-woff2")
    else if ext == "ttf" then Some("application/x-font-truetype")
    else if ext == "otf" then Some("application/x-font-opentype")
    else if ext == "svg" then Some("image/svg+xml")
    else if ext == "eot" then Some("application/vnd.ms-fontobject")
    else None
  }

  lemma DataUrlShape(mime: string)
    requires '\n' !in mime
    ensures IsDataUrlPrefix(DataUrl(mime))
  {
  }

  /** The data-URL prefix for each file type the plugin can inline, None for any other. */
  function UrlBegin(ext: string): (r: Option<string>)
    ensures r.Some? <==> ext in KnownTypes
    ensures r.Some? ==> IsDataUrlPrefix(r.value)
  {
    match MimeType(ext)
    case None => None
    case Some(mime) => DataUrlShape(mime); Some(DataUrl(mime))
  }

  /** The plugin's options as given; `None` stands for an option left out or falsy. */
  datatype Options = Options(
    output: Option<string>,
    mapFile: Option<(string, FontFile) -> Option<FontSheet>>,
    modifyFontSheet: Option<FontSheet -> FontSheet>)

  /** The options with their defaults filled in. */
  datatype Config = Config(
    outputBase: string,
    mapping: (string, FontFile) -> Option<FontSheet>,
    hook: FontSheet -> FontSheet)

  /** The default mapping: `infer` on the file's base name, falling back on the name of
      the directory the file lies in. */
  function DefaultMapping(name: string, file: FontFile): Option<FontSheet> {
    Infer(name, Some(ParentDirName(file.path)))
  }

  /** The plugin's set-up: an empty `output` becomes "fonts", a missing `map` becomes
      `infer`, and a missing hook leaves sheets as they are. */
  function Configure(opt: Options): (cfg: Config)
    ensures cfg.outputBase != ""
    ensures opt.output.Some? && opt.output.value != "" ==> cfg.outputBase == opt.output.value
    ensures opt.output.None? || opt.output.value == "" ==> cfg.outputBase == "fonts"
    ensures opt.mapFile.Some? ==> cfg.mapping == opt.mapFile.value
    ensures opt.mapFile.None? ==> forall n, f :: cfg.mapping(n, f) == DefaultMapping(n, f)
    ensures opt.modifyFontSheet.Some? ==> cfg.hook == opt.modifyFontSheet.value
    ensures opt.modifyFontSheet.None? ==> forall s :: cfg.hook(s) == s
  {
    Config(if opt.output.Some? && opt.output.value != "" then opt.output.value else "fonts",
           if opt.mapFile.Some? then opt.mapFile.value else DefaultMapping,
           if opt.modifyFontSheet.Some? then opt.modifyFontSheet.value else (s: FontSheet) => s)
  }

  /** Why a file yields no rule; each reason carries the file's base name, as the log
      line the plugin writes does. */
  datatype Skip =
    | Unmapped(filename: string)
    | AlreadyProcessed(filename: string)
    | UnrecognisedType(filename: string)

  /** The parts of an emitted rule: the file's relative path (shown in a comment), the
      family as the template prints it, weight, style, and the two halves of the data URL. */
  datatype FaceRule = FaceRule(
    comment: string, family: string, weight: int, style: string,
    urlBegin: string, payload: string)

  function Src(rule: FaceRule): string {
    "url(" + rule.urlBegin + rule.payload + ")"
  }

  /** The lines of the rule's template: the opening, four declarations indented by four
      spaces (after a comment naming the file), `src` last, and the closing brace. */
  function RuleLines(rule: FaceRule): seq<string> {
    ["@font-face {",
     "    /* " + rule.comment + " */",
     "    font-family: \"" + rule.family + "\";",
     "    font-weight: " + IntToDecimal(rule.weight) + ";",
     "    font-style: " + rule.style + ";",
     "    src: " + Src(rule) + ";",
     "}"]
  }

  /** The rule's text: its template lines joined by line feeds. */
  function RenderRule(rule: FaceRule): (t: string)
    ensures |t| > 0 && t[0] == '@' && t[|t| - 1] == '}'
  {
    var ls := RuleLines(rule);
    assert ls[0][0] == '@' && ls[6] == "}";
    LinesEnd(ls);
    Lines(ls)
  }

  /** A rule whose fields hold no line feed, whose URL prefix ends in the comma and whose
      payload holds none: its text has one line per template line and its data URL
      splits at the last comma. */
  predicate RuleReadable(rule: FaceRule) {
    && '\n' !in rule.comment && '\n' !in rule.family && '\n' !in rule.style
    && '\n' !in rule.urlBegin && '\n' !in rule.payload
    && |rule.urlBegin| > 0 && rule.urlBegin[|rule.urlBegin| - 1] == ',' && ',' !in rule.payload
  }

  /** The fields of a rule read off its five inner lines; None when a line is not of the
      template's shape. */
  function ParseFields(comment: string, family: string, weight: string, style: string, src: string)
    : (r: Option<FaceRule>)
    ensures r.Some? ==> |r.value.urlBegin| > 0 && r.value.urlBegin[|r.value.urlBegin| - 1] == ','
    ensures r.Some? ==> ',' !in r.value.payload
  {
    var c := StripAround(comment, "    /* ", " */");
    var f := StripAround(family, "    font-family: \"", "\";");
    var w := StripAround(weight, "    font-weight: ", ";");
    var st := StripAround(style, "    font-style: ", ";");
    var sr := StripAround(src, "    src: ", ";");
    var url := if sr.Some? then StripAround(sr.value, "url(", ")") else None;
    if c.None? || f.None? || w.None? || st.None? || url.None? || ParseInt(w.value).None? then None
    else
      var i := LastIndexOf(url.value, ',');
      if i < 0 then None
      else Some(FaceRule(c.value, f.value, ParseInt(w.value).value, st.value, url.value[..i + 1], url.value[i + 1..]))
  }

  /** Reads a rule's text back: seven lines, the first and last the template's, the rest
      read by `ParseFields`. What it reads is readable. */
  function ParseRule(t: string): (r: Option<FaceRule>)
    ensures r.Some? ==> RuleReadable(r.value)
  {
    var ls := SplitLines(t);
    if |ls| != 7 || ls[0] != "@font-face {" || ls[6] != "}" then None
    else
      var r := ParseFields(ls[1], ls[2], ls[3], ls[4], ls[5]);
      if r.Some? then ReadFieldsReadable(ls[1], ls[2], ls[3], ls[4], ls[5]); r else r
  }

  /** Fields cut from lines without line feeds hold none. */
  lemma ReadFieldsReadable(comment: string, family: string, weight: string, style: string, src: string)
    requires '\n' !in comment && '\n' !in family && '\n' !in style && '\n' !in src
    requires ParseFields(comment, family, weight, style, src).Some?
    ensures RuleReadable(ParseFields(comment, family, weight, style, src).value)
  {
    var r := ParseFields(comment, family, weight, style, src).value;
    var sr := StripAround(src, "    src: ", ";").value;
    var url := StripAround(sr, "url(", ")").value;
    assert url == r.urlBegin + r.payload;
    assert '\n' !in sr && '\n' !in url;
  }

  /** A readable rule's text reads back as the rule. */
  lemma ParseRenderedRule(rule: FaceRule)
    requires RuleReadable(rule)
    ensures ParseRule(RenderRule(rule)) == Some(rule)
  {
    var ls := RuleLines(rule);
    RuleLinesPlain(rule);
    SplitJoinedLines(ls);
    ParseRuleFields(rule);
  }

  /** No template line of a readable rule holds a line feed. */
  lemma RuleLinesPlain(rule: FaceRule)
    requires RuleReadable(rule)
    ensures forall k :: 0 <= k < |RuleLines(rule)| ==> '\n' !in RuleLines(rule)[k]
  {
    var d := IntToDecimal(rule.weight);
    assert forall i :: 0 <= i < |d| ==> d[i] != '\n';
    assert '\n' !in Src(rule);
  }

  lemma ParseRuleFields(rule: FaceRule)
    requires RuleReadable(rule)
    ensures var ls := RuleLines(rule); ParseFields(ls[1], ls[2], ls[3], ls[4], ls[5]) == Some(rule)
  {
    StripAroundOf("    /* ", rule.comment, " */");
    StripAroundOf("    font-family: \"", rule.family, "\";");
    StripAroundOf("    font-weight: ", IntToDecimal(rule.weight), ";");
    StripAroundOf("    font-style: ", rule.style, ";");
    IntDecimalRoundTrip(rule.weight);
    SrcReadsBack(rule);
  }

  /** The `src` line gives back the data URL, which splits at its last comma into the
      prefix and the payload. */
  lemma SrcReadsBack(rule: FaceRule)
    requires |rule.urlBegin| > 0 && rule.urlBegin[|rule.urlBegin| - 1] == ',' && ',' !in rule.payload
    ensures var url := StripAround(RuleLines(rule)[5], "    src: ", ";");
      && url.Some? && StripAround(url.value, "url(", ")") == Some(rule.urlBegin + rule.payload)
    ensures var u, i := rule.urlBegin + rule.payload, LastIndexOf(rule.urlBegin + rule.payload, ',');
      u[..i + 1] == rule.urlBegin && u[i + 1..] == rule.payload
  {
    var u, p := rule.urlBegin, rule.payload;
    StripAroundOf("    src: ", Src(rule), ";");
    assert Src(rule) == "url(" + (u + p) + ")";
    StripAroundOf("url(", u + p, ")");
    SplitAfterLast(u, ',', p);
  }

  /** The sheet a file maps to once the hook has seen it, if the mapping gives one; the
      mapping sees the file's base name and the file. */
  function MappedSheet(cfg: Config, file: FontFile): (r: Option<FontSheet>)
    ensures r.None? <==> cfg.mapping(BaseName(file.path), file).None?
    ensures r.Some? ==> r.value == cfg.hook(cfg.mapping(BaseName(file.path), file).value)
  {
    match cfg.mapping(BaseName(file.path), file)
    case None => None
    case Some(s) => Some(cfg.hook(s))
  }

  /** `createFontFaceFromFile`: the checks run in the order mapping, duplicate key, known
      type; the first that fails decides the skip reason. */
  function CreateFontFace(cfg: Config, processed: seq<string>, file: FontFile): (r: Result<FaceRule, Skip>)
    ensures r.Err? ==> r.error.filename == BaseName(file.path)
    ensures r.Err? && r.error.Unmapped? <==> MappedSheet(cfg, file).None?
    ensures r.Err? && r.error.AlreadyProcessed?
        <==> MappedSheet(cfg, file).Some? && ProcessedKey(MappedSheet(cfg, file).value, ExtOf(file)) in processed
    ensures r.Err? && r.error.UnrecognisedType?
        <==> MappedSheet(cfg, file).Some? && ProcessedKey(MappedSheet(cfg, file).value, ExtOf(file)) !in processed
             && UrlBegin(ExtOf(file)).None?
    ensures r.Ok? ==>
      var s := MappedSheet(cfg, file).value;
      && r.value.comment == file.relative
      && r.value.family == FamilyText(s.family)
      && r.value.weight == s.weight
      && r.value.style == s.style
      && Some(r.value.urlBegin) == UrlBegin(ExtOf(file))
      && Base64.Decode(r.value.payload) == Some(file.contents)
      && Base64.IsEncodedText(r.value.payload)
  {
    var name := BaseName(file.path);
    var ext := ExtOf(file);
    match MappedSheet(cfg, file)
    case None => Err(Unmapped(name))
    case Some(s) =>
      if ProcessedKey(s, ext) in processed then Err(AlreadyProcessed(name))
      else if UrlBegin(ext).None? then Err(UnrecognisedType(name))
      else
        Base64.DecodeEncode(file.contents);
        Ok(FaceRule(file.relative, FamilyText(s.family), s.weight, s.style,
                    UrlBegin(ext).value, Base64.Encode(file.contents)))
  }

  /** The payload of an accepted rule is the one text that decodes to the file's bytes:
      the canonical base64 that `toString('base64')` writes. */
  lemma PayloadIsCanonical(cfg: Config, processed: seq<string>, file: FontFile, s: string)
    requires CreateFontFace(cfg, processed, file).Ok?
    ensures Base64.Decode(s) == Some(file.contents) <==> s == CreateFontFace(cfg, processed, file).value.payload
  {
    var p := CreateFontFace(cfg, processed, file).value.payload;
    Base64.EncodeDecode(p, file.contents);
    if Base64.Decode(s) == Some(file.contents) {
      Base64.EncodeDecode(s, file.contents);
    }
  }

  /** With no options a file maps to what `infer` reads from its base name, the parent
      directory standing in for a missing family. */
  lemma DefaultMappedSheet(file: FontFile)
    ensures MappedSheet(Configure(Options(None, None, None)), file)
         == Infer(BaseName(file.path), Some(ParentDirName(file.path)))
  {
  }

  /** A hook given as an option sees every sheet the mapping gives. */
  lemma HookedMappedSheet(opt: Options, file: FontFile)
    requires opt.mapFile.None? && opt.modifyFontSheet.Some?
    ensures var s := Infer(BaseName(file.path), Some(ParentDirName(file.path)));
      MappedSheet(Configure(opt), file) == if s.Some? then Some(opt.modifyFontSheet.value(s.value)) else None
  {
  }

  /** A rule built from a file whose relative path, family text and style hold no line
      feed is readable: its text reads back as the rule. */
  lemma CreatedRuleReadable(cfg: Config, processed: seq<string>, file: FontFile)
    requires CreateFontFace(cfg, processed, file).Ok?
    requires '\n' !in file.relative
    requires '\n' !in FamilyText(MappedSheet(cfg, file).value.family) && '\n' !in MappedSheet(cfg, file).value.style
    ensures RuleReadable(CreateFontFace(cfg, processed, file).value)
    ensures ParseRule(RenderRule(CreateFontFace(cfg, processed, file).value)) == Some(CreateFontFace(cfg, processed, file).value)
  {
    var r := CreateFontFace(cfg, processed, file).value;
    Base64.EncodedTextPlain(r.payload);
    ParseRenderedRule(r);
  }

  /** With the default options the rule's family, weight and style are those `infer`
      reads from the base name (the parent directory standing in for a missing family). */
  lemma DefaultFaceFollowsInfer(processed: seq<string>, file: FontFile)
    requires CreateFontFace(Configure(Options(None, None, None)), processed, file).Ok?
    ensures var s := Infer(BaseName(file.path), Some(ParentDirName(file.path)));
      var rule := CreateFontFace(Configure(Options(None, None, None)), processed, file).value;
      && s.Some?
      && rule.family == FamilyText(s.value.family)
      && rule.weight == s.value.weight
      && rule.style == s.value.style
  {
  }

  /** Whether a file yields a rule does not depend on its contents, and the rule's data
      URL is the only part the contents shape. */
  lemma ContentsOnlyShapePayload(cfg: Config, processed: seq<string>, a: FontFile, b: FontFile)
    requires a.path == b.path && a.relative == b.relative
    requires MappedSheet(cfg, a) == MappedSheet(cfg, b)
    ensures CreateFontFace(cfg, processed, a).Ok? <==> CreateFontFace(cfg, processed, b).Ok?
    ensures CreateFontFace(cfg, processed, a).Ok? ==>
      CreateFontFace(cfg, processed, a).value.(payload := "") == CreateFontFace(cfg, processed, b).value.(payload := "")
  {
  }

  /** The `src` declaration closes the rule: the data URL sits at a fixed distance from
      the end of the text, where it can be read back off. */
  lemma RenderedRuleEndsWithSrc(rule: FaceRule)
    ensures var t := RenderRule(rule); var tail := "    src: " + Src(rule) + ";\n}";
      |tail| <= |t| && t[|t| - |tail|..] == tail
  {
    ClosingLines(RuleLines(rule), "    src: " + Src(rule));
  }

  /** Lines ending in `x;` and `}` join to a text ending in `x;`, a line feed and `}`. */
  lemma ClosingLines(ls: seq<string>, x: string)
    requires |ls| >= 2 && ls[|ls| - 2] == x + ";" && ls[|ls| - 1] == "}"
    ensures var t, tail := Lines(ls), x + ";\n}"; |tail| <= |t| && t[|t| - |tail|..] == tail
  {
    var k := |ls| - 2;
    LinesSuffix(ls, k);
    assert ls[k..] == [ls[k], ls[k + 1]];
    LinesCons(ls[k..]);
    assert ls[k..][1..] == [ls[k + 1]];
    assert Lines([ls[k + 1]]) == ls[k + 1];
    var u := Lines(ls[k..]);
    assert u == ls[k] + ['\n'] + ls[k + 1];
    LastLineBreak(x);
    assert u == x + ";\n}";
  }

  lemma LastLineBreak(x: string)
    ensures x + ";\n}" == (x + ";") + ['\n'] + "}"
  {
  }
}
