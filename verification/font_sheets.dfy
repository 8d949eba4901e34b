/** `FontSheet`: the family, weight and style a font file stands for, and the identifier
    strings built from it. */
module FontSheets {
  import opened Wrappers
  import opened Text

  /** The family is a JavaScript value that may be `undefined` (no family group and no
      parent directory); weight and style are always set. */
  datatype FontSheet = FontSheet(family: Option<string>, weight: int, style: string)

  /** The constructor: a falsy weight (absent or 0) becomes 400 and a falsy style (absent
      or empty) becomes "normal"; the family is stored as given. */
  function NewFontSheet(family: Option<string>, weight: Option<int>, style: Option<string>): (s: FontSheet)
    ensures s.family == family
    ensures s.weight != 0 && s.style != ""
    ensures weight.Some? && weight.value != 0 ==> s.weight == weight.value
    ensures weight.None? || weight.value == 0 ==> s.weight == 400
    ensures style.Some? && style.value != "" ==> s.style == style.value
    ensures style.None? || style.value == "" ==> s.style == "normal"
  {
    FontSheet(family,
              if weight.None? || weight.value == 0 then 400 else weight.value,
              if style.None? || style.value == "" then "normal" else style.value)
  }

  /** How JavaScript string concatenation renders the family. */
  function FamilyText(family: Option<string>): string {
    if family.Some? then family.value else "undefined"
  }

  /** `getIdentifierString`: the family text, then the weight and the style each in
      parentheses; it opens with the family and '(' and closes with the parenthesised style. */
  function IdentifierString(s: FontSheet): (r: string)
    ensures var f := FamilyText(s.family);
      && |r| > |f| + |s.style| + 2
      && r[..|f| + 1] == f + "("
      && r[|r| - |s.style| - 2..] == "(" + s.style + ")"
  {
    var f := FamilyText(s.family);
    var r := f + "(" + IntToDecimal(s.weight) + ")(" + s.style + ")";
    assert r[..|f| + 1] == f + "(";
    assert r[|r| - |s.style| - 2..] == "(" + s.style + ")";
    r
  }

  /** The key the duplicate guard looks up: the identifier followed by `(ext)`. When the
      family has no '(' and the style no ')', the key reads back into the family text,
      weight, style and extension it was built from. */
  function ProcessedKey(s: FontSheet, ext: string): (k: string)
    ensures KeyReadable(s) ==> ParseKey(k) == Some(KeyParts(FamilyText(s.family), s.weight, s.style, ext))
  {
    if KeyReadable(s) then
      KeyReadsBack(s, ext);
      IdentifierString(s) + "(" + ext + ")"
    else IdentifierString(s) + "(" + ext + ")"
  }

  lemma KeyReadsBack(s: FontSheet, ext: string)
    requires KeyReadable(s)
    ensures ParseKey(IdentifierString(s) + "(" + ext + ")") == Some(KeyParts(FamilyText(s.family), s.weight, s.style, ext))
  {
    var k := IdentifierString(s) + "(" + ext + ")";
    var f := FamilyText(s.family);
    var r := IntToDecimal(s.weight) + ")(" + s.style + ")(" + ext + ")";
    assert k == f + ['('] + r;
    IndexOfAfterPrefix(f, '(', r);
    ParseWeightStyleAndExt(f, s.weight, s.style, ext);
  }

  datatype KeyParts = KeyParts(family: string, weight: int, style: string, ext: string)

  /** Reads a key back: the family runs to the first '(', the weight and the style each to
      the next ')', and the extension is the rest inside the final parentheses. */
  function ParseKey(k: string): Option<KeyParts> {
    var i := IndexOf(k, '(');
    if i < 0 then None else ParseAfterFamily(k[..i], k[i + 1..])
  }

  function ParseAfterFamily(family: string, r: string): Option<KeyParts> {
    var j := IndexOf(r, ')');
    if j < 0 || ParseInt(r[..j]).None? then None
    else
      var rest := r[j + 1..];
      if |rest| == 0 || rest[0] != '(' then None
      else ParseAfterWeight(family, ParseInt(r[..j]).value, rest[1..])
  }

  function ParseAfterWeight(family: string, weight: int, r: string): Option<KeyParts> {
    var m := IndexOf(r, ')');
    if m < 0 then None
    else
      var rest := r[m + 1..];
      if |rest| < 2 || rest[0] != '(' || rest[|rest| - 1] != ')' then None
      else Some(KeyParts(family, weight, r[..m], rest[1..|rest| - 1]))
  }

  /** A family text without '(' and a style without ')' leave the key unambiguous. */
  predicate KeyReadable(s: FontSheet) {
    '(' !in FamilyText(s.family) && ')' !in s.style
  }

  lemma ParenFreeDecimal(n: int)
    ensures ')' !in IntToDecimal(n)
  {
    var d := IntToDecimal(n);
    forall i | 0 <= i < |d|
      ensures d[i] != ')'
    {
    }
  }

  lemma ParseStyleAndExt(family: string, weight: int, style: string, ext: string)
    requires ')' !in style
    ensures ParseAfterWeight(family, weight, style + ")(" + ext + ")") == Some(KeyParts(family, weight, style, ext))
  {
    var rest := "(" + ext + ")";
    assert style + ")(" + ext + ")" == style + [')'] + rest;
    IndexOfAfterPrefix(style, ')', rest);
    assert rest[1..|rest| - 1] == ext;
  }

  /** A weight field that reads as `weight` hands the rest of the key on to the style field. */
  lemma ParseWeightField(family: string, w: string, weight: int, t: string)
    requires ')' !in w && ParseInt(w) == Some(weight)
    ensures ParseAfterFamily(family, w + [')'] + ("(" + t)) == ParseAfterWeight(family, weight, t)
  {
    IndexOfAfterPrefix(w, ')', "(" + t);
    assert ("(" + t)[1..] == t;
  }

  lemma ParseWeightStyleAndExt(family: string, weight: int, style: string, ext: string)
    requires ')' !in style
    ensures ParseAfterFamily(family, IntToDecimal(weight) + ")(" + style + ")(" + ext + ")")
         == Some(KeyParts(family, weight, style, ext))
  {
    var w := IntToDecimal(weight);
    var t := style + ")(" + ext + ")";
    assert w + ")(" + style + ")(" + ext + ")" == w + [')'] + ("(" + t);
    ParenFreeDecimal(weight);
    IntDecimalRoundTrip(weight);
    ParseWeightField(family, w, weight, t);
    ParseStyleAndExt(family, weight, style, ext);
  }

  /** Two readable sheets get the same key exactly when they agree on family text, weight,
      style and extension: the key identifies a font variant in one format. */
  lemma ProcessedKeyInjective(a: FontSheet, ea: string, b: FontSheet, eb: string)
    requires KeyReadable(a) && KeyReadable(b)
    ensures ProcessedKey(a, ea) == ProcessedKey(b, eb)
        <==> FamilyText(a.family) == FamilyText(b.family) && a.weight == b.weight
             && a.style == b.style && ea == eb
  {
  }

  /** The same holds of the identifier string alone. */
  lemma IdentifierStringInjective(a: FontSheet, b: FontSheet)
    requires KeyReadable(a) && KeyReadable(b)
    ensures IdentifierString(a) == IdentifierString(b)
        <==> FamilyText(a.family) == FamilyText(b.family) && a.weight == b.weight && a.style == b.style
  {
    ProcessedKeyInjective(a, "", b, "");
  }
}
