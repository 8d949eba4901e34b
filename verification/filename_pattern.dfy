/** The filename pattern of `FontSheet.infer`, a case-insensitive regular expression with
    an optional `word-` family group, then optional intensity, weight name and (optionally
    hyphenated) style groups, an optional `-webfont` marker, and a `.word` extension.

    Its language is stated by `WellFormed` and `Render`: a filename matches exactly when it
    is the rendering of some well-formed capture record. `MatchFilename` is the matcher,
    written to follow the regular-expression engine's priority: the family group is tried
    first, and dropped only when the rest of the name then fails to match. */
module FilenamePattern {
  import opened Wrappers
  import opened Text

  const Intensities: seq<string> := ["semi", "extra", "ultra"]
  const WeightNames: seq<string> := ["bold", "black", "medium", "regular", "roman", "thin", "light"]
  const StyleNames: seq<string> := ["italic", "oblique"]
  const WebfontMarker: seq<string> := ["-webfont"]

  /** One match of the pattern: the four capture groups as the text they matched (so in
      the filename's own case), and the pieces the pattern consumes without capturing. */
  datatype Captures = Captures(
    name: Option<string>,      // group 1, the family
    climax: Option<string>,    // group 2, the intensity
    weight: Option<string>,    // group 3, the weight name
    styleDash: bool,           // the optional '-' in front of group 4
    style: Option<string>,     // group 4, the style
    webfont: Option<string>,   // the optional "-webfont"
    ext: string)               // the word after the final '.'

  /** A record with nothing captured; the matcher fills it in group by group. */
  const Blank := Captures(None, None, None, false, None, None, "")

  predicate NameOk(c: Captures) {
    c.name.Some? ==> |c.name.value| > 0 && AllWordChars(c.name.value)
  }

  predicate ClimaxOk(c: Captures) {
    c.climax.Some? ==> Lower(c.climax.value) in Intensities
  }

  predicate WeightOk(c: Captures) {
    c.weight.Some? ==> Lower(c.weight.value) in WeightNames
  }

  predicate StyleOk(c: Captures) {
    && (c.style.Some? ==> Lower(c.style.value) in StyleNames)
    && (c.style.None? ==> !c.styleDash)
  }

  predicate WebfontOk(c: Captures) {
    c.webfont.Some? ==> Lower(c.webfont.value) in WebfontMarker
  }

  predicate ExtOk(c: Captures) {
    |c.ext| > 0 && AllWordChars(c.ext)
  }

  predicate WellFormed(c: Captures) {
    NameOk(c) && ClimaxOk(c) && WeightOk(c) && StyleOk(c) && WebfontOk(c) && ExtOk(c)
  }

  function Piece(t: Option<string>): string {
    if t.Some? then t.value else ""
  }

  function RenderExt(c: Captures): string {
    "." + c.ext
  }

  function RenderWebfont(c: Captures): string {
    Piece(c.webfont) + RenderExt(c)
  }

  function RenderStyle(c: Captures): string {
    (if c.styleDash then "-" else "") + Piece(c.style) + RenderWebfont(c)
  }

  function RenderWeight(c: Captures): string {
    Piece(c.weight) + RenderStyle(c)
  }

  function RenderClimax(c: Captures): string {
    Piece(c.climax) + RenderWeight(c)
  }

  /** The filename a capture record describes. */
  function Render(c: Captures): string {
    (if c.name.Some? then c.name.value + "-" else "") + RenderClimax(c)
  }

  /** The filenames the pattern accepts. */
  ghost predicate Matches(s: string) {
    exists c :: WellFormed(c) && Render(c) == s
  }

  // ---------------------------------------------------------------------------------
  // The matcher

  /** The first of `words` that `s` begins with, ignoring case, as the text of `s` it
      covers; None when `s` begins with none of them. */
  function TakeToken(s: string, words: seq<string>): (r: Option<string>)
    ensures r.Some? ==> |r.value| <= |s| && r.value == s[..|r.value|] && Lower(r.value) in words
    ensures r.None? ==> forall w :: w in words ==> !StartsWithIgnoringCase(s, w)
    decreases |words|
  {
    if |words| == 0 then None
    else if StartsWithIgnoringCase(s, words[0]) then Some(s[..|words[0]|])
    else TakeToken(s, words[1..])
  }

  function Rest(s: string, t: Option<string>): string
    requires t.Some? ==> |t.value| <= |s|
  {
    if t.Some? then s[|t.value|..] else s
  }

  lemma PieceRest(s: string, t: Option<string>)
    requires t.Some? ==> |t.value| <= |s| && t.value == s[..|t.value|]
    ensures s == Piece(t) + Rest(s, t)
  {
  }

  /** `\.\w+$` */
  function MatchExt(s: string, acc: Captures): (r: Option<Captures>)
    ensures r.Some? ==> r.value == acc.(ext := r.value.ext) && ExtOk(r.value) && RenderExt(r.value) == s
  {
    if |s| >= 2 && s[0] == '.' && AllWordChars(s[1..]) then Some(acc.(ext := s[1..])) else None
  }

  /** `(?:\-webfont)?` and what follows. */
  function MatchWebfont(s: string, acc: Captures): (r: Option<Captures>)
    ensures r.Some? ==> r.value == acc.(webfont := r.value.webfont, ext := r.value.ext)
    ensures r.Some? ==> WebfontOk(r.value) && ExtOk(r.value) && RenderWebfont(r.value) == s
  {
    var t := TakeToken(s, WebfontMarker);
    var r := MatchExt(Rest(s, t), acc.(webfont := t));
    PieceRest(s, t);
    r
  }

  /** `\-(italic|oblique)` and what follows. */
  function MatchDashedStyle(s: string, acc: Captures): (r: Option<Captures>)
    requires |s| > 0 && s[0] == '-'
    ensures r.Some? ==> r.value == acc.(styleDash := true, style := r.value.style,
                                        webfont := r.value.webfont, ext := r.value.ext)
    ensures r.Some? ==> r.value.style.Some? && StyleOk(r.value) && WebfontOk(r.value) && ExtOk(r.value)
    ensures r.Some? ==> RenderStyle(r.value) == s
  {
    var t := TakeToken(s[1..], StyleNames);
    if t.None? then None
    else
      var r := MatchWebfont(Rest(s[1..], t), acc.(styleDash := true, style := t));
      if r.Some? then DashedStyleRender(s, t, r.value); r else r
  }

  lemma DashedStyleRender(s: string, t: Option<string>, c: Captures)
    requires |s| > 0 && s[0] == '-'
    requires t.Some? && |t.value| <= |s[1..]| && t.value == s[1..][..|t.value|]
    requires c.styleDash && c.style == t && RenderWebfont(c) == Rest(s[1..], t)
    ensures RenderStyle(c) == s
  {
    PieceRest(s[1..], t);
    assert s == "-" + s[1..];
  }

  lemma PlainStyleRender(c: Captures)
    requires !c.styleDash
    ensures RenderStyle(c) == Piece(c.style) + RenderWebfont(c)
  {
    assert "" + Piece(c.style) == Piece(c.style);
  }

  /** `(italic|oblique)?` with no '-' in front, and what follows. */
  function MatchPlainStyle(s: string, acc: Captures): (r: Option<Captures>)
    ensures r.Some? ==> r.value == acc.(styleDash := false, style := r.value.style,
                                        webfont := r.value.webfont, ext := r.value.ext)
    ensures r.Some? ==> StyleOk(r.value) && WebfontOk(r.value) && ExtOk(r.value)
    ensures r.Some? ==> RenderStyle(r.value) == s
  {
    var t := TakeToken(s, StyleNames);
    var r := MatchWebfont(Rest(s, t), acc.(styleDash := false, style := t));
    PieceRest(s, t);
    if r.Some? then PlainStyleRender(r.value); r else r
  }

  /** `(?:\-?(italic|oblique))?` and what follows; the optional '-' is tried first. */
  function MatchStyle(s: string, acc: Captures): (r: Option<Captures>)
    ensures r.Some? ==> r.value == acc.(styleDash := r.value.styleDash, style := r.value.style,
                                        webfont := r.value.webfont, ext := r.value.ext)
    ensures r.Some? ==> StyleOk(r.value) && WebfontOk(r.value) && ExtOk(r.value) && RenderStyle(r.value) == s
  {
    if |s| > 0 && s[0] == '-' && MatchDashedStyle(s, acc).Some? then MatchDashedStyle(s, acc)
    else MatchPlainStyle(s, acc)
  }

  /** `(bold|black|medium|regular|roman|thin|light)?` and what follows. */
  function MatchWeight(s: string, acc: Captures): (r: Option<Captures>)
    ensures r.Some? ==> r.value == acc.(weight := r.value.weight, styleDash := r.value.styleDash,
                                        style := r.value.style, webfont := r.value.webfont, ext := r.value.ext)
    ensures r.Some? ==> WeightOk(r.value) && StyleOk(r.value) && WebfontOk(r.value) && ExtOk(r.value)
    ensures r.Some? ==> RenderWeight(r.value) == s
  {
    var t := TakeToken(s, WeightNames);
    var r := MatchStyle(Rest(s, t), acc.(weight := t));
    PieceRest(s, t);
    r
  }

  /** `(semi|extra|ultra)?` and what follows. */
  function MatchClimax(s: string, acc: Captures): (r: Option<Captures>)
    ensures r.Some? ==> r.value.name == acc.name
    ensures r.Some? ==> ClimaxOk(r.value) && WeightOk(r.value) && StyleOk(r.value) && WebfontOk(r.value) && ExtOk(r.value)
    ensures r.Some? ==> RenderClimax(r.value) == s
  {
    var t := TakeToken(s, Intensities);
    var r := MatchWeight(Rest(s, t), acc.(climax := t));
    PieceRest(s, t);
    r
  }

  /** The pattern without its family group. */
  function MatchTail(s: string): (r: Option<Captures>)
    ensures r.Some? ==> r.value.name.None? && WellFormed(r.value) && Render(r.value) == s
  {
    MatchClimax(s, Blank)
  }

  /** Length of the longest prefix of word characters. */
  function WordPrefixLength(s: string): (k: nat)
    ensures k <= |s| && AllWordChars(s[..k])
    ensures k < |s| ==> !IsWordChar(s[k])
  {
    if |s| == 0 || !IsWordChar(s[0]) then 0
    else
      var k := WordPrefixLength(s[1..]);
      assert s[..k + 1] == [s[0]] + s[1..][..k];
      k + 1
  }

  /** Prefixing a family group to a record without one. */
  lemma WithName(c: Captures, n: string)
    requires c.name.None? && WellFormed(c)
    requires |n| > 0 && AllWordChars(n)
    ensures WellFormed(c.(name := Some(n)))
    ensures Render(c.(name := Some(n))) == n + "-" + Render(c)
  {
  }

  /** The whole pattern. `(\w+)\-` can only be the word-character prefix that ends at the
      first non-word character, and only when that character is '-'; if the rest of the
      name does not match after it, the engine retries with no family group. */
  function MatchFilename(s: string): (r: Option<Captures>)
    ensures r.Some? ==> WellFormed(r.value) && Render(r.value) == s
  {
    var k := WordPrefixLength(s);
    if 0 < k < |s| && s[k] == '-' then
      match MatchTail(s[k + 1..])
      case Some(c) =>
        WithName(c, s[..k]);
        SplitAt(s, k);
        Some(c.(name := Some(s[..k])))
      case None => MatchTail(s)
    else MatchTail(s)
  }

  // ---------------------------------------------------------------------------------
  // Completeness: the matcher finds every well-formed record's rendering

  /** No word of the list is a prefix of a different one. */
  predicate PrefixFree(words: seq<string>) {
    forall w1, w2 :: w1 in words && w2 in words && w1 <= w2 ==> w1 == w2
  }

  /** Every word of the list has two characters, and no two words share both. */
  predicate TwoLetterKeyed(words: seq<string>) {
    && (forall i :: 0 <= i < |words| ==> |words[i]| >= 2)
    && (forall i, j :: 0 <= i < j < |words| ==> words[i][0] != words[j][0] || words[i][1] != words[j][1])
  }

  lemma TwoLetterKeyedPrefixFree(words: seq<string>)
    requires TwoLetterKeyed(words)
    ensures PrefixFree(words)
  {
    forall w1, w2 | w1 in words && w2 in words && w1 <= w2
      ensures w1 == w2
    {
      var i :| 0 <= i < |words| && words[i] == w1;
      var j :| 0 <= j < |words| && words[j] == w2;
      assert w1[0] == w2[0] && w1[1] == w2[1];
      assert !(i < j) && !(j < i);
    }
  }

  lemma TokenListsPrefixFree()
    ensures PrefixFree(Intensities) && PrefixFree(WeightNames)
    ensures PrefixFree(StyleNames) && PrefixFree(WebfontMarker)
  {
    TwoLetterKeyedPrefixFree(Intensities);
    WeightNamesPrefixFree();
    TwoLetterKeyedPrefixFree(StyleNames);
    TwoLetterKeyedPrefixFree(WebfontMarker);
  }

  lemma WeightNamesKeyed()
    ensures TwoLetterKeyed(WeightNames)
  {
  }

  lemma WeightNamesPrefixFree()
    ensures PrefixFree(WeightNames)
  {
    WeightNamesKeyed();
    TwoLetterKeyedPrefixFree(WeightNames);
  }

  lemma LowerPrefix(s: string, k: nat)
    requires k <= |s|
    ensures Lower(s[..k]) == Lower(s)[..k]
  {
  }

  /** A token followed by anything is taken whole. */
  lemma TakeTokenExact(t: string, rest: string, words: seq<string>)
    requires Lower(t) in words && PrefixFree(words)
    ensures TakeToken(t + rest, words) == Some(t)
  {
    var s := t + rest;
    assert s[..|t|] == t;
    assert StartsWithIgnoringCase(s, Lower(t));
    var u := TakeToken(s, words).value;
    LowerPrefix(s, |t|);
    LowerPrefix(s, |u|);
    assert Lower(t) <= Lower(s) && Lower(u) <= Lower(s);
    assert Lower(t) <= Lower(u) || Lower(u) <= Lower(t);
    assert Lower(u) == Lower(t);
  }

  /** A string whose first character cannot begin any of the words yields no token. */
  lemma TakeTokenHeadMismatch(s: string, words: seq<string>)
    requires |s| > 0
    requires forall w :: w in words ==> |w| > 0 && w[0] != LowerChar(s[0])
    ensures TakeToken(s, words) == None
  {
  }

  lemma LowerCharIsDash(c: char)
    requires LowerChar(c) == '-'
    ensures c == '-'
  {
  }

  /** What a rendering can begin with once the style group has been reached. */
  lemma RenderStyleHead(c: Captures)
    requires StyleOk(c) && WebfontOk(c) && ExtOk(c)
    ensures |RenderStyle(c)| > 0
    ensures LowerChar(RenderStyle(c)[0]) in {'-', '.', 'i', 'o'}
    ensures RenderStyle(c)[0] == '-' <==> c.styleDash || (c.style.None? && c.webfont.Some?)
  {
    if c.style.Some? && !c.styleDash {
      var t := c.style.value;
      assert Lower(t)[0] == LowerChar(t[0]);
      assert RenderStyle(c)[0] == t[0];
    } else if c.style.None? && c.webfont.Some? {
      var t := c.webfont.value;
      assert Lower(t)[0] == LowerChar(t[0]);
      LowerCharIsDash(t[0]);
      assert RenderStyle(c)[0] == t[0];
    }
  }

  lemma RenderWeightHead(c: Captures)
    requires WeightOk(c) && StyleOk(c) && WebfontOk(c) && ExtOk(c)
    ensures |RenderWeight(c)| > 0
    ensures LowerChar(RenderWeight(c)[0]) in {'-', '.', 'i', 'o', 'b', 'm', 'r', 't', 'l'}
  {
    RenderStyleHead(c);
    if c.weight.Some? {
      var t := c.weight.value;
      assert Lower(t)[0] == LowerChar(t[0]);
      assert RenderWeight(c)[0] == t[0];
    }
  }

  lemma RenderClimaxHead(c: Captures)
    requires ClimaxOk(c) && WeightOk(c) && StyleOk(c) && WebfontOk(c) && ExtOk(c)
    ensures |RenderClimax(c)| > 0
    ensures LowerChar(RenderClimax(c)[0]) in {'-', '.', 'i', 'o', 'b', 'm', 'r', 't', 'l', 's', 'e', 'u'}
  {
    RenderWeightHead(c);
    if c.climax.Some? {
      var t := c.climax.value;
      assert Lower(t)[0] == LowerChar(t[0]);
      assert RenderClimax(c)[0] == t[0];
    }
  }

  lemma MatchExtComplete(c: Captures, acc: Captures)
    requires ExtOk(c)
    ensures MatchExt(RenderExt(c), acc) == Some(acc.(ext := c.ext))
  {
    assert RenderExt(c)[1..] == c.ext;
  }

  lemma MatchWebfontComplete(c: Captures, acc: Captures)
    requires WebfontOk(c) && ExtOk(c)
    ensures MatchWebfont(RenderWebfont(c), acc) == Some(acc.(webfont := c.webfont, ext := c.ext))
  {
    var s := RenderWebfont(c);
    TokenListsPrefixFree();
    if c.webfont.Some? {
      TakeTokenExact(c.webfont.value, RenderExt(c), WebfontMarker);
      assert s[|c.webfont.value|..] == RenderExt(c);
    } else {
      assert s == RenderExt(c);
      TakeTokenHeadMismatch(s, WebfontMarker);
    }
    MatchExtComplete(c, acc.(webfont := c.webfont));
  }

  lemma MatchDashedStyleComplete(c: Captures, acc: Captures)
    requires c.styleDash && StyleOk(c) && WebfontOk(c) && ExtOk(c)
    ensures MatchDashedStyle(RenderStyle(c), acc)
         == Some(acc.(styleDash := true, style := c.style, webfont := c.webfont, ext := c.ext))
  {
    var s := RenderStyle(c);
    var t := c.style.value;
    TokenListsPrefixFree();
    assert s[1..] == t + RenderWebfont(c);
    TakeTokenExact(t, RenderWebfont(c), StyleNames);
    assert s[1..][|t|..] == RenderWebfont(c);
    MatchWebfontComplete(c, acc.(styleDash := true, style := c.style));
  }

  lemma MatchPlainStyleComplete(c: Captures, acc: Captures)
    requires !c.styleDash && StyleOk(c) && WebfontOk(c) && ExtOk(c)
    ensures MatchPlainStyle(RenderStyle(c), acc)
         == Some(acc.(styleDash := false, style := c.style, webfont := c.webfont, ext := c.ext))
  {
    var s := RenderStyle(c);
    PlainStyleTokens(c);
    var acc' := acc.(styleDash := false, style := c.style);
    MatchWebfontComplete(c, acc');
    assert MatchWebfont(Rest(s, c.style), acc') == Some(acc'.(webfont := c.webfont, ext := c.ext));
  }

  lemma PlainStyleTokens(c: Captures)
    requires !c.styleDash && StyleOk(c) && WebfontOk(c) && ExtOk(c)
    ensures TakeToken(RenderStyle(c), StyleNames) == c.style
    ensures Rest(RenderStyle(c), c.style) == RenderWebfont(c)
  {
    var s := RenderStyle(c);
    PlainStyleRender(c);
    TokenListsPrefixFree();
    if c.style.Some? {
      TakeTokenExact(c.style.value, RenderWebfont(c), StyleNames);
      assert s[|c.style.value|..] == RenderWebfont(c);
    } else {
      RenderStyleHead(c);
      TakeTokenHeadMismatch(s, StyleNames);
    }
  }

  /** With no style captured, a leading '-' belongs to "-webfont", so the hyphenated
      style alternative finds no style word after it. */
  lemma DashedStyleFailsOnWebfont(c: Captures, acc: Captures)
    requires c.style.None? && c.webfont.Some? && StyleOk(c) && WebfontOk(c) && ExtOk(c)
    ensures |RenderStyle(c)| > 0 && RenderStyle(c)[0] == '-'
    ensures MatchDashedStyle(RenderStyle(c), acc).None?
  {
    var s := RenderStyle(c);
    var w := c.webfont.value;
    RenderStyleHead(c);
    PlainStyleRender(c);
    assert Lower(w)[1] == LowerChar(w[1]) == 'w';
    assert s[1..][0] == w[1];
    TakeTokenHeadMismatch(s[1..], StyleNames);
  }

  lemma MatchStyleComplete(c: Captures, acc: Captures)
    requires StyleOk(c) && WebfontOk(c) && ExtOk(c)
    ensures MatchStyle(RenderStyle(c), acc)
         == Some(acc.(styleDash := c.styleDash, style := c.style, webfont := c.webfont, ext := c.ext))
  {
    var s := RenderStyle(c);
    RenderStyleHead(c);
    if c.styleDash {
      MatchDashedStyleComplete(c, acc);
    } else {
      if s[0] == '-' {
        DashedStyleFailsOnWebfont(c, acc);
      }
      MatchPlainStyleComplete(c, acc);
    }
  }

  lemma MatchWeightComplete(c: Captures, acc: Captures)
    requires WeightOk(c) && StyleOk(c) && WebfontOk(c) && ExtOk(c)
    ensures MatchWeight(RenderWeight(c), acc)
         == Some(acc.(weight := c.weight, styleDash := c.styleDash, style := c.style,
                      webfont := c.webfont, ext := c.ext))
  {
    var s := RenderWeight(c);
    TokenListsPrefixFree();
    if c.weight.Some? {
      TakeTokenExact(c.weight.value, RenderStyle(c), WeightNames);
      assert s[|c.weight.value|..] == RenderStyle(c);
    } else {
      RenderStyleHead(c);
      assert s == RenderStyle(c);
      TakeTokenHeadMismatch(s, WeightNames);
    }
    MatchStyleComplete(c, acc.(weight := c.weight));
  }

  lemma MatchClimaxComplete(c: Captures, acc: Captures)
    requires ClimaxOk(c) && WeightOk(c) && StyleOk(c) && WebfontOk(c) && ExtOk(c)
    ensures MatchClimax(RenderClimax(c), acc)
         == Some(acc.(climax := c.climax, weight := c.weight, styleDash := c.styleDash,
                      style := c.style, webfont := c.webfont, ext := c.ext))
  {
    var s := RenderClimax(c);
    TokenListsPrefixFree();
    if c.climax.Some? {
      TakeTokenExact(c.climax.value, RenderWeight(c), Intensities);
      assert s[|c.climax.value|..] == RenderWeight(c);
    } else {
      RenderWeightHead(c);
      assert s == RenderWeight(c);
      TakeTokenHeadMismatch(s, Intensities);
    }
    MatchWeightComplete(c, acc.(climax := c.climax));
  }

  /** Without the family group the pattern reads back exactly the record rendered. */
  lemma MatchTailComplete(c: Captures)
    requires WellFormed(c) && c.name.None?
    ensures MatchTail(Render(c)) == Some(c)
  {
    MatchClimaxComplete(c, Blank);
    assert Render(c) == RenderClimax(c);
    assert Blank.(climax := c.climax, weight := c.weight, styleDash := c.styleDash,
                  style := c.style, webfont := c.webfont, ext := c.ext) == c;
  }

  lemma WordPrefixOfName(n: string, rest: string)
    requires |n| > 0 && AllWordChars(n)
    ensures WordPrefixLength(n + "-" + rest) == |n|
  {
    var s := n + "-" + rest;
    var m := WordPrefixLength(s);
    assert !IsWordChar(s[|n|]);
    assert forall i :: 0 <= i < m ==> IsWordChar(s[i]) by {
      forall i | 0 <= i < m
        ensures IsWordChar(s[i])
      {
        assert s[..m][i] == s[i];
      }
    }
    assert forall i :: 0 <= i < |n| ==> IsWordChar(s[i]) by {
      forall i | 0 <= i < |n|
        ensures IsWordChar(s[i])
      {
        assert s[i] == n[i];
      }
    }
  }

  /** Every rendering of a well-formed record matches. A record with a family group is
      read back exactly; one without is read back exactly unless the engine's preferred
      reading, with a family group, also succeeds. */
  lemma MatchFilenameComplete(c: Captures)
    requires WellFormed(c)
    ensures c.name.Some? ==> MatchFilename(Render(c)) == Some(c)
    ensures c.name.None? ==> MatchFilename(Render(c)).Some?
    ensures c.name.None? && MatchFilename(Render(c)).value.name.None? ==> MatchFilename(Render(c)) == Some(c)
  {
    var s := Render(c);
    if c.name.Some? {
      var n := c.name.value;
      var tail := c.(name := None);
      WordPrefixOfName(n, RenderClimax(c));
      assert s[|n| + 1..] == Render(tail);
      assert s[..|n|] == n;
      MatchTailComplete(tail);
    } else {
      MatchTailComplete(c);
    }
  }

  /** The matcher accepts exactly the filenames of the pattern's language. */
  lemma MatchFilenameIffMatches(s: string)
    ensures MatchFilename(s).Some? <==> Matches(s)
  {
    if Matches(s) {
      var c :| WellFormed(c) && Render(c) == s;
      MatchFilenameComplete(c);
    }
  }

  /** A filename determines its captures once it is fixed whether the family group
      took part. */
  lemma CapturesDetermined(c1: Captures, c2: Captures)
    requires WellFormed(c1) && WellFormed(c2) && Render(c1) == Render(c2)
    requires c1.name.Some? <==> c2.name.Some?
    ensures c1 == c2
  {
    if c1.name.Some? {
      MatchFilenameComplete(c1);
      MatchFilenameComplete(c2);
    } else {
      MatchTailComplete(c1);
      MatchTailComplete(c2);
    }
  }

  /** The engine reports no family only when no reading with a family exists. */
  lemma NoFamilyOnlyWhenUnavoidable(s: string, c: Captures)
    requires MatchFilename(s).Some? && MatchFilename(s).value.name.None?
    requires WellFormed(c) && Render(c) == s
    ensures c.name.None?
  {
    MatchFilenameComplete(c);
  }
}
