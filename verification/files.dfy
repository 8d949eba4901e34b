/** The font files the plugin receives and the three pieces of Node's `path` module it
    reads from them: the base name, the extension, and the name of the parent directory.
    Paths are taken to be normalised: no trailing and no repeated '/'. */
module Files {
  import opened Text
  import Base64

  /** A buffered input file: its path, its path relative to the source root (used only in
      a comment of the emitted rule) and its contents. */
  datatype FontFile = FontFile(path: string, relative: string, contents: seq<Base64.byte>)

  /** `path.basename`: everything after the last '/'. */
  function BaseName(p: string): (r: string)
    ensures '/' !in r
    ensures |r| <= |p| && p[|p| - |r|..] == r
    ensures '/' !in p ==> r == p
    ensures '/' in p ==> |r| < |p| && p[|p| - |r| - 1] == '/'
  {
    var i := LastIndexOf(p, '/');
    p[i + 1..]
  }

  /** `path.basename(path.dirname(p))`: the name of the directory holding `p`; "." for a
      bare file name and "" for a file directly under the root. */
  function ParentDirName(p: string): (r: string)
    ensures '/' !in r
    ensures '/' !in p ==> r == "."
    ensures '/' in p ==>
      var dir := p[..|p| - |BaseName(p)| - 1];
      && |r| <= |dir| && dir[|dir| - |r|..] == r
      && (|r| == |dir| || dir[|dir| - |r| - 1] == '/')
  {
    var i := LastIndexOf(p, '/');
    if i < 0 then "." else BaseName(p[..i])
  }

  /** `path.extname(base).substring(1)`: the text after the last '.', provided that dot is
      not the first character; "" otherwise. */
  function ExtName(base: string): (e: string)
    ensures '.' !in e
    ensures |e| <= |base| && base[|base| - |e|..] == e
    ensures e != "" ==> |e| + 1 < |base| && base[|base| - |e| - 1] == '.'
    ensures e == "" <==> |base| <= 1 || '.' !in base[1..] || base[|base| - 1] == '.'
  {
    var i := LastIndexOf(base, '.');
    if i <= 0 then
      NoDotPastHead(base, i);
      ""
    else
      DotPastHead(base, i);
      base[i + 1..]
  }

  /** With no '.' after position 0, the base name has no extension. */
  lemma NoDotPastHead(base: string, i: int)
    requires -1 <= i <= 0 && forall j :: i < j < |base| ==> base[j] != '.'
    ensures |base| <= 1 || '.' !in base[1..]
  {
    if |base| > 1 {
      forall j | 0 <= j < |base| - 1
        ensures base[1..][j] != '.'
      {
        assert base[1..][j] == base[j + 1];
      }
    }
  }

  /** The last '.' at a position past 0 starts the extension. */
  lemma DotPastHead(base: string, i: int)
    requires 0 < i < |base| && base[i] == '.'
    requires forall j :: i < j < |base| ==> base[j] != '.'
    ensures var e := base[i + 1..];
      && '.' !in e
      && base[|base| - |e| - 1] == '.'
      && (e == "" <==> base[|base| - 1] == '.')
      && '.' in base[1..]
  {
    assert base[1..][i - 1] == '.';
  }

  /** The extension the plugin groups a file under and looks up in its MIME table. */
  function ExtOf(f: FontFile): string {
    ExtName(BaseName(f.path))
  }
}
