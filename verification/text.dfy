/** Character classes, ASCII case folding, searching and decimal rendering of integers:
    the small string vocabulary the rest of the model is written in. */
module Text {
  import opened Wrappers

  /** The regular-expression class `\w`: ASCII letters, digits and underscore. */
  predicate IsWordChar(c: char) {
    ('a' <= c <= 'z') || ('A' <= c <= 'Z') || ('0' <= c <= '9') || c == '_'
  }

  predicate AllWordChars(s: string) {
    forall i :: 0 <= i < |s| ==> IsWordChar(s[i])
  }

  /** ASCII lower-casing of one character; every other character is left alone. */
  function LowerChar(c: char): char {
    if 'A' <= c <= 'Z' then (c as int + 32) as char else c
  }

  function Lower(s: string): string {
    seq(|s|, i requires 0 <= i < |s| => LowerChar(s[i]))
  }

  /** `s` begins with the lower-case word `w`, compared ignoring ASCII case. */
  predicate StartsWithIgnoringCase(s: string, w: string) {
    |w| <= |s| && Lower(s[..|w|]) == w
  }

  /** Position of the first `c` in `s`, or -1 (JavaScript's `indexOf`). */
  function IndexOf(s: string, c: char): (r: int)
    ensures -1 <= r < |s|
    ensures r >= 0 ==> s[r] == c && c !in s[..r]
    ensures r == -1 <==> c !in s
  {
    if |s| == 0 then -1
    else if s[0] == c then 0
    else
      var k := IndexOf(s[1..], c);
      assert s[1..][..if k < 0 then 0 else k] == s[1..if k < 0 then 1 else k + 1];
      if k < 0 then -1 else k + 1
  }

  /** Position of the last `c` in `s`, or -1. */
  function LastIndexOf(s: string, c: char): (r: int)
    ensures -1 <= r < |s|
    ensures r >= 0 ==> s[r] == c
    ensures forall j :: r < j < |s| ==> s[j] != c
  {
    if |s| == 0 then -1
    else if s[|s| - 1] == c then |s| - 1
    else LastIndexOf(s[..|s| - 1], c)
  }

  /** The search stops at the first occurrence: a `c` placed after a `c`-free prefix is found there. */
  lemma IndexOfAfterPrefix(a: string, c: char, b: string)
    requires c !in a
    ensures IndexOf(a + [c] + b, c) == |a|
    ensures (a + [c] + b)[..|a|] == a && (a + [c] + b)[|a| + 1..] == b
  {
    assert (a + [c] + b)[|a|] == c;
    assert (a + [c] + b)[..|a|] == a;
  }

  /** A `c` closing a prefix is the last `c` when none follows. */
  lemma LastIndexOfBeforeSuffix(a: string, c: char, b: string)
    requires |a| > 0 && a[|a| - 1] == c && c !in b
    ensures LastIndexOf(a + b, c) == |a| - 1
  {
    assert (a + b)[|a| - 1] == c;
  }

  // ---------------------------------------------------------------------------------
  // Lines

  /** The lines `ls` joined by line feeds. */
  function Lines(ls: seq<string>): (t: string)
    ensures |ls| > 0 ==> ls[0] <= t
    decreases |ls|
  {
    if |ls| == 0 then ""
    else if |ls| == 1 then ls[0]
    else ls[0] + "\n" + Lines(ls[1..])
  }

  /** A text cut at every line feed; the pieces hold none. */
  function SplitLines(t: string): (ls: seq<string>)
    ensures |ls| > 0
    ensures forall k :: 0 <= k < |ls| ==> '\n' !in ls[k]
    decreases |t|
  {
    var i := IndexOf(t, '\n');
    if i < 0 then [t] else [t[..i]] + SplitLines(t[i + 1..])
  }

  lemma LinesCons(ls: seq<string>)
    requires |ls| > 1
    ensures Lines(ls) == ls[0] + ['\n'] + Lines(ls[1..])
  {
  }

  /** The lines from `k` on, joined, end the joined text. */
  lemma {:induction false} LinesSuffix(ls: seq<string>, k: nat)
    requires k < |ls|
    ensures var t, u := Lines(ls), Lines(ls[k..]); |u| <= |t| && t[|t| - |u|..] == u
    decreases k
  {
    if k > 0 {
      LinesCons(ls);
      LinesSuffix(ls[1..], k - 1);
      assert ls[1..][k - 1..] == ls[k..];
      SuffixOfConcat(ls[0] + ['\n'], Lines(ls[1..]), Lines(ls[k..]));
    }
  }

  /** A suffix of `r` is a suffix of anything ending in `r`. */
  lemma SuffixOfConcat(a: string, r: string, u: string)
    requires |u| <= |r| && r[|r| - |u|..] == u
    ensures |u| <= |a + r| && (a + r)[|a + r| - |u|..] == u
  {
    assert (a + r)[|a + r| - |u|..] == r[|r| - |u|..];
  }

  /** Joined lines end with the last line. */
  lemma LinesEnd(ls: seq<string>)
    requires |ls| > 0
    ensures var t, last := Lines(ls), ls[|ls| - 1]; |last| <= |t| && t[|t| - |last|..] == last
  {
    LinesSuffix(ls, |ls| - 1);
    assert ls[|ls| - 1..] == [ls[|ls| - 1]];
  }

  /** A string cut after a `c` that closes its first part and is absent from the second. */
  lemma SplitAfterLast(a: string, c: char, b: string)
    requires |a| > 0 && a[|a| - 1] == c && c !in b
    ensures var i := LastIndexOf(a + b, c); (a + b)[..i + 1] == a && (a + b)[i + 1..] == b
  {
    LastIndexOfBeforeSuffix(a, c, b);
    assert (a + b)[..|a|] == a;
  }

  lemma SplitLinesAt(a: string, b: string)
    requires '\n' !in a
    ensures SplitLines(a + ['\n'] + b) == [a] + SplitLines(b)
  {
    IndexOfAfterPrefix(a, '\n', b);
  }

  /** Splitting joined lines gives the lines back, when none holds a line feed. */
  lemma {:induction false} SplitJoinedLines(ls: seq<string>)
    requires |ls| > 0 && forall k :: 0 <= k < |ls| ==> '\n' !in ls[k]
    ensures SplitLines(Lines(ls)) == ls
    decreases |ls|
  {
    if |ls| == 1 {
      assert Lines(ls) == ls[0];
    } else {
      LinesCons(ls);
      SplitLinesAt(ls[0], Lines(ls[1..]));
      assert forall k :: 0 <= k < |ls| - 1 ==> ls[1..][k] == ls[k + 1];
      SplitJoinedLines(ls[1..]);
      HeadTail(ls);
    }
  }

  lemma HeadTail(ls: seq<string>)
    requires |ls| > 0
    ensures ls == [ls[0]] + ls[1..]
  {
  }

  /** `line` with `pre` taken off its front and `post` off its end; None unless it has
      both. */
  function StripAround(line: string, pre: string, post: string): (r: Option<string>)
    ensures r.Some? ==> line == pre + r.value + post
  {
    if |pre| + |post| <= |line| && line[..|pre|] == pre && line[|line| - |post|..] == post
    then Some(line[|pre|..|line| - |post|])
    else None
  }

  lemma StripAroundOf(pre: string, x: string, post: string)
    ensures StripAround(pre + x + post, pre, post) == Some(x)
  {
    var line := pre + x + post;
    assert line[..|pre|] == pre;
    assert line[|line| - |post|..] == post;
    assert line[|pre|..|line| - |post|] == x;
  }

  /** A string is the part before position `k`, the character there, and the part after. */
  lemma SplitAt(s: string, k: nat)
    requires k < |s|
    ensures s == s[..k] + [s[k]] + s[k + 1..]
  {
  }

  predicate IsDigit(c: char) {
    '0' <= c <= '9'
  }

  predicate AllDigits(s: string) {
    forall i :: 0 <= i < |s| ==> IsDigit(s[i])
  }

  function DigitChar(d: nat): char
    requires d < 10
  {
    ('0' as int + d) as char
  }

  function DigitValue(c: char): nat
    requires IsDigit(c)
  {
    c as int - '0' as int
  }

  /** Decimal digits of `n`, most significant first, without leading zeros. */
  function NatToDecimal(n: nat): (r: string)
    ensures |r| > 0 && AllDigits(r)
    ensures |r| > 1 ==> r[0] != '0'
    decreases n
  {
    if n < 10 then [DigitChar(n)] else NatToDecimal(n / 10) + [DigitChar(n % 10)]
  }

  function DecimalToNat(s: string): nat
    requires AllDigits(s)
  {
    if |s| == 0 then 0
    else DecimalToNat(s[..|s| - 1]) * 10 + DigitValue(s[|s| - 1])
  }

  lemma {:induction false} NatDecimalRoundTrip(n: nat)
    ensures DecimalToNat(NatToDecimal(n)) == n
    decreases n
  {
    if n >= 10 {
      var s := NatToDecimal(n);
      assert s[..|s| - 1] == NatToDecimal(n / 10);
      NatDecimalRoundTrip(n / 10);
    }
  }

  /** JavaScript's rendering of an integral number: a minus sign for negatives, then the digits. */
  function IntToDecimal(n: int): (r: string)
    ensures |r| > 0
    ensures forall i :: 0 <= i < |r| ==> IsDigit(r[i]) || (i == 0 && r[i] == '-')
  {
    if n < 0 then "-" + NatToDecimal(-n) else NatToDecimal(n)
  }

  /** Reads back an optionally negative decimal numeral; None when `s` is not one. */
  function ParseInt(s: string): Option<int> {
    if |s| > 1 && s[0] == '-' && AllDigits(s[1..]) then Some(0 - DecimalToNat(s[1..]) as int)
    else if |s| > 0 && AllDigits(s) then Some(DecimalToNat(s))
    else None
  }

  lemma IntDecimalRoundTrip(n: int)
    ensures ParseInt(IntToDecimal(n)) == Some(n)
  {
    if n < 0 {
      assert IntToDecimal(n)[1..] == NatToDecimal(-n);
      NatDecimalRoundTrip(-n);
    } else {
      NatDecimalRoundTrip(n);
    }
  }
}
