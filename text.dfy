/** Character classes and string helpers shared by the classifier and the job.
    Python's `str` methods work on Unicode; this model covers the ASCII range only
    (`str.split`, `str.strip`, `str.lower`, the regex classes `\d` and `\w`). */
module Text {
  import opened Wrappers

  /** ASCII characters Python's `str.isspace` accepts: space, tab through carriage
      return, and the four information separators 0x1C-0x1F. */
  predicate IsSpace(c: char) {
    c == ' ' || ('\t' <= c <= '\r') || ('\U{1C}' <= c <= '\U{1F}')
  }

  predicate IsDigit(c: char) { '0' <= c <= '9' }

  /** The regex word class `\w` restricted to ASCII: letters, digits and underscore. */
  predicate IsWordChar(c: char) {
    ('a' <= c <= 'z') || ('A' <= c <= 'Z') || IsDigit(c) || c == '_'
  }

  predicate AllSpace(s: string) { forall i :: 0 <= i < |s| ==> IsSpace(s[i]) }

  predicate NoSpace(s: string) { forall i :: 0 <= i < |s| ==> !IsSpace(s[i]) }

  predicate AllDigits(s: string) { forall i :: 0 <= i < |s| ==> IsDigit(s[i]) }

  function LowerChar(c: char): char {
    if 'A' <= c <= 'Z' then (c as int + 32) as char else c
  }

  /** The lower-case ASCII letters, in alphabetical order. */
  const LowerAlphabet: string := "abcdefghijklmnopqrstuvwxyz"

  /** `str.lower` on ASCII: every upper-case letter becomes its lower-case form. */
  function Lower(s: string): (r: string)
    ensures |r| == |s|
    ensures forall i :: 0 <= i < |s| && 'A' <= s[i] <= 'Z' ==>
      r[i] == LowerAlphabet[s[i] as int - 'A' as int]
    ensures forall i :: 0 <= i < |r| ==> !('A' <= r[i] <= 'Z')
    ensures forall i :: 0 <= i < |s| && !('A' <= s[i] <= 'Z') ==> r[i] == s[i]
  {
    seq(|s|, i requires 0 <= i < |s| => LowerChar(s[i]))
  }

  /** Lowering commutes with slicing. */
  lemma LowerSlice(s: string, lo: nat, hi: nat)
    requires lo <= hi <= |s|
    ensures Lower(s)[lo..hi] == Lower(s[lo..hi])
  {
    assert forall i :: 0 <= i < hi - lo ==> Lower(s)[lo..hi][i] == Lower(s[lo..hi])[i];
  }

  /** Lowering twice is lowering once. */
  lemma LowerIdempotent(s: string)
    ensures Lower(Lower(s)) == Lower(s)
  {
    var r := Lower(s);
    assert forall i :: 0 <= i < |r| ==> Lower(r)[i] == r[i];
  }

  /** Python's `needle in hay` for strings (the empty needle is in every string). */
  predicate IsSubstring(needle: string, hay: string) {
    exists i :: 0 <= i <= |hay| && needle <= hay[i..]
  }

  /** Drops the leading whitespace (the left half of `str.strip`). */
  function TrimLeft(s: string): (r: string)
    ensures |r| <= |s| && r == s[|s| - |r|..]
    ensures AllSpace(s[..|s| - |r|])
    ensures r != [] ==> !IsSpace(r[0])
  {
    if s != [] && IsSpace(s[0]) then TrimLeft(s[1..]) else s
  }

  /** Drops the trailing whitespace (the right half of `str.strip`). */
  function TrimRight(s: string): (r: string)
    ensures |r| <= |s| && r == s[..|r|]
    ensures AllSpace(s[|r|..])
    ensures r != [] ==> !IsSpace(r[|r| - 1])
  {
    if s != [] && IsSpace(s[|s| - 1]) then
      var r := TrimRight(s[..|s| - 1]);
      assert s[..|r|] == s[..|s| - 1][..|r|];
      assert s[|r|..] == s[..|s| - 1][|r|..] + [s[|s| - 1]];
      r
    else s
  }

  /** `str.strip()` with no argument. */
  function Strip(s: string): string {
    TrimRight(TrimLeft(s))
  }

  /** The longest prefix of `s` that holds no whitespace. */
  function TakeToken(s: string): (r: string)
    ensures |r| <= |s| && r == s[..|r|]
    ensures NoSpace(r)
    ensures |r| < |s| ==> IsSpace(s[|r|])
  {
    if s == [] || IsSpace(s[0]) then [] else [s[0]] + TakeToken(s[1..])
  }

  /** `g` reads as some whitespace, then the token `tok`, then either nothing or a
      whitespace character and the rest: exactly when `g.split()[0] == tok`. */
  ghost predicate SplitsAs(g: string, lead: string, tok: string, rest: string) {
    g == lead + tok + rest && AllSpace(lead) && tok != [] && NoSpace(tok) &&
    (rest == [] || IsSpace(rest[0]))
  }

  /** `s.split()[0]`: `None` when `split()` returns the empty list (the index would
      raise), otherwise the first maximal run of non-whitespace characters. */
  function FirstToken(s: string): (r: Option<string>)
  {
    var t := TrimLeft(s);
    if t == [] then None else Some(TakeToken(t))
  }

  /** `split()` finds no token exactly when the string is all whitespace. */
  lemma FirstTokenNoneIff(s: string)
    ensures FirstToken(s).None? <==> AllSpace(s)
  {
    var t := TrimLeft(s);
    if t != [] {
      assert s[|s| - |t|] == t[0];
    } else {
      assert s[..|s|] == s;
    }
  }

  /** Concatenation regroups freely. */
  lemma ConcatAssoc(a: string, b: string, c: string)
    ensures a + (b + c) == a + b + c
  {
    assert forall i :: 0 <= i < |a| + |b| + |c| ==> (a + (b + c))[i] == (a + b + c)[i];
  }

  /** A string is its prefix of length `k` followed by the rest. */
  lemma SplitAt(s: string, k: nat)
    requires k <= |s|
    ensures s == s[..k] + s[k..]
  {
  }

  /** Trimming on the left splits a string into all-whitespace and the trimmed rest. */
  lemma TrimLeftSplits(s: string)
    ensures var t := TrimLeft(s);
      s == s[..|s| - |t|] + t && AllSpace(s[..|s| - |t|])
  {
    var t := TrimLeft(s);
    SplitAt(s, |s| - |t|);
  }

  /** A string that starts with a token character splits into its first token and a
      rest that is empty or starts with whitespace. */
  lemma TakeTokenSplits(t: string)
    requires t != [] && !IsSpace(t[0])
    ensures var tok := TakeToken(t);
      tok != [] && t == tok + t[|tok|..] && (|tok| == |t| || IsSpace(t[|tok|..][0]))
  {
    var tok := TakeToken(t);
    assert t == t[..|tok|] + t[|tok|..];
  }

  /** When `split()` finds a token, `FirstToken` returns exactly that token. */
  lemma FirstTokenSplits(s: string)
    requires FirstToken(s).Some?
    ensures exists lead, rest :: SplitsAs(s, lead, FirstToken(s).value, rest)
  {
    var t := TrimLeft(s);
    TrimLeftSplits(s);
    TakeTokenSplits(t);
    var tok := TakeToken(t);
    var lead, rest := s[..|s| - |t|], t[|tok|..];
    assert s == lead + (tok + rest);
    ConcatAssoc(lead, tok, rest);
    assert SplitsAs(s, lead, tok, rest);
  }

  /** A string splits in at most one way, so `SplitsAs` pins the first token down. */
  lemma SplitsAsUnique(g: string, lead1: string, tok1: string, rest1: string,
                       lead2: string, tok2: string, rest2: string)
    requires SplitsAs(g, lead1, tok1, rest1) && SplitsAs(g, lead2, tok2, rest2)
    ensures lead1 == lead2 && tok1 == tok2 && rest1 == rest2
  {
    // the first token character of one split cannot lie in the other's lead
    assert !IsSpace(g[|lead1|]) && !IsSpace(g[|lead2|]);
    assert forall i :: 0 <= i < |lead1| ==> IsSpace(g[i]);
    assert forall i :: 0 <= i < |lead2| ==> IsSpace(g[i]);
    var n := |lead1|;
    assert lead1 == g[..n] == lead2;
    // a token ends exactly where the whitespace (or the string) begins
    assert forall i :: n <= i < n + |tok1| ==> !IsSpace(g[i]);
    assert forall i :: n <= i < n + |tok2| ==> !IsSpace(g[i]);
    assert n + |tok1| < |g| ==> IsSpace(g[n + |tok1|]);
    assert n + |tok2| < |g| ==> IsSpace(g[n + |tok2|]);
    assert tok1 == g[n..n + |tok1|] == tok2;
    assert rest1 == g[n + |tok1|..] == rest2;
  }
}
