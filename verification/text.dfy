/**
 * The string operations the request handlers apply to their inputs:
 * `toLowerCase` (ASCII letters only), `trim` (ECMAScript white space and
 * line terminators), the e-mail normalisation `toLowerCase().trim()`, and
 * the extraction of the token from an Authorization header with
 * `split(' ')[1]`.
 */
module Text {
  import opened Wrappers

  // ---------------------------------------------------------------------
  // Lower-casing

  predicate IsUpper(c: char) {
    'A' <= c <= 'Z'
  }

  /** No character of `s` is an upper-case ASCII letter. */
  predicate NoUpper(s: string) {
    forall i | 0 <= i < |s| :: !IsUpper(s[i])
  }

  /** An upper-case letter becomes the same letter in lower case; every other character is kept. */
  function LowerChar(c: char): (d: char)
    ensures !IsUpper(d)
    ensures IsUpper(c) ==> 'a' <= d <= 'z' && d as int - 'a' as int == c as int - 'A' as int
    ensures !IsUpper(c) ==> d == c
  {
    if IsUpper(c) then (c as int + 32) as char else c
  }

  /** `s.toLowerCase()`, restricted to the ASCII letters. */
  function Lower(s: string): (r: string)
    ensures |r| == |s|
    ensures forall i | 0 <= i < |s| ::
      if IsUpper(s[i]) then r[i] as int - 'a' as int == s[i] as int - 'A' as int else r[i] == s[i]
    ensures NoUpper(r)
    ensures NoUpper(s) ==> r == s
  {
    seq(|s|, i requires 0 <= i < |s| => LowerChar(s[i]))
  }

  // ---------------------------------------------------------------------
  // Trimming

  /** ECMAScript WhiteSpace and LineTerminator code points, which `trim` removes. */
  predicate IsJsSpace(c: char) {
    c == '\t' || c == '\n' || c == '\U{000B}' || c == '\U{000C}' || c == '\r' || c == ' '
    || c == '\U{00A0}' || c == '\U{1680}' || ('\U{2000}' <= c <= '\U{200A}')
    || c == '\U{2028}' || c == '\U{2029}' || c == '\U{202F}' || c == '\U{205F}'
    || c == '\U{3000}' || c == '\U{FEFF}'
  }

  predicate AllSpace(s: string) {
    forall i | 0 <= i < |s| :: IsJsSpace(s[i])
  }

  /** Every character of `s` from index `lo` up to, not including, `hi` is white space. */
  predicate SpaceBetween(s: string, lo: nat, hi: nat)
    requires hi <= |s|
  {
    forall k | lo <= k < hi :: IsJsSpace(s[k])
  }

  /** The first index at or after `i` whose character is not white space, or `|s|`. */
  function SkipSpace(s: string, i: nat): (j: nat)
    requires i <= |s|
    ensures i <= j <= |s|
    ensures SpaceBetween(s, i, j)
    ensures j == |s| || !IsJsSpace(s[j])
    decreases |s| - i
  {
    if i < |s| && IsJsSpace(s[i]) then SkipSpace(s, i + 1) else i
  }

  /**
   * The end of `s[lo..j]` once the white space at its end is removed: the
   * characters from the result up to `j` are white space, and the one just
   * before the result is not.
   */
  function SkipSpaceBack(s: string, lo: nat, j: nat): (i: nat)
    requires lo <= j <= |s|
    ensures lo <= i <= j
    ensures SpaceBetween(s, i, j)
    ensures i == lo || !IsJsSpace(s[i - 1])
    decreases j
  {
    if lo < j && IsJsSpace(s[j - 1]) then SkipSpaceBack(s, lo, j - 1) else j
  }

  /**
   * `s.trim()`: `s` is the result with white space before and after it,
   * and the result neither starts nor ends with white space.
   */
  function Trim(s: string): (r: string)
    ensures var a := SkipSpace(s, 0);
      a + |r| <= |s| && r == s[a..a + |r|]
      && SpaceBetween(s, 0, a) && SpaceBetween(s, a + |r|, |s|)
    ensures r == [] || (!IsJsSpace(r[0]) && !IsJsSpace(r[|r| - 1]))
  {
    var a := SkipSpace(s, 0);
    s[a..SkipSpaceBack(s, a, |s|)]
  }

  /** `email.toLowerCase().trim()`, the key under which accounts are stored. */
  function Normalise(s: string): string {
    Trim(Lower(s))
  }

  /**
   * A normalised e-mail has no upper-case letter, so lower-casing it again
   * changes nothing, and it has no white space at either end.
   */
  lemma NormalisedIsNormal(s: string)
    ensures NoUpper(Normalise(s))
    ensures Lower(Normalise(s)) == Normalise(s)
    ensures var r := Normalise(s); r == [] || (!IsJsSpace(r[0]) && !IsJsSpace(r[|r| - 1]))
  {
  }

  /** Trimming a string that has no white space at either end leaves it alone. */
  lemma TrimOfTrimmed(s: string)
    requires s == [] || (!IsJsSpace(s[0]) && !IsJsSpace(s[|s| - 1]))
    ensures Trim(s) == s
  {
  }

  /**
   * An address made only of white space normalises to the empty
   * string; when it is not empty, a check for emptiness made before
   * normalising lets it pass.
   */
  lemma BlankNormalisesToEmpty(s: string)
    requires AllSpace(s)
    ensures Normalise(s) == ""
  {
  }

  /** Normalising twice is normalising once. */
  lemma NormaliseIdempotent(s: string)
    ensures Normalise(Normalise(s)) == Normalise(s)
  {
  }

  // ---------------------------------------------------------------------
  // Splitting on ' '

  predicate NoSpace(s: string) {
    forall k | 0 <= k < |s| :: s[k] != ' '
  }

  /** The index of the first space at or after `i`, or `|s|` when there is none. */
  function SpaceFrom(s: string, i: nat): (j: nat)
    requires i <= |s|
    ensures i <= j <= |s|
    ensures forall k | i <= k < j :: s[k] != ' '
    ensures j == |s| || s[j] == ' '
    decreases |s| - i
  {
    if i == |s| || s[i] == ' ' then i else SpaceFrom(s, i + 1)
  }

  /** The pieces of `s[i..]` between single spaces, in order. */
  function SplitFrom(s: string, i: nat): (parts: seq<string>)
    requires i <= |s|
    ensures |parts| >= 1
    decreases |s| - i
  {
    var j := SpaceFrom(s, i);
    if j == |s| then [s[i..]] else [s[i..j]] + SplitFrom(s, j + 1)
  }

  /**
   * No piece contains a space, and there is a single piece exactly when
   * `s[i..]` has no space.
   */
  lemma {:induction false} SplitFromPieces(s: string, i: nat)
    requires i <= |s|
    ensures forall k | 0 <= k < |SplitFrom(s, i)| :: NoSpace(SplitFrom(s, i)[k])
    ensures |SplitFrom(s, i)| == 1 <==> forall k | i <= k < |s| :: s[k] != ' '
    decreases |s| - i
  {
    var j := SpaceFrom(s, i);
    if j < |s| {
      SplitFromPieces(s, j + 1);
      var rest := SplitFrom(s, j + 1);
      assert SplitFrom(s, i) == [s[i..j]] + rest;
    }
  }

  /** `s.split(' ')`. */
  function Split(s: string): (parts: seq<string>)
    ensures |parts| >= 1
  {
    SplitFrom(s, 0)
  }

  /** `parts.join(' ')`. */
  function Join(parts: seq<string>): string
    requires |parts| >= 1
  {
    if |parts| == 1 then parts[0] else parts[0] + " " + Join(parts[1..])
  }

  /** Joining a piece in front of others puts one space between them. */
  lemma JoinCons(piece: string, rest: seq<string>)
    requires |rest| >= 1
    ensures Join([piece] + rest) == piece + " " + Join(rest)
  {
  }

  /** `s[i..]` is the part before position `j`, the character there, and the part after. */
  lemma SliceAt(s: string, i: nat, j: nat)
    requires i <= j < |s|
    ensures s[i..] == s[i..j] + [s[j]] + s[j + 1..]
  {
  }

  /** Splitting loses nothing: joining the pieces of `s[i..]` with spaces gives it back. */
  lemma {:induction false} JoinSplitFrom(s: string, i: nat)
    requires i <= |s|
    ensures Join(SplitFrom(s, i)) == s[i..]
    decreases |s| - i
  {
    var j := SpaceFrom(s, i);
    if j < |s| {
      JoinSplitFrom(s, j + 1);
      JoinCons(s[i..j], SplitFrom(s, j + 1));
      SliceAt(s, i, j);
    }
  }

  /** Joining the pieces of a split with single spaces gives back the input. */
  lemma JoinSplit(s: string)
    ensures Join(Split(s)) == s
  {
    JoinSplitFrom(s, 0);
  }

  /** A position is the next space exactly when no space comes before it. */
  lemma SpaceFromAt(s: string, i: nat, j: nat)
    requires i <= j <= |s|
    requires forall k | i <= k < j :: s[k] != ' '
    requires j == |s| || s[j] == ' '
    ensures SpaceFrom(s, i) == j
  {
  }

  // ---------------------------------------------------------------------
  // The Authorization header

  /**
   * `authHeader ? authHeader.split(' ')[1] : null`: the second
   * space-separated piece of a non-empty header; `None` stands for both
   * `null` and `undefined`.  The scheme word is not inspected.
   */
  function BearerToken(header: Option<string>): (token: Option<string>)
    ensures token.Some? ==> header.Some? && !NoSpace(header.value) && NoSpace(token.value)
  {
    if header.None? || header.value == "" then None
    else
      var parts := Split(header.value);
      SplitFromPieces(header.value, 0);
      if |parts| >= 2 then Some(parts[1]) else None
  }

  /** A header without a space carries no token. */
  lemma BearerTokenNeedsSpace(h: string)
    requires NoSpace(h)
    ensures BearerToken(Some(h)) == None
  {
    SplitFromPieces(h, 0);
  }

  /**
   * Any scheme word is accepted: the token is whatever follows the first
   * space, up to the next space or the end.
   */
  lemma BearerTokenAnyScheme(scheme: string, t: string, rest: string)
    requires NoSpace(scheme) && NoSpace(t)
    requires rest == [] || rest[0] == ' '
    ensures BearerToken(Some(scheme + " " + t + rest)) == Some(t)
  {
    var h := scheme + " " + t + rest;
    var a := |scheme|;
    var b := a + 1 + |t|;
    assert h[a] == ' ';
    assert forall k | 0 <= k < a :: h[k] == scheme[k];
    SpaceFromAt(h, 0, a);
    assert forall k | a + 1 <= k < b :: h[k] == t[k - a - 1];
    assert b < |h| ==> h[b] == rest[0];
    SpaceFromAt(h, a + 1, b);
    assert h[a + 1..b] == t;
    var tail := SplitFrom(h, a + 1);
    assert tail[0] == t;
    assert Split(h) == [h[0..a]] + tail;
  }
}
