/**
 * The part of Foundation's string API that the two-factor form relies on:
 * the three character sets it names, `CharacterSet.inverted`,
 * `String.rangeOfCharacter(from:)` and `String.trimmingCharacters(in:)`.
 *
 * A Swift `String` is modelled as a sequence of Unicode scalars and its
 * `count` as the length of that sequence (grapheme clusters are not
 * modelled). Decimal digits and lowercase letters are restricted to ASCII;
 * white space and newlines follow Foundation's documented definition
 * (Unicode category Z, U+0009 and U+000A through U+000D, U+0085).
 */
module Foundation {
  import opened Wrappers

  /** U+0030 '0' through U+0039 '9'. */
  predicate IsDecimalDigit(c: char) {
    '0' <= c <= '9'
  }

  /** U+0061 'a' through U+007A 'z'. */
  predicate IsLowercaseLetter(c: char) {
    'a' <= c <= 'z'
  }

  /** Space separators, tab, line and paragraph separators, LF, VT, FF, CR and NEL. */
  predicate IsWhitespaceOrNewline(c: char) {
    c == ' ' || c == '\t' || ('\n' <= c <= '\r') || c == '\U{0085}' || c == '\U{00A0}'
    || c == '\U{1680}' || ('\U{2000}' <= c <= '\U{200A}') || c == '\U{2028}' || c == '\U{2029}'
    || c == '\U{202F}' || c == '\U{205F}' || c == '\U{3000}'
  }

  /** `CharacterSet`: the three predefined sets used by the form, and complements. */
  datatype CharacterSet =
    | DecimalDigits
    | LowercaseLetters
    | WhitespacesAndNewlines
    | Inverted(base: CharacterSet)
  {
    predicate Contains(c: char) {
      match this
      case DecimalDigits => IsDecimalDigit(c)
      case LowercaseLetters => IsLowercaseLetter(c)
      case WhitespacesAndNewlines => IsWhitespaceOrNewline(c)
      case Inverted(b) => !b.Contains(c)
    }
  }

  /** No character of `s` belongs to `cs`. */
  ghost predicate NoneIn(s: string, cs: CharacterSet) {
    forall i :: 0 <= i < |s| ==> !cs.Contains(s[i])
  }

  /** Every character of `s` belongs to `cs`. */
  ghost predicate AllIn(s: string, cs: CharacterSet) {
    forall i :: 0 <= i < |s| ==> cs.Contains(s[i])
  }

  /**
   * `s.rangeOfCharacter(from: cs)`: the position of the first character of
   * `s` that belongs to `cs`, or `None` when there is none. (Foundation
   * returns a range; only its start is observable here.)
   */
  function RangeOfCharacter(s: string, cs: CharacterSet): (r: Option<nat>) {
    if s == [] then None
    else if cs.Contains(s[0]) then Some(0)
    else
      match RangeOfCharacter(s[1..], cs)
      case None => None
      case Some(k) => Some(k + 1)
  }

  /**
   * A found position holds a character of `cs` and every character before
   * it is outside `cs`; finding nothing means no character is in `cs`.
   */
  lemma {:induction false} RangeOfCharacterFirst(s: string, cs: CharacterSet)
    ensures match RangeOfCharacter(s, cs)
            case Some(k) => k < |s| && cs.Contains(s[k]) && NoneIn(s[..k], cs)
            case None => NoneIn(s, cs)
  {
    if s != [] && !cs.Contains(s[0]) {
      RangeOfCharacterFirst(s[1..], cs);
      match RangeOfCharacter(s[1..], cs)
      case None =>
        forall i | 0 <= i < |s| ensures !cs.Contains(s[i]) {
          if i > 0 { assert s[i] == s[1..][i - 1]; }
        }
      case Some(k) =>
        assert s[..k + 1] == [s[0]] + s[1..][..k];
    }
  }

  /** Searching with an inverted set finds nothing exactly when every character is in the set. */
  lemma RangeOfInvertedNone(s: string, cs: CharacterSet)
    ensures RangeOfCharacter(s, Inverted(cs)) == None <==> AllIn(s, cs)
  {
    RangeOfCharacterFirst(s, Inverted(cs));
  }

  /** Drops the longest prefix of `s` made of characters in `cs`. */
  function DropLeading(s: string, cs: CharacterSet): (r: string) {
    if s != [] && cs.Contains(s[0]) then DropLeading(s[1..], cs) else s
  }

  /** What `DropLeading` removes is a prefix of characters in `cs`, and it stops at the first other one. */
  lemma {:induction false} DropLeadingSpec(s: string, cs: CharacterSet)
    ensures var r := DropLeading(s, cs);
            |r| <= |s| && r == s[|s| - |r|..] && AllIn(s[..|s| - |r|], cs)
            && (r == [] || !cs.Contains(r[0]))
  {
    if s != [] && cs.Contains(s[0]) {
      DropLeadingSpec(s[1..], cs);
      var r := DropLeading(s[1..], cs);
      assert s[..|s| - |r|] == [s[0]] + s[1..][..|s| - 1 - |r|];
    }
  }

  /** Drops the longest suffix of `s` made of characters in `cs`. */
  function DropTrailing(s: string, cs: CharacterSet): (r: string) {
    if s != [] && cs.Contains(s[|s| - 1]) then DropTrailing(s[..|s| - 1], cs) else s
  }

  /** What `DropTrailing` removes is a suffix of characters in `cs`, and it stops at the last other one. */
  lemma {:induction false} DropTrailingSpec(s: string, cs: CharacterSet)
    ensures var r := DropTrailing(s, cs);
            |r| <= |s| && r == s[..|r|] && AllIn(s[|r|..], cs)
            && (r == [] || !cs.Contains(r[|r| - 1]))
  {
    if s != [] && cs.Contains(s[|s| - 1]) {
      DropTrailingSpec(s[..|s| - 1], cs);
      var r := DropTrailing(s[..|s| - 1], cs);
      assert s[|r|..] == s[..|s| - 1][|r|..] + [s[|s| - 1]];
    }
  }

  /** `s.trimmingCharacters(in: cs)`: `s` without its leading and trailing characters in `cs`. */
  function TrimmingCharacters(s: string, cs: CharacterSet): (r: string) {
    DropTrailing(DropLeading(s, cs), cs)
  }

  /** A string neither starting nor ending with a character of `cs`. */
  ghost predicate Trimmed(t: string, cs: CharacterSet) {
    t == [] || (!cs.Contains(t[0]) && !cs.Contains(t[|t| - 1]))
  }

  /**
   * The trimmed string is a slice `s[i..j]` whose surroundings are all in
   * `cs` and which itself neither starts nor ends with a character in `cs`.
   */
  lemma TrimmingCharactersSlice(s: string, cs: CharacterSet)
    ensures exists i, j ::
              0 <= i <= j <= |s| && TrimmingCharacters(s, cs) == s[i..j]
              && AllIn(s[..i], cs) && AllIn(s[j..], cs)
    ensures Trimmed(TrimmingCharacters(s, cs), cs)
  {
    var a := DropLeading(s, cs);
    var r := DropTrailing(a, cs);
    DropLeadingSpec(s, cs);
    DropTrailingSpec(a, cs);
    var i := |s| - |a|;
    var j := i + |r|;
    assert r == s[i..j];
    assert s[j..] == a[|r|..];
  }

  /** A prefix made only of characters in `cs` is ignored by `DropLeading`. */
  lemma {:induction false} DropLeadingPadding(p: string, u: string, cs: CharacterSet)
    requires AllIn(p, cs)
    ensures DropLeading(p + u, cs) == DropLeading(u, cs)
    decreases |p|
  {
    if p == [] {
      assert p + u == u;
    } else {
      assert (p + u)[0] == p[0] && cs.Contains(p[0]);
      assert (p + u)[1..] == p[1..] + u;
      DropLeadingPadding(p[1..], u, cs);
    }
  }

  /** A suffix made only of characters in `cs` is ignored by `DropTrailing`. */
  lemma {:induction false} DropTrailingPadding(u: string, q: string, cs: CharacterSet)
    requires AllIn(q, cs)
    ensures DropTrailing(u + q, cs) == DropTrailing(u, cs)
    decreases |q|
  {
    if q == [] {
      assert u + q == u;
    } else {
      assert (u + q)[|u + q| - 1] == q[|q| - 1] && cs.Contains(q[|q| - 1]);
      assert (u + q)[..|u + q| - 1] == u + q[..|q| - 1];
      DropTrailingPadding(u, q[..|q| - 1], cs);
    }
  }

  /**
   * Trimming removes exactly the padding: a string with no leading or
   * trailing character of `cs`, surrounded by any characters of `cs`, trims
   * back to itself. With TrimmingCharactersSlice this characterises the
   * function completely.
   */
  lemma TrimmingCharactersPadded(p: string, t: string, q: string, cs: CharacterSet)
    requires AllIn(p, cs) && AllIn(q, cs) && Trimmed(t, cs)
    ensures TrimmingCharacters(p + t + q, cs) == t
  {
    assert p + t + q == p + (t + q);
    DropLeadingPadding(p, t + q, cs);
    if t == [] {
      assert t + q == q + [];
      DropLeadingPadding(q, [], cs);
      assert DropLeading(p + t + q, cs) == [];
    } else {
      assert (t + q)[0] == t[0];
      assert DropLeading(p + t + q, cs) == t + q;
      DropTrailingPadding(t, q, cs);
    }
  }

  /** Trimming twice is trimming once. */
  lemma TrimmingCharactersIdempotent(s: string, cs: CharacterSet)
    ensures TrimmingCharacters(TrimmingCharacters(s, cs), cs) == TrimmingCharacters(s, cs)
  {
    var t := TrimmingCharacters(s, cs);
    TrimmingCharactersSlice(s, cs);
    TrimmingCharactersPadded([], t, [], cs);
    assert [] + t + [] == t;
  }
}
