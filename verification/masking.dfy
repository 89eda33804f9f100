/**
 * The secret masker of the configuration check: which variable names are
 * secret, and how a secret value is rendered for display.
 */
module Masking {

  /** `pat` occurs in `s` starting at index `i`. */
  ghost predicate OccursAt(s: string, pat: string, i: int)
  {
    0 <= i && i + |pat| <= |s| && s[i..i + |pat|] == pat
  }

  /**
   * Python's `pat in s` on strings, scanning the suffixes of `s` for one that
   * starts with `pat`: it holds exactly when `pat` occurs at some index.
   */
  predicate Contains(s: string, pat: string): (b: bool)
    ensures b <==> exists i :: OccursAt(s, pat, i)
    decreases |s|
  {
    OccursStep(s, pat);
    pat <= s || (|s| > 0 && Contains(s[1..], pat))
  }

  /** An occurrence is at index 0 or, shifted by one, an occurrence in the rest. */
  lemma OccursStep(s: string, pat: string)
    ensures (exists i :: OccursAt(s, pat, i)) <==>
              pat <= s || (|s| > 0 && exists i :: OccursAt(s[1..], pat, i))
  {
    if pat <= s {
      assert OccursAt(s, pat, 0);
    } else if |s| > 0 {
      forall i | OccursAt(s[1..], pat, i)
        ensures OccursAt(s, pat, i + 1)
      {
        assert s[1..][i..i + |pat|] == s[i + 1..i + 1 + |pat|];
      }
      forall i | OccursAt(s, pat, i)
        ensures i > 0 && OccursAt(s[1..], pat, i - 1)
      {
        assert i != 0 by {
          assert s[i..i + |pat|] == pat;
          assert pat <= s[i..];
        }
        assert s[1..][i - 1..i - 1 + |pat|] == s[i..i + |pat|];
      }
    }
  }

  /** The name fragments that mark a variable as secret. */
  const KeyMarker: string := "KEY"
  const SecretMarker: string := "SECRET"

  /** A variable is secret when its name holds `KEY` or `SECRET` (case matters). */
  predicate IsSensitive(name: string): (b: bool)
    ensures b <==> (exists i :: OccursAt(name, KeyMarker, i)) || (exists i :: OccursAt(name, SecretMarker, i))
  {
    Contains(name, KeyMarker) || Contains(name, SecretMarker)
  }

  /** The two keys of the registry are secret. */
  lemma RegistryKeysSensitive()
    ensures IsSensitive("OPENAI_API_KEY") && IsSensitive("SERPER_API_KEY")
  {
    assert OccursAt("OPENAI_API_KEY", KeyMarker, 11);
    assert OccursAt("SERPER_API_KEY", KeyMarker, 11);
  }

  /** The Qdrant URL is not secret. */
  lemma QdrantUrlPlain()
    ensures !IsSensitive("QDRANT_URL")
  {
    LacksMarkerLetters("QDRANT_URL");
  }

  /** The database URL is not secret. */
  lemma DatabaseUrlPlain()
    ensures !IsSensitive("DATABASE_URL")
  {
    LacksMarkerLetters("DATABASE_URL");
  }

  /** A name without a `K` and without a `C` is not secret. */
  lemma LacksMarkerLetters(name: string)
    requires 'K' !in name && 'C' !in name
    ensures !IsSensitive(name)
  {
    MissingChar(name, KeyMarker, 0);
    MissingChar(name, SecretMarker, 2);
  }

  /** A string lacking one of the pattern's characters does not contain the pattern. */
  lemma MissingChar(s: string, pat: string, k: nat)
    requires k < |pat| && pat[k] !in s
    ensures !Contains(s, pat)
  {
  }

  /** Secret values this long or shorter are hidden completely. */
  const MaskThreshold: nat := 12

  /** The display of a short secret. */
  const ShortMask: string := "***"

  /**
   * How a secret value is displayed: a long one keeps its first 8 and last 4
   * characters around `...`, a short one becomes `***`.
   */
  function Hide(value: string): (d: string)
    ensures |value| <= MaskThreshold ==> d == ShortMask
    ensures |value| > MaskThreshold ==>
              |d| == 15 && d[..8] == value[..8] && d[8..11] == "..." && d[11..] == value[|value| - 4..]
  {
    if |value| > MaskThreshold then value[..8] + "..." + value[|value| - 4..] else ShortMask
  }

  /**
   * The display form of a configured value: a secret is hidden, anything
   * else is shown as it is.
   */
  function Mask(name: string, value: string): (d: string)
    ensures !IsSensitive(name) ==> d == value
    ensures IsSensitive(name) ==> d == Hide(value)
    ensures IsSensitive(name) && |value| <= MaskThreshold ==> d == ShortMask
    ensures IsSensitive(name) && |value| > MaskThreshold ==>
              |d| == 15 && d[..8] == value[..8] && d[8..11] == "..." && d[11..] == value[|value| - 4..]
  {
    if IsSensitive(name) then Hide(value) else value
  }

  /** Two values look alike to the masking rule when it keeps the same characters of both. */
  ghost predicate SameVisibleEnds(v1: string, v2: string)
  {
    || (|v1| <= MaskThreshold && |v2| <= MaskThreshold)
    || (&& |v1| > MaskThreshold && |v2| > MaskThreshold
        && v1[..8] == v2[..8] && v1[|v1| - 4..] == v2[|v2| - 4..])
  }

  /**
   * A secret's display reveals its first 8 and last 4 characters when it is
   * long, and nothing at all when it is short: two secret values display
   * alike exactly when they agree on those.
   */
  lemma {:induction false} MaskRevealsOnlyEnds(name: string, v1: string, v2: string)
    requires IsSensitive(name)
    ensures Mask(name, v1) == Mask(name, v2) <==> SameVisibleEnds(v1, v2)
  {
    var d1, d2 := Mask(name, v1), Mask(name, v2);
    if d1 == d2 && |v1| > MaskThreshold && |v2| > MaskThreshold {
      assert v1[..8] == d1[..8] && v2[..8] == d2[..8];
      assert v1[|v1| - 4..] == d1[11..] && v2[|v2| - 4..] == d2[11..];
    }
  }
}
