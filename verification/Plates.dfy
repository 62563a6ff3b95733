/** Plate text: the lookup key of a raw OCR read, and the plausibility gate on it. */
module Plates {
  import opened Text

  function NormalizePlate(s: string): string {
    if s == [] then []
    else if IsAlphanumeric(s[0]) then [ToUpper(s[0])] + NormalizePlate(s[1..])
    else NormalizePlate(s[1..])
  }

  /** After normalisation every character is one byte, so the byte length is the length. */
  predicate IsPlausiblePlate(norm: string) {
    && 3 <= |norm| <= 10
    && (exists i :: 0 <= i < |norm| && (IsUpper(norm[i]) || IsLower(norm[i])))
    && (exists i :: 0 <= i < |norm| && IsDigit(norm[i]))
  }

  predicate IsKey(s: string) {
    forall i :: 0 <= i < |s| ==> IsDigit(s[i]) || IsUpper(s[i])
  }

  /** Normalisation lands in the key alphabet, fixes every key, and so is idempotent. */
  lemma {:induction false} NormalizedIsKey(s: string)
    ensures IsKey(NormalizePlate(s))
    ensures IsKey(s) ==> NormalizePlate(s) == s
    ensures NormalizePlate(NormalizePlate(s)) == NormalizePlate(s)
  {
    if s != [] {
      NormalizedIsKey(s[1..]);
      KeyIsFixed(NormalizePlate(s));
    }
  }

  lemma {:induction false} KeyIsFixed(s: string)
    requires IsKey(s)
    ensures NormalizePlate(s) == s
  {
    if s != [] { KeyIsFixed(s[1..]); }
  }

  /** Separators and letter case never split one plate into two keys. */
  lemma {:induction false} SeparatorsVanish(a: string, gap: string, b: string)
    requires forall i :: 0 <= i < |gap| ==> !IsAlphanumeric(gap[i])
    ensures NormalizePlate(a + gap + b) == NormalizePlate(a + b)
    ensures NormalizePlate(Uppercase(a)) == NormalizePlate(a)
  {
    if a != [] {
      SeparatorsVanish(a[1..], gap, b);
      assert (a + gap + b)[1..] == a[1..] + gap + b;
      assert (a + b)[1..] == a[1..] + b;
      assert Uppercase(a)[1..] == Uppercase(a[1..]);
    } else if gap != [] {
      SeparatorsVanish(a, gap[1..], b);
      assert (a + gap + b)[1..] == a + gap[1..] + b;
    } else {
      assert a + gap + b == a + b;
    }
  }
}
