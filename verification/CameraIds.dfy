/** Camera ids as the kernel mints them: slugs of a requested id or of the camera's name. */
module CameraIds {
  import opened Text

  /** What every camera's id is made of. */
  predicate IsCameraId(s: string) {
    s != "" && forall i :: 0 <= i < |s| ==> IsDigit(s[i]) || IsLower(s[i]) || s[i] == '_'
  }

  /** A slug as it comes out: no underscore at either end, nor two in a row. */
  predicate IsSlug(s: string) {
    && IsCameraId(s) && s[0] != '_' && s[|s| - 1] != '_'
    && forall i :: 0 <= i < |s| - 1 ==> s[i] != '_' || s[i + 1] != '_'
  }

  function Lower(c: char): char {
    if IsUpper(c) then (c as int + 32) as char else c
  }

  /** One underscore for each run of other characters; `after` says that one has just been written. */
  function Squash(s: string, after: bool): string {
    if s == "" then ""
    else if IsAlphanumeric(s[0]) then [Lower(s[0])] + Squash(s[1..], false)
    else if after then Squash(s[1..], true)
    else "_" + Squash(s[1..], true)
  }

  function TrimUnderscores(s: string): string {
    if s != "" && s[0] == '_' then TrimUnderscores(s[1..])
    else if s != "" && s[|s| - 1] == '_' then TrimUnderscores(s[..|s| - 1])
    else s
  }

  function SlugOf(s: string): string {
    var trimmed := TrimUnderscores(Squash(s, false));
    if trimmed == "" then "camera" else trimmed
  }

  method Slugify(s: string) returns (slug: string)
    ensures slug == SlugOf(s) && IsSlug(slug)
  {
    var out, after := "", false;
    for i := 0 to |s|
      invariant i == |s| ==> out == Squash(s, false)
      invariant out + Squash(s[i..], after) == Squash(s, false)
    {
      assert s[i..][1..] == s[i + 1..];
      if IsAlphanumeric(s[i]) {
        assert out + Squash(s[i..], after) == out + [Lower(s[i])] + Squash(s[i + 1..], false);
        out := out + [Lower(s[i])];
        after := false;
      } else if !after {
        assert out + Squash(s[i..], after) == out + "_" + Squash(s[i + 1..], true);
        out := out + "_";
        after := true;
      }
    }
    assert out == Squash(s, false);
    SlugIsSlug(s);
    hide Squash, TrimUnderscores, IsSlug;
    var trimmed := TrimUnderscores(out);
    slug := if trimmed == "" then "camera" else trimmed;
  }

  predicate Squashed(s: string) {
    && (forall i :: 0 <= i < |s| ==> IsDigit(s[i]) || IsLower(s[i]) || s[i] == '_')
    && (forall i :: 0 <= i < |s| - 1 ==> s[i] != '_' || s[i + 1] != '_')
  }

  lemma {:induction false} SquashIsSquashed(s: string, after: bool)
    ensures Squashed(Squash(s, after)) && (after && Squash(s, after) != "" ==> Squash(s, after)[0] != '_')
  {
    if s != "" {
      SquashIsSquashed(s[1..], !IsAlphanumeric(s[0]));
    }
  }

  lemma {:induction false} TrimKeepsSquashed(s: string)
    requires Squashed(s)
    ensures var t := TrimUnderscores(s); Squashed(t) && (t != "" ==> t[0] != '_' && t[|t| - 1] != '_')
  {
    if s != "" && s[0] == '_' {
      TrimKeepsSquashed(s[1..]);
    } else if s != "" && s[|s| - 1] == '_' {
      TrimKeepsSquashed(s[..|s| - 1]);
    }
  }

  /** Whatever is asked for, the id minted is a slug. */
  lemma SlugIsSlug(s: string)
    ensures IsSlug(SlugOf(s))
  {
    SquashIsSquashed(s, false);
    TrimKeepsSquashed(Squash(s, false));
  }

  /** Slugs are left alone, so minting an id from an id changes nothing. */
  lemma {:induction false} SlugIsFixed(s: string)
    requires IsSlug(s)
    ensures SlugOf(s) == s
  {
    SquashKeeps(s, false);
  }

  lemma {:induction false} SquashKeeps(s: string, after: bool)
    requires Squashed(s) && (after && s != "" ==> s[0] != '_')
    ensures Squash(s, after) == s
  {
    if s != "" {
      SquashKeeps(s[1..], s[0] == '_');
    }
  }
}
