/** Character classes and the few string operations the components share. */
module Text {

  /** Rust's `char::is_whitespace`: the Unicode White_Space property. */
  predicate IsWhitespace(c: char) {
    var n := c as int;
    || 0x09 <= n <= 0x0D || n == 0x20 || n == 0x85 || n == 0xA0 || n == 0x1680
    || 0x2000 <= n <= 0x200A || n == 0x2028 || n == 0x2029 || n == 0x202F || n == 0x205F || n == 0x3000
  }

  /** Their code points, one by one. */
  lemma WhitespaceCodes(c: char)
    ensures IsWhitespace(c) <==> c as int in [
      9, 10, 11, 12, 13, 32, 133, 160, 5760, 8192, 8193, 8194, 8195, 8196, 8197, 8198, 8199, 8200, 8201, 8202, 8232, 8233, 8239,
      8287, 12288]
  {
  }

  /** Python's `str.isspace`: these and four control characters. */
  predicate IsSpace(c: char) {
    var n := c as int;
    || 0x09 <= n <= 0x0D || 0x1C <= n <= 0x20 || n == 0x85 || n == 0xA0 || n == 0x1680
    || 0x2000 <= n <= 0x200A || n == 0x2028 || n == 0x2029 || n == 0x202F || n == 0x205F || n == 0x3000
  }

  lemma SpaceCodes(c: char)
    ensures IsSpace(c) <==> IsWhitespace(c) || c as int in [28, 29, 30, 31]
  {
  }

  predicate IsDigit(c: char) { '0' <= c <= '9' }

  predicate IsUpper(c: char) { 'A' <= c <= 'Z' }

  predicate IsLower(c: char) { 'a' <= c <= 'z' }

  predicate IsAlphanumeric(c: char) { IsDigit(c) || IsUpper(c) || IsLower(c) }

  function ToUpper(c: char): char {
    if IsLower(c) then (c as int - 32) as char else c
  }

  function Uppercase(s: string): (r: string)
    ensures |r| == |s|
  {
    seq(|s|, i requires 0 <= i < |s| => ToUpper(s[i]))
  }

  // ---------------------------------------------------------------- trimming

  function TrimStart(blank: char -> bool, s: string): string {
    if s != [] && blank(s[0]) then TrimStart(blank, s[1..]) else s
  }

  function TrimEnd(blank: char -> bool, s: string): string {
    if s != [] && blank(s[|s| - 1]) then TrimEnd(blank, s[..|s| - 1]) else s
  }

  function TrimBy(blank: char -> bool, s: string): string {
    TrimEnd(blank, TrimStart(blank, s))
  }

  /** Rust's `trim`. */
  function Trim(s: string): string { TrimBy(IsWhitespace, s) }

  /** Python's `strip`. */
  function Strip(s: string): string { TrimBy(IsSpace, s) }

  predicate AllBlank(blank: char -> bool, s: string) {
    forall i :: 0 <= i < |s| ==> blank(s[i])
  }

  /** The text between the outermost characters that are not blank. */
  ghost predicate IsCoreBy(blank: char -> bool, s: string, core: string) {
    && (core != "" ==> !blank(core[0]) && !blank(core[|core| - 1]))
    && exists front, back :: AllBlank(blank, front) && AllBlank(blank, back) && s == front + core + back
  }

  predicate IsBlank(s: string) { AllBlank(IsWhitespace, s) }

  ghost predicate IsCore(s: string, core: string) { IsCoreBy(IsWhitespace, s, core) }

  lemma {:induction false} TrimStartSplits(blank: char -> bool, s: string) returns (front: string)
    ensures AllBlank(blank, front) && s == front + TrimStart(blank, s)
    ensures TrimStart(blank, s) != "" ==> !blank(TrimStart(blank, s)[0])
  {
    if s != [] && blank(s[0]) {
      front := TrimStartSplits(blank, s[1..]);
      front := [s[0]] + front;
    } else {
      front := "";
    }
  }

  lemma {:induction false} TrimEndSplits(blank: char -> bool, s: string) returns (back: string)
    ensures AllBlank(blank, back) && s == TrimEnd(blank, s) + back
    ensures TrimEnd(blank, s) != "" ==> !blank(TrimEnd(blank, s)[|TrimEnd(blank, s)| - 1])
  {
    if s != [] && blank(s[|s| - 1]) {
      back := TrimEndSplits(blank, s[..|s| - 1]);
      back := back + [s[|s| - 1]];
    } else {
      back := "";
    }
  }

  /** Trimming leaves the core, and a text has one core. */
  lemma TrimIsCore(blank: char -> bool, s: string)
    ensures IsCoreBy(blank, s, TrimBy(blank, s))
  {
    var front := TrimStartSplits(blank, s);
    var inner := TrimStart(blank, s);
    var back := TrimEndSplits(blank, inner);
    assert s == front + TrimBy(blank, s) + back;
    if TrimBy(blank, s) != "" { assert TrimBy(blank, s)[0] == inner[0]; }
  }

  lemma CoreIsTrim(blank: char -> bool, s: string, core: string)
    requires IsCoreBy(blank, s, core)
    ensures core == TrimBy(blank, s)
  {
    TrimIsCore(blank, s);
    CoresAgree(blank, s, core, TrimBy(blank, s));
  }

  lemma CoresAgree(blank: char -> bool, s: string, a: string, b: string)
    requires IsCoreBy(blank, s, a) && IsCoreBy(blank, s, b)
    ensures a == b
  {
    var f, t :| AllBlank(blank, f) && AllBlank(blank, t) && s == f + a + t;
    var g, u :| AllBlank(blank, g) && AllBlank(blank, u) && s == g + b + u;
    if a == "" {
      BlankHasNoCore(blank, s, g, b, u);
    } else if b == "" {
      BlankHasNoCore(blank, s, f, a, t);
    } else {
      assert g + b + u == g + (b + u) && f + a + t == f + (a + t);
      SameFront(blank, s, f, a, t, g, b, u);
      SameFront(blank, s, g, b, u, f, a, t);
      SameBack(blank, s, f, a, t, g, b, u);
      SameBack(blank, s, g, b, u, f, a, t);
      assert s[|f|..|s| - |t|] == a && s[|g|..|s| - |u|] == b;
    }
  }

  lemma CoreStarts(front: string, core: string, back: string)
    requires core != ""
    ensures |front| < |front + core + back| && (front + core + back)[|front|] == core[0]
  {
  }

  lemma BlankHasNoCore(blank: char -> bool, s: string, front: string, core: string, back: string)
    requires AllBlank(blank, s) && s == front + core + back
    requires core != "" ==> !blank(core[0])
    ensures core == ""
  {
    if core != "" { CoreStarts(front, core, back); }
  }

  lemma FrontIsBlank(blank: char -> bool, front: string, rest: string, i: nat)
    requires AllBlank(blank, front) && i < |front + rest|
    ensures i < |front| ==> blank((front + rest)[i])
  {
  }

  lemma BackIsBlank(blank: char -> bool, rest: string, back: string, i: nat)
    requires AllBlank(blank, back) && i < |rest + back|
    ensures |rest| <= i ==> blank((rest + back)[i])
  {
  }

  lemma SameFront(blank: char -> bool, s: string, f: string, a: string, t: string, g: string, b: string, u: string)
    requires s == f + (a + t) == g + (b + u) && AllBlank(blank, g) && a != "" && !blank(a[0])
    ensures |g| <= |f|
  {
    assert s[|f|] == a[0];
    FrontIsBlank(blank, g, b + u, |f|);
  }

  lemma SameBack(blank: char -> bool, s: string, f: string, a: string, t: string, g: string, b: string, u: string)
    requires s == (f + a) + t == (g + b) + u && AllBlank(blank, u) && a != "" && !blank(a[|a| - 1])
    ensures |u| <= |t|
  {
    var i := |f| + |a| - 1;
    assert s[i] == a[|a| - 1];
    BackIsBlank(blank, g + b, u, i);
  }

  lemma BlankIsTrimmedAway(s: string)
    ensures IsBlank(s) <==> Trim(s) == ""
    ensures IsCore(s, Trim(s))
  {
    TrimIsCore(IsWhitespace, s);
    if IsBlank(s) {
      var front, back :| AllBlank(IsWhitespace, front) && AllBlank(IsWhitespace, back) && s == front + Trim(s) + back;
      BlankHasNoCore(IsWhitespace, s, front, Trim(s), back);
    }
  }

  lemma CoreIsTrimmed(s: string, core: string)
    requires IsCore(s, core)
    ensures core == Trim(s)
  {
    CoreIsTrim(IsWhitespace, s, core);
  }

  // ---------------------------------------------------------------- letter case

  predicate EqualIgnoringCase(a: string, b: string) {
    Uppercase(a) == Uppercase(b)
  }
}
