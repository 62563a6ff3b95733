/**
 The evidence verifier's name filter: every name it lets through is spelled once, and means to an
 extractor exactly the path it is stored under.
 */
module EntryNames {
  import opened Wrappers
  import opened Text

  datatype NameProblem = Repeated | Blank | Absolute | Backslash | DotComponent | ControlCharacter

  /** `split("/")`: the pieces between slashes, at least one. */
  function Split(s: string): (parts: seq<string>)
    ensures parts != []
  {
    if s == [] then [""]
    else if s[0] == '/' then [""] + Split(s[1..])
    else
      var rest := Split(s[1..]);
      [[s[0]] + rest[0]] + rest[1..]
  }

  function Join(parts: seq<string>): string
    requires parts != []
  {
    if |parts| == 1 then parts[0] else parts[0] + "/" + Join(parts[1..])
  }

  lemma {:induction false} SplitJoins(s: string)
    ensures Join(Split(s)) == s
  {
    if s != [] {
      SplitJoins(s[1..]);
      var rest := Split(s[1..]);
      if s[0] != '/' {
        if |rest| > 1 { assert Split(s)[1..] == rest[1..]; }
      } else {
        assert Split(s)[1..] == rest;
      }
    }
  }

  /** The components a name stands for: a trailing slash is only the directory marker. */
  function Components(n: string): seq<string> {
    var parts := Split(n);
    if parts[|parts| - 1] == "" then parts[..|parts| - 1] else parts
  }

  predicate IsOdd(p: string) { p == "" || p == "." || p == ".." }

  function ProblemOf(n: string): Option<NameProblem> {
    if n == "" || n != Strip(n) then Some(Blank)
    else if n[0] == '/' || (|n| > 1 && n[1] == ':') then Some(Absolute)
    else if '\\' in n then Some(Backslash)
    else if exists i :: 0 <= i < |Components(n)| && IsOdd(Components(n)[i]) then Some(DotComponent)
    else if exists i :: 0 <= i < |n| && (n[i] as int) < 0x20 then Some(ControlCharacter)
    else None
  }

  predicate DistinctNames(names: seq<string>) {
    forall i, j :: 0 <= i < j < |names| ==> names[i] != names[j]
  }

  predicate SafeNames(names: seq<string>) {
    DistinctNames(names) && forall i :: 0 <= i < |names| ==> ProblemOf(names[i]) == None
  }

  // ---------------------------------------------------------------- what a clean name is

  /** A component that names a file or directory of its own: not empty, not one of the two dots, with no slash in it. */
  predicate IsPlain(part: string) {
    part != "" && part != "." && part != ".." && '/' !in part
  }

  ghost predicate IsPathOf(n: string, parts: seq<string>) {
    parts != [] && (forall i :: 0 <= i < |parts| ==> IsPlain(parts[i])) && (n == Join(parts) || n == Join(parts) + "/")
  }

  /**
   Plain components between single slashes, a trailing slash at most; no blank at either end, no drive letter, no
   backslash, no control character.
   */
  ghost predicate IsClean(n: string) {
    && n != "" && !IsSpace(n[0]) && !IsSpace(n[|n| - 1]) && (|n| > 1 ==> n[1] != ':')
    && (exists parts :: IsPathOf(n, parts))
    && (forall i :: 0 <= i < |n| ==> n[i] != '\\' && n[i] as int >= 0x20)
  }

  lemma {:induction false} PartsHaveNoSlash(s: string)
    ensures forall i :: 0 <= i < |Split(s)| ==> '/' !in Split(s)[i]
  {
    if s != [] {
      PartsHaveNoSlash(s[1..]);
      var rest := Split(s[1..]);
      forall i | 0 <= i < |Split(s)| ensures '/' !in Split(s)[i] {
        if s[0] == '/' {
          if i > 0 { assert Split(s)[i] == rest[i - 1]; }
        } else if i == 0 {
          assert Split(s)[0] == [s[0]] + rest[0];
        } else {
          assert Split(s)[i] == rest[i];
        }
      }
    }
  }

  lemma {:induction false} SplitOne(part: string)
    requires '/' !in part
    ensures Split(part) == [part]
  {
    if part != "" {
      SplitOne(part[1..]);
      assert part[0] in part && [part[0]] + part[1..] == part;
    }
  }

  lemma {:induction false} SplitFirst(part: string, more: string)
    requires '/' !in part
    ensures Split(part + "/" + more) == [part] + Split(more)
    decreases |part|
  {
    var s := part + "/" + more;
    if part == "" {
      assert s[1..] == more;
    } else {
      SplitFirst(part[1..], more);
      assert s[1..] == part[1..] + "/" + more;
      assert s[0] == part[0] && part[0] in part && [part[0]] + part[1..] == part;
      assert Split(s[1..])[1..] == Split(more);
    }
  }

  /** Splitting undoes joining, on components without slashes. */
  lemma {:induction false} SplitOfJoin(parts: seq<string>)
    requires parts != [] && forall i :: 0 <= i < |parts| ==> '/' !in parts[i]
    ensures Split(Join(parts)) == parts
  {
    if |parts| == 1 {
      SplitOne(parts[0]);
    } else {
      SplitOfJoin(parts[1..]);
      SplitFirst(parts[0], Join(parts[1..]));
    }
  }

  lemma PathIsComponents(n: string, parts: seq<string>)
    requires IsPathOf(n, parts)
    ensures Components(n) == parts
  {
    SplitOfJoin(parts);
    assert IsPlain(parts[|parts| - 1]);
    if n == Join(parts) + "/" && n != Join(parts) {
      SplitAddsEmpty(Join(parts));
    }
  }

  lemma ComponentsArePath(n: string)
    requires n != "" && Components(n) != [] && forall i :: 0 <= i < |Components(n)| ==> !IsOdd(Components(n)[i])
    ensures IsPathOf(n, Components(n))
  {
    NameFromComponents(n);
    PartsHaveNoSlash(n);
    forall i | 0 <= i < |Components(n)| ensures IsPlain(Components(n)[i]) {
      assert Components(n)[i] == Split(n)[i];
    }
  }

  lemma PathStarts(n: string, parts: seq<string>)
    requires IsPathOf(n, parts)
    ensures n != "" && n[0] != '/'
  {
    assert IsPlain(parts[0]);
    assert Join(parts)[0] == parts[0][0];
  }

  /** A name is let through exactly if it is clean. */
  lemma CleanIff(n: string)
    ensures ProblemOf(n) == None <==> IsClean(n)
  {
    StripIsWhole(n);
    if parts :| IsPathOf(n, parts) {
      PathIsComponents(n, parts);
      PathStarts(n, parts);
    }
    if n != "" && Components(n) != [] && forall i :: 0 <= i < |Components(n)| ==> !IsOdd(Components(n)[i]) {
      ComponentsArePath(n);
    }
    hide Strip, Components, IsPathOf, IsSpace;
  }

  lemma StripIsWhole(n: string)
    ensures n != "" ==> (n == Strip(n) <==> !IsSpace(n[0]) && !IsSpace(n[|n| - 1]))
  {
    TrimIsCore(IsSpace, n);
    if n != "" && !IsSpace(n[0]) && !IsSpace(n[|n| - 1]) {
      assert AllBlank(IsSpace, "") && n == "" + n + "";
      CoreIsTrim(IsSpace, n, n);
    }
  }

  /** The first offending name decides; nothing is reported exactly for a safe list. */
  method RejectUnsafeNames(names: seq<string>) returns (r: Option<NameProblem>)
    ensures r == None <==> SafeNames(names)
    ensures r == None <==> DistinctNames(names) && forall i :: 0 <= i < |names| ==> IsClean(names[i])
    ensures r.Some? ==> exists i :: 0 <= i < |names| && SafeNames(names[..i])
                          && (if names[i] in names[..i] then r == Some(Repeated) else r == ProblemOf(names[i]))
  {
    forall i | 0 <= i < |names| ensures ProblemOf(names[i]) == None <==> IsClean(names[i]) { CleanIff(names[i]); }
    hide ProblemOf, IsClean;
    var seen: set<string> := {};
    for i := 0 to |names|
      invariant forall n :: n in seen <==> n in names[..i]
      invariant SafeNames(names[..i])
    {
      var n := names[i];
      assert names[..i + 1] == names[..i] + [n];
      if n in seen {
        var j :| 0 <= j < i && names[..i][j] == n;
        return Some(Repeated);
      }
      seen := seen + {n};
      var problem := CheckName(n);
      if problem.Some? {
        assert ProblemOf(names[i]) != None;
        return problem;
      }
    }
    assert names[..|names|] == names;
    return None;
  }

  method CheckName(n: string) returns (r: Option<NameProblem>)
    ensures r == ProblemOf(n)
  {
    hide Strip, Components;
    if n == "" || n != Strip(n) {
      return Some(Blank);
    }
    if n[0] == '/' || (|n| > 1 && n[1] == ':') {
      return Some(Absolute);
    }
    if '\\' in n {
      return Some(Backslash);
    }
    var body := Components(n);
    for i := 0 to |body|
      invariant forall j :: 0 <= j < i ==> !IsOdd(body[j])
    {
      if IsOdd(body[i]) {
        return Some(DotComponent);
      }
    }
    for i := 0 to |n|
      invariant forall j :: 0 <= j < i ==> !((n[j] as int) < 0x20)
    {
      if (n[i] as int) < 0x20 {
        return Some(ControlCharacter);
      }
    }
    return None;
  }

  // ---------------------------------------------------------------- what an extractor makes of a name

  datatype Resolved = Under(path: seq<string>) | Escapes

  /** A relative path as an operating system walks it from the extraction root. */
  function Walk(parts: seq<string>, at: seq<string>): Resolved
    decreases |parts|
  {
    if parts == [] then Under(at)
    else if parts[0] == "" || parts[0] == "." then Walk(parts[1..], at)
    else if parts[0] == ".." then if at == [] then Escapes else Walk(parts[1..], at[..|at| - 1])
    else Walk(parts[1..], at + [parts[0]])
  }

  function PathOf(n: string): Resolved { Walk(Split(n), []) }

  lemma {:induction false} PlainWalk(parts: seq<string>, at: seq<string>)
    requires forall i :: 0 <= i < |parts| ==> !IsOdd(parts[i])
    ensures Walk(parts, at) == Under(at + parts)
    ensures Walk(parts + [""], at) == Under(at + parts)
    decreases |parts|
  {
    if parts != [] {
      PlainWalk(parts[1..], at + [parts[0]]);
      assert (parts + [""])[1..] == parts[1..] + [""];
      assert at + [parts[0]] + parts[1..] == at + parts;
    }
  }

  /** An accepted name is walked to its own components: it stays under the root and nothing is reinterpreted. */
  lemma AcceptedNameIsLiteral(n: string)
    requires ProblemOf(n) == None
    ensures PathOf(n) == Under(Components(n))
    ensures Components(n) != [] && forall i :: 0 <= i < |Components(n)| ==> !IsOdd(Components(n)[i])
  {
    var parts := Split(n);
    SplitJoins(n);
    PlainWalk(Components(n), []);
    if parts[|parts| - 1] == "" {
      assert parts == Components(n) + [""];
    }
  }

  predicate IsDirectory(n: string) { n != "" && n[|n| - 1] == '/' }

  lemma {:induction false} DirectoryEndsEmpty(n: string)
    requires n != ""
    ensures IsDirectory(n) <==> Split(n)[|Split(n)| - 1] == ""
  {
    if |n| > 1 {
      DirectoryEndsEmpty(n[1..]);
      var rest := Split(n[1..]);
      assert |rest| == 1 ==> rest[0] == Join(rest);
      SplitJoins(n[1..]);
      if n[0] != '/' && |rest| > 1 {
        assert Split(n)[|Split(n)| - 1] == rest[|rest| - 1];
      }
    }
  }

  /** Two accepted names land on one path exactly when they are equal but for a directory's trailing slash. */
  lemma PathsCollideOnlyAsDirectory(a: string, b: string)
    requires ProblemOf(a) == None && ProblemOf(b) == None
    ensures PathOf(a) == PathOf(b) <==> a == b || a + "/" == b || b + "/" == a
  {
    AcceptedNameIsLiteral(a);
    AcceptedNameIsLiteral(b);
    NameFromComponents(a);
    NameFromComponents(b);
    if a + "/" == b || b + "/" == a {
      DropSlash(if |a| < |b| then a else b);
    }
  }

  lemma NameFromComponents(n: string)
    requires n != "" && Components(n) != []
    ensures n == Join(Components(n)) + if IsDirectory(n) then "/" else ""
  {
    SplitJoins(n);
    DirectoryEndsEmpty(n);
    if IsDirectory(n) {
      assert Split(n) == Components(n) + [""];
      JoinWithEmpty(Components(n));
    }
  }

  lemma {:induction false} JoinWithEmpty(parts: seq<string>)
    requires parts != []
    ensures Join(parts + [""]) == Join(parts) + "/"
  {
    assert (parts + [""])[1..] == parts[1..] + [""];
    if |parts| > 1 { JoinWithEmpty(parts[1..]); }
  }

  lemma {:induction false} SplitAddsEmpty(n: string)
    ensures Split(n + "/") == Split(n) + [""]
  {
    if n != "" {
      SplitAddsEmpty(n[1..]);
      assert (n + "/")[1..] == n[1..] + "/";
    } else {
      assert n + "/" == "/";
      assert Split("/"[1..]) == [""];
    }
  }

  lemma DropSlash(n: string)
    requires ProblemOf(n) == None && ProblemOf(n + "/") == None
    ensures Components(n + "/") == Components(n)
  {
    SplitAddsEmpty(n);
    AcceptedNameIsLiteral(n + "/");
    assert Components(n + "/") == Split(n);
  }

  /** In an accepted list, distinct files extract to distinct paths, all under the root. */
  lemma FilesExtractApart(names: seq<string>, i: nat, j: nat)
    requires SafeNames(names) && i < j < |names| && !IsDirectory(names[i]) && !IsDirectory(names[j])
    ensures PathOf(names[i]).Under? && PathOf(names[j]).Under? && PathOf(names[i]) != PathOf(names[j])
  {
    AcceptedNameIsLiteral(names[i]);
    AcceptedNameIsLiteral(names[j]);
    PathsCollideOnlyAsDirectory(names[i], names[j]);
  }
}
