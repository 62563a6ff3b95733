/**
 The text of a translated type in the three client languages, and what a reader of that language makes of it.
 A text is a list of lexemes. The grammar covers the type expressions of all three: union chains, postfix
 `[]`, words with arguments in `<...>` or `[...]`, and bracketed groups.
 */
module TypeText {
  import opened Wrappers
  import opened Schemas
  import opened TypeTranslation

  datatype Lang = TypeScript | Python | Rust

  type Lexemes = seq<string>

  const PUNCTUATION: set<string> := {"<", ">", "[", "]", ",", ";", "|"}

  // ------------------------------------------------------------------ rendering

  function Joined(item: Lexemes, n: nat): Lexemes {
    if n == 0 then [] else if n == 1 then item else item + ([","] + Joined(item, n - 1))
  }

  function Digit(n: nat): (s: string)
    requires n < 10
    ensures |s| == 1 && '0' <= s[0] <= '9'
  {
    [('0' as int + n) as char]
  }

  function ScalarWord(ty: Ty, lang: Lang): string
    requires ty.Anything? || ty.Text? || ty.Integer? || ty.Number? || ty.Truth?
  {
    match ty
    case Anything => (match lang case TypeScript => "unknown" case Python => "object" case Rust => "serde_json::Value")
    case Text => (match lang case TypeScript => "string" case Python => "str" case Rust => "String")
    case Integer => (match lang case TypeScript => "number" case Python => "int" case Rust => "i64")
    case Number => (match lang case TypeScript => "number" case Python => "float" case Rust => "f64")
    case Truth => (match lang case TypeScript => "boolean" case Python => "bool" case Rust => "bool")
  }

  /** The tuples the translation makes have one to eight elements. */
  predicate Sized(ty: Ty) {
    match ty
    case Optional(t) => Sized(t)
    case Tuple(t, n) => 1 <= n <= 8 && Sized(t)
    case List(t) => Sized(t)
    case Map(t) => Sized(t)
    case _ => true
  }

  function Render(ty: Ty, lang: Lang): Lexemes
    requires Sized(ty)
  {
    match ty
    case Named(n) => [n]
    case Optional(t) =>
      (match lang
       case TypeScript => Render(t, lang) + ["|", "null"]
       case Python => Render(t, lang) + ["|", "None"]
       case Rust => ["Option", "<"] + (Render(t, lang) + [">"]))
    case Tuple(t, n) =>
      (match lang
       case TypeScript => ["["] + (Joined(Render(t, lang), n) + ["]"])
       case Python => ["tuple", "["] + (Joined(Render(t, lang), n) + ["]"])
       case Rust => ["["] + (Render(t, lang) + [";", Digit(n), "]"]))
    case List(t) =>
      (match lang
       case TypeScript => Render(t, lang) + ["[", "]"]
       case Python => ["list", "["] + (Render(t, lang) + ["]"])
       case Rust => ["Vec", "<"] + (Render(t, lang) + [">"]))
    case Map(t) =>
      (match lang
       case TypeScript => ["Record", "<", "string", ","] + (Render(t, lang) + [">"])
       case Python => ["dict", "[", "str", ","] + (Render(t, lang) + ["]"])
       case Rust => ["std::collections::HashMap", "<", "String", ","] + (Render(t, lang) + [">"]))
    case _ => [ScalarWord(ty, lang)]
  }

  // ------------------------------------------------------------------ the grammar of type expressions

  datatype Tree = Word(text: string, args: seq<Tree>) | Group(items: seq<Tree>) | Array(of: Tree) | Union(left: Tree, right: Tree)

  datatype Parsed<T> = Parsed(value: T, rest: Lexemes)

  predicate At(s: Lexemes, lexeme: string) {
    s != [] && s[0] == lexeme
  }

  /** union := postfix ("|" postfix)* */
  function ParseUnion(s: Lexemes): (p: Option<Parsed<Tree>>)
    ensures p.Some? ==> |p.value.rest| < |s|
    decreases |s|, 3
  {
    match ParsePostfix(s) case None => None case Some(p) => ParseMore(p.value, p.rest)
  }

  function ParseMore(acc: Tree, s: Lexemes): (p: Option<Parsed<Tree>>)
    ensures p.Some? ==> |p.value.rest| <= |s|
    decreases |s|, 3
  {
    if !At(s, "|") then Some(Parsed(acc, s))
    else match ParsePostfix(s[1..]) case None => None case Some(p) => ParseMore(Union(acc, p.value), p.rest)
  }

  /** postfix := primary ("[" "]")* */
  function ParsePostfix(s: Lexemes): (p: Option<Parsed<Tree>>)
    ensures p.Some? ==> |p.value.rest| < |s|
    decreases |s|, 2
  {
    match ParsePrimary(s) case None => None case Some(p) => Some(Suffixes(p.value, p.rest))
  }

  function Suffixes(acc: Tree, s: Lexemes): (p: Parsed<Tree>)
    ensures |p.rest| <= |s|
    decreases |s|
  {
    if At(s, "[") && At(s[1..], "]") then Suffixes(Array(acc), s[2..]) else Parsed(acc, s)
  }

  /** primary := "[" list "]" | word | word "<" list ">" | word "[" list "]" */
  function ParsePrimary(s: Lexemes): (p: Option<Parsed<Tree>>)
    ensures p.Some? ==> |p.value.rest| < |s|
    decreases |s|, 1
  {
    if s == [] then None
    else if s[0] == "[" then
      match ParseList(s[1..])
      case None => None
      case Some(p) => if At(p.rest, "]") then Some(Parsed(Group(p.value), p.rest[1..])) else None
    else if s[0] in PUNCTUATION then None
    else if At(s[1..], "<") || (At(s[1..], "[") && !At(s[2..], "]")) then
      match ParseList(s[2..])
      case None => None
      case Some(p) =>
        if At(p.rest, if s[1] == "<" then ">" else "]") then Some(Parsed(Word(s[0], p.value), p.rest[1..])) else None
    else Some(Parsed(Word(s[0], []), s[1..]))
  }

  /** list := union (("," | ";") union)* */
  function ParseList(s: Lexemes): (p: Option<Parsed<seq<Tree>>>)
    ensures p.Some? ==> |p.value.rest| < |s|
    decreases |s|, 4
  {
    match ParseUnion(s)
    case None => None
    case Some(p) =>
      if !At(p.rest, ",") && !At(p.rest, ";") then Some(Parsed([p.value], p.rest))
      else match ParseList(p.rest[1..]) case None => None case Some(q) => Some(Parsed([p.value] + q.value, q.rest))
  }

  // ------------------------------------------------------------------ what a reader of the language understands

  predicate AllEqual(items: seq<Tree>) {
    forall i :: 0 <= i < |items| ==> items[i] == items[0]
  }

  function Plain(w: string): Tree {
    Word(w, [])
  }

  function DenoteWord(w: string, lang: Lang): Option<Ty> {
    match lang
    case TypeScript =>
      if w == "unknown" then Some(Anything) else if w == "string" then Some(Text)
      else if w == "number" then Some(Number) else if w == "boolean" then Some(Truth)
      else if w == "null" || w == "Record" then None else Some(Named(w))
    case Python =>
      if w == "object" then Some(Anything) else if w == "str" then Some(Text)
      else if w == "int" then Some(Integer) else if w == "float" then Some(Number) else if w == "bool" then Some(Truth)
      else if w == "None" || w == "tuple" || w == "list" || w == "dict" then None else Some(Named(w))
    case Rust =>
      if w == "serde_json::Value" then Some(Anything) else if w == "String" then Some(Text)
      else if w == "i64" then Some(Integer) else if w == "f64" then Some(Number) else if w == "bool" then Some(Truth)
      else if w == "Option" || w == "Vec" || w == "std::collections::HashMap" then None else Some(Named(w))
  }

  /** The translated type a type expression stands for, if it stands for one. */
  function Denote(t: Tree, lang: Lang): Option<Ty> {
    match lang
    case TypeScript =>
      (match t
       case Word(w, args) =>
         if args == [] then DenoteWord(w, lang)
         else if w == "Record" && |args| == 2 && args[0] == Plain("string") then
           (match Denote(args[1], lang) case None => None case Some(v) => Some(Map(v)))
         else None
       case Group(items) =>
         if items == [] || !AllEqual(items) then None
         else (match Denote(items[0], lang) case None => None case Some(v) => Some(Tuple(v, |items|)))
       case Array(of) => (match Denote(of, lang) case None => None case Some(v) => Some(List(v)))
       case Union(left, right) =>
         if right != Plain("null") then None
         else (match Denote(left, lang) case None => None case Some(v) => Some(Optional(v))))
    case Python =>
      (match t
       case Word(w, args) =>
         if args == [] then DenoteWord(w, lang)
         else if w == "list" && |args| == 1 then
           (match Denote(args[0], lang) case None => None case Some(v) => Some(List(v)))
         else if w == "tuple" && AllEqual(args) then
           (match Denote(args[0], lang) case None => None case Some(v) => Some(Tuple(v, |args|)))
         else if w == "dict" && |args| == 2 && args[0] == Plain("str") then
           (match Denote(args[1], lang) case None => None case Some(v) => Some(Map(v)))
         else None
       case Union(left, right) =>
         if right != Plain("None") then None
         else (match Denote(left, lang) case None => None case Some(v) => Some(Optional(v)))
       case _ => None)
    case Rust =>
      (match t
       case Word(w, args) =>
         if args == [] then DenoteWord(w, lang)
         else if w == "Option" && |args| == 1 then
           (match Denote(args[0], lang) case None => None case Some(v) => Some(Optional(v)))
         else if w == "Vec" && |args| == 1 then
           (match Denote(args[0], lang) case None => None case Some(v) => Some(List(v)))
         else if w == "std::collections::HashMap" && |args| == 2 && args[0] == Plain("String") then
           (match Denote(args[1], lang) case None => None case Some(v) => Some(Map(v)))
         else None
       case Group(items) =>
         if |items| != 2 || !items[1].Word? || |items[1].text| != 1 || !('0' <= items[1].text[0] <= '9') then None
         else
           (match Denote(items[0], lang)
            case None => None
            case Some(v) => Some(Tuple(v, items[1].text[0] as int - '0' as int)))
       case _ => None)
  }

  function Read(s: Lexemes, lang: Lang): Option<Ty> {
    match ParseUnion(s)
    case Some(p) => if p.rest == [] then Denote(p.value, lang) else None
    case None => None
  }

  /** TypeScript has one type of numbers. */
  function Seen(ty: Ty, lang: Lang): Ty {
    match ty
    case Optional(t) => Optional(Seen(t, lang))
    case Tuple(t, n) => Tuple(Seen(t, lang), n)
    case List(t) => List(Seen(t, lang))
    case Map(t) => Map(Seen(t, lang))
    case Integer => if lang.TypeScript? then Number else Integer
    case _ => ty
  }

  /** No schema is called like a word of the language. */
  predicate NamesFree(ty: Ty, lang: Lang) {
    match ty
    case Named(n) => n !in PUNCTUATION && DenoteWord(n, lang) == Some(Named(n))
    case Optional(t) => NamesFree(t, lang)
    case Tuple(t, _) => NamesFree(t, lang)
    case List(t) => NamesFree(t, lang)
    case Map(t) => NamesFree(t, lang)
    case _ => true
  }

  /** Somewhere a growable list has nullable items. */
  predicate ListsNullable(ty: Ty) {
    match ty
    case List(t) => t.Optional? || ListsNullable(t)
    case Optional(t) => ListsNullable(t)
    case Tuple(t, _) => ListsNullable(t)
    case Map(t) => ListsNullable(t)
    case _ => false
  }

  // ------------------------------------------------------------------ the tree of a rendering

  /** `[]` binds to the last member of a union. */
  function Suffixed(t: Tree): Tree {
    match t case Union(left, right) => Union(left, Array(right)) case _ => Array(t)
  }

  function Times(t: Tree, n: nat): seq<Tree> {
    if n == 0 then [] else [t] + Times(t, n - 1)
  }

  function TreeOf(ty: Ty, lang: Lang): Tree
    requires Sized(ty)
  {
    match ty
    case Named(n) => Plain(n)
    case Optional(t) =>
      (match lang
       case TypeScript => Union(TreeOf(t, lang), Plain("null"))
       case Python => Union(TreeOf(t, lang), Plain("None"))
       case Rust => Word("Option", [TreeOf(t, lang)]))
    case Tuple(t, n) =>
      (match lang
       case TypeScript => Group(Times(TreeOf(t, lang), n))
       case Python => Word("tuple", Times(TreeOf(t, lang), n))
       case Rust => Group([TreeOf(t, lang), Plain(Digit(n))]))
    case List(t) =>
      (match lang
       case TypeScript => Suffixed(TreeOf(t, lang))
       case Python => Word("list", [TreeOf(t, lang)])
       case Rust => Word("Vec", [TreeOf(t, lang)]))
    case Map(t) =>
      (match lang
       case TypeScript => Word("Record", [Plain("string"), TreeOf(t, lang)])
       case Python => Word("dict", [Plain("str"), TreeOf(t, lang)])
       case Rust => Word("std::collections::HashMap", [Plain("String"), TreeOf(t, lang)]))
    case _ => Plain(ScalarWord(ty, lang))
  }

  /** The rest of a parse that has read a whole union chain: suffixes of its last member, then more members. */
  function Resume(t: Tree, s: Lexemes): Option<Parsed<Tree>> {
    match t
    case Union(left, right) => var p := Suffixes(right, s); ParseMore(Union(left, p.value), p.rest)
    case _ => var p := Suffixes(t, s); ParseMore(p.value, p.rest)
  }

  /** What may follow a type without being taken for its arguments. */
  predicate Clean(s: Lexemes) {
    !At(s, "<") && (At(s, "[") ==> At(s[1..], "]"))
  }

  /** What ends a type. */
  predicate Stops(s: Lexemes) {
    s == [] || s[0] in {">", "]", ",", ";"}
  }

  lemma ResumeStops(t: Tree, s: Lexemes)
    requires Stops(s)
    ensures Resume(t, s) == Some(Parsed(t, s))
  {
  }

  lemma WordReads(w: string, s: Lexemes)
    requires w !in PUNCTUATION && Clean(s)
    ensures ParseUnion([w] + s) == Resume(Plain(w), s)
  {
    var l := [w] + s;
    assert l[1..] == s;
    assert At(s, "[") ==> l[2..] == s[1..];
    assert ParsePrimary(l) == Some(Parsed(Plain(w), s));
  }

  /** A word with its arguments. */
  lemma ApplicationReads(w: string, open: string, inside: Lexemes, items: seq<Tree>, s: Lexemes)
    requires w !in PUNCTUATION && (open == "<" || (open == "[" && inside != [] && inside[0] != "]"))
    requires var close := if open == "<" then ">" else "]";
             ParseList(inside + ([close] + s)) == Some(Parsed(items, [close] + s))
    ensures var close := if open == "<" then ">" else "]";
            ParseUnion([w, open] + (inside + ([close] + s))) == Resume(Word(w, items), s)
  {
    var close := if open == "<" then ">" else "]";
    var l := [w, open] + (inside + ([close] + s));
    assert l[1..][0] == open;
    assert l[2..] == inside + ([close] + s);
    assert ([close] + s)[1..] == s;
    assert ParsePrimary(l) == Some(Parsed(Word(w, items), s));
  }

  lemma GroupReads(inside: Lexemes, items: seq<Tree>, s: Lexemes)
    requires ParseList(inside + (["]"] + s)) == Some(Parsed(items, ["]"] + s))
    ensures ParseUnion(["["] + (inside + (["]"] + s))) == Resume(Group(items), s)
  {
    var l := ["["] + (inside + (["]"] + s));
    assert l[1..] == inside + (["]"] + s);
    assert (["]"] + s)[1..] == s;
    assert ParsePrimary(l) == Some(Parsed(Group(items), s));
  }

  lemma Regroup(a: Lexemes, b: Lexemes, c: Lexemes, s: Lexemes)
    ensures a + (b + c) + s == a + (b + (c + s))
  {
  }

  lemma RenderOpens(ty: Ty, lang: Lang)
    requires Sized(ty) && NamesFree(ty, lang)
    ensures Render(ty, lang) != [] && Render(ty, lang)[0] != "]"
  {
  }

  lemma ListStep(s: Lexemes, t: Tree, rest: Lexemes, items: seq<Tree>, end: Lexemes)
    requires ParseUnion(s) == Some(Parsed(t, rest)) && (At(rest, ",") || At(rest, ";"))
    requires ParseList(rest[1..]) == Some(Parsed(items, end))
    ensures ParseList(s) == Some(Parsed([t] + items, end))
  {
    hide ParseUnion;
  }

  lemma ListEnd(s: Lexemes, t: Tree, rest: Lexemes)
    requires ParseUnion(s) == Some(Parsed(t, rest)) && !At(rest, ",") && !At(rest, ";")
    ensures ParseList(s) == Some(Parsed([t], rest))
  {
    hide ParseUnion;
  }

  /** `n` copies of an item separated by commas are read as a list of `n`. */
  lemma {:induction false} JoinedReads(item: Lexemes, t: Tree, n: nat, s: Lexemes)
    requires n >= 1 && Stops(s) && !At(s, ",") && !At(s, ";")
    requires forall r :: Clean(r) ==> ParseUnion(item + r) == Resume(t, r)
    ensures ParseList(Joined(item, n) + s) == Some(Parsed(Times(t, n), s))
  {
    hide ParseUnion, ParseList, Resume;
    if n == 1 {
      assert Clean(s);
      ResumeStops(t, s);
      ListEnd(item + s, t, s);
      assert Times(t, 1) == [t];
    } else {
      var more := Joined(item, n - 1);
      var rest := [","] + (more + s);
      assert Joined(item, n) + s == item + rest;
      assert Clean(rest);
      ResumeStops(t, rest);
      assert rest[1..] == more + s;
      JoinedReads(item, t, n - 1, s);
      ListStep(item + rest, t, rest, Times(t, n - 1), s);
    }
  }

  /** A rendering is read as its tree, and what follows it is read on from there. */
  lemma {:induction false} RenderReads(ty: Ty, lang: Lang, s: Lexemes)
    requires Sized(ty) && NamesFree(ty, lang) && Clean(s)
    ensures ParseUnion(Render(ty, lang) + s) == Resume(TreeOf(ty, lang), s)
    decreases ty, 0
  {
    match ty {
      case Named(n) => WordReads(n, s);
      case Optional(t) => OptionalReads(t, lang, s);
      case Tuple(t, n) => TupleReads(t, n, lang, s);
      case List(t) => ListReads(t, lang, s);
      case Map(t) => MapReads(t, lang, s);
      case _ => WordReads(ScalarWord(ty, lang), s);
    }
  }

  lemma {:induction false} OneReads(t: Ty, lang: Lang, close: string, s: Lexemes)
    requires Sized(t) && NamesFree(t, lang) && close in {">", "]"}
    ensures ParseList(Render(t, lang) + ([close] + s)) == Some(Parsed([TreeOf(t, lang)], [close] + s))
    decreases t, 1
  {
    RenderReads(t, lang, [close] + s);
    ResumeStops(TreeOf(t, lang), [close] + s);
  }

  lemma {:induction false} OptionalReads(t: Ty, lang: Lang, s: Lexemes)
    requires Sized(t) && NamesFree(t, lang) && Clean(s)
    ensures ParseUnion(Render(Optional(t), lang) + s) == Resume(TreeOf(Optional(t), lang), s)
    decreases t, 2
  {
    hide ParseUnion, ParseList, Resume;
    if lang.Rust? {
      OneReads(t, lang, ">", s);
      ApplicationReads("Option", "<", Render(t, lang), [TreeOf(t, lang)], s);
      assert Render(Optional(t), lang) + s == ["Option", "<"] + (Render(t, lang) + ([">"] + s));
    } else {
      var nothing := if lang.TypeScript? then "null" else "None";
      var rest := ["|", nothing] + s;
      assert Render(Optional(t), lang) + s == Render(t, lang) + rest;
      RenderReads(t, lang, rest);
      MemberReads(TreeOf(t, lang), nothing, s);
    }
  }

  lemma MemberReads(t: Tree, w: string, s: Lexemes)
    requires w !in PUNCTUATION && Clean(s)
    ensures Resume(t, ["|", w] + s) == Resume(Union(t, Plain(w)), s)
  {
    var l := ["|", w] + s;
    assert l[1..] == [w] + s;
    var m := [w] + s;
    assert m[1..] == s;
    assert At(s, "[") ==> m[2..] == s[1..];
    assert ParsePrimary(m) == Some(Parsed(Plain(w), s));
    assert ParsePostfix(m) == Some(Suffixes(Plain(w), s));
  }

  lemma {:induction false} TupleReads(t: Ty, n: nat, lang: Lang, s: Lexemes)
    requires Sized(Tuple(t, n)) && NamesFree(t, lang) && Clean(s)
    ensures ParseUnion(Render(Tuple(t, n), lang) + s) == Resume(TreeOf(Tuple(t, n), lang), s)
    decreases t, 2
  {
    if lang.Rust? {
      ArrayReads(t, n, s);
    } else {
      var item, tree := Render(t, lang), TreeOf(t, lang);
      hide ParseUnion, ParseList, Resume;
      RenderOpens(t, lang);
      forall r | Clean(r) ensures ParseUnion(item + r) == Resume(tree, r) {
        RenderReads(t, lang, r);
      }
      JoinedReads(item, tree, n, ["]"] + s);
      var inside := Joined(item, n);
      if lang.TypeScript? {
        GroupReads(inside, Times(tree, n), s);
        Regroup(["["], inside, ["]"], s);
      } else {
        assert inside[0] == item[0];
        ApplicationReads("tuple", "[", inside, Times(tree, n), s);
        Regroup(["tuple", "["], inside, ["]"], s);
      }
    }
  }

  /** Rust's `[T; n]`. */
  lemma {:induction false} ArrayReads(t: Ty, n: nat, s: Lexemes)
    requires Sized(Tuple(t, n)) && NamesFree(t, Rust) && Clean(s)
    ensures ParseUnion(Render(Tuple(t, n), Rust) + s) == Resume(TreeOf(Tuple(t, n), Rust), s)
    decreases t, 1
  {
    hide ParseUnion, ParseList, Resume;
    var item, tree, length := Render(t, Rust), TreeOf(t, Rust), Digit(n);
    var rest := [";", length, "]"] + s;
    RenderReads(t, Rust, rest);
    ResumeStops(tree, rest);
    assert rest[1..] == [length] + (["]"] + s);
    WordReads(length, ["]"] + s);
    ResumeStops(Plain(length), ["]"] + s);
    ListEnd(rest[1..], Plain(length), ["]"] + s);
    ListStep(item + rest, tree, rest, [Plain(length)], ["]"] + s);
    assert [tree] + [Plain(length)] == [tree, Plain(length)];
    var inside := item + [";", length];
    assert inside + (["]"] + s) == item + rest;
    GroupReads(inside, [tree, Plain(length)], s);
    assert Render(Tuple(t, n), Rust) + s == ["["] + (inside + (["]"] + s));
  }

  lemma SuffixReads(t: Tree, s: Lexemes)
    requires Clean(s)
    ensures Clean(["[", "]"] + s) && Resume(t, ["[", "]"] + s) == Resume(Suffixed(t), s)
  {
    var rest := ["[", "]"] + s;
    assert rest[1..] == ["]"] + s && rest[2..] == s;
    hide ParseMore;
  }

  lemma {:induction false} ListReads(t: Ty, lang: Lang, s: Lexemes)
    requires Sized(t) && NamesFree(t, lang) && Clean(s)
    ensures ParseUnion(Render(List(t), lang) + s) == Resume(TreeOf(List(t), lang), s)
    decreases t, 2
  {
    hide ParseUnion, ParseList, Resume;
    var item, tree := Render(t, lang), TreeOf(t, lang);
    match lang {
      case TypeScript =>
        assert Clean(["[", "]"] + s);
        var rest := ["[", "]"] + s;
        assert Render(List(t), lang) + s == item + rest;
        RenderReads(t, lang, rest);
        SuffixReads(tree, s);
      case Python =>
        RenderOpens(t, lang);
        OneReads(t, lang, "]", s);
        ApplicationReads("list", "[", item, [tree], s);
        assert Render(List(t), lang) + s == ["list", "["] + (item + (["]"] + s));
      case Rust =>
        OneReads(t, lang, ">", s);
        ApplicationReads("Vec", "<", item, [tree], s);
        assert Render(List(t), lang) + s == ["Vec", "<"] + (item + ([">"] + s));
    }
  }

  lemma {:induction false} MapReads(t: Ty, lang: Lang, s: Lexemes)
    requires Sized(t) && NamesFree(t, lang) && Clean(s)
    ensures ParseUnion(Render(Map(t), lang) + s) == Resume(TreeOf(Map(t), lang), s)
    decreases t, 3
  {
    var item, tree := Render(t, lang), TreeOf(t, lang);
    match lang {
      case TypeScript => PairReads(t, lang, "Record", "<", "string", s);
      case Python => PairReads(t, lang, "dict", "[", "str", s);
      case Rust => PairReads(t, lang, "std::collections::HashMap", "<", "String", s);
    }
  }

  lemma PairList(key: string, item: Lexemes, tree: Tree, close: string, s: Lexemes)
    requires key !in PUNCTUATION && ParseList(item + ([close] + s)) == Some(Parsed([tree], [close] + s))
    ensures ParseList([key, ","] + item + ([close] + s)) == Some(Parsed([Plain(key), tree], [close] + s))
  {
    hide ParseUnion, ParseList, Resume;
    var rest := [","] + (item + ([close] + s));
    assert rest[1..] == item + ([close] + s);
    WordReads(key, rest);
    ResumeStops(Plain(key), rest);
    ListStep([key] + rest, Plain(key), rest, [tree], [close] + s);
    assert [Plain(key)] + [tree] == [Plain(key), tree];
    assert [key, ","] + item + ([close] + s) == [key] + rest;
  }

  lemma {:induction false} PairReads(t: Ty, lang: Lang, w: string, open: string, key: string, s: Lexemes)
    requires Sized(t) && NamesFree(t, lang)
    requires w !in PUNCTUATION && key !in PUNCTUATION && open in {"<", "["}
    ensures var close := if open == "<" then ">" else "]";
            ParseUnion([w, open, key, ","] + (Render(t, lang) + [close]) + s) ==
            Resume(Word(w, [Plain(key), TreeOf(t, lang)]), s)
    decreases t, 2
  {
    var close := if open == "<" then ">" else "]";
    var item, tree := Render(t, lang), TreeOf(t, lang);
    var inside := [key, ","] + item;
    assert key != "]" && inside[0] == key;
    hide ParseUnion, ParseList, Resume, Render, TreeOf;
    OneReads(t, lang, close, s);
    PairList(key, item, tree, close, s);
    ApplicationReads(w, open, inside, [Plain(key), tree], s);
    Regroup([w, open], inside, [close], s);
    assert [w, open, key, ","] + (item + [close]) == [w, open] + (inside + [close]);
  }

  // ------------------------------------------------------------------ the renderings denote the translated type

  lemma {:induction false} TimesIs(t: Tree, n: nat)
    ensures |Times(t, n)| == n && forall i :: 0 <= i < n ==> Times(t, n)[i] == t
  {
    if n > 0 {
      TimesIs(t, n - 1);
    }
  }

  /** The tree is a union exactly where a `[]` would bind to the wrong part. */
  lemma {:induction false} UnionOfLists(ty: Ty)
    requires Sized(ty)
    ensures TreeOf(ty, TypeScript).Union? ==> ty.Optional? || ListsNullable(ty)
    ensures ty.Optional? ==> TreeOf(ty, TypeScript).Union?
    ensures ty.List? && ty.of.Optional? ==> Denote(TreeOf(ty, TypeScript), TypeScript).None?
  {
    if ty.List? {
      UnionOfLists(ty.of);
    }
  }

  lemma {:induction false} TreeDenotes(ty: Ty, lang: Lang)
    requires Sized(ty) && NamesFree(ty, lang)
    ensures Denote(TreeOf(ty, lang), lang) ==
            if lang.TypeScript? && ListsNullable(ty) then None else Some(Seen(ty, lang))
  {
    match ty {
      case Optional(t) => TreeDenotes(t, lang);
      case Tuple(t, n) =>
        TreeDenotes(t, lang);
        TimesIs(TreeOf(t, lang), n);
      case List(t) =>
        TreeDenotes(t, lang);
        if lang.TypeScript? {
          UnionOfLists(t);
          UnionOfLists(ty);
          SuffixedDenotes(TreeOf(t, lang));
        }
      case Map(t) => TreeDenotes(t, lang);
      case _ =>
    }
  }

  lemma SuffixedDenotes(t: Tree)
    ensures Denote(Suffixed(t), TypeScript) ==
            if t.Union? then None
            else match Denote(t, TypeScript) case None => None case Some(v) => Some(List(v))
  {
  }

  lemma TextDenotes(ty: Ty, lang: Lang)
    requires Sized(ty) && NamesFree(ty, lang)
    ensures Read(Render(ty, lang), lang) ==
            if lang.TypeScript? && ListsNullable(ty) then None else Some(Seen(ty, lang))
  {
    hide ParseUnion;
    RenderReads(ty, lang, []);
    assert Render(ty, lang) + [] == Render(ty, lang);
    ResumeStops(TreeOf(ty, lang), []);
    TreeDenotes(ty, lang);
  }

  /** Python and Rust text denotes the translated type, always. */
  lemma PythonAndRustAgree(ty: Ty)
    requires Sized(ty) && NamesFree(ty, Python) && NamesFree(ty, Rust)
    ensures Read(Render(ty, Python), Python) == Some(ty) == Read(Render(ty, Rust), Rust)
  {
    hide Read, Render;
    TextDenotes(ty, Python);
    TextDenotes(ty, Rust);
    SeenElsewhere(ty, Python);
    SeenElsewhere(ty, Rust);
  }

  lemma SeenElsewhere(ty: Ty, lang: Lang)
    requires !lang.TypeScript?
    ensures Seen(ty, lang) == ty
  {
  }

  /** TypeScript text denotes it, up to the one type of numbers, exactly when no list has nullable items. */
  lemma TypeScriptAgreesIff(ty: Ty)
    requires Sized(ty) && NamesFree(ty, TypeScript)
    ensures Read(Render(ty, TypeScript), TypeScript) == Some(Seen(ty, TypeScript)) <==> !ListsNullable(ty)
  {
    TextDenotes(ty, TypeScript);
  }

  /** The list of nullable strings comes out as a string, or an array of nulls. */
  lemma ListOfNullableIsMisread()
    ensures Render(List(Optional(Text)), TypeScript) == ["string", "|", "null", "[", "]"]
    ensures ParseUnion(["string", "|", "null", "[", "]"]) ==
            Some(Parsed(Union(Plain("string"), Array(Plain("null"))), []))
  {
    var ty := List(Optional(Text));
    RenderReads(ty, TypeScript, []);
    assert Render(ty, TypeScript) + [] == ["string", "|", "null", "[", "]"];
    ResumeStops(TreeOf(ty, TypeScript), []);
  }

  /** What the traversal makes can always be rendered. */
  lemma {:induction false} TranslationIsSized(doc: Document, s: Schema)
    requires TypeOf(doc, s).Some?
    ensures Sized(TypeOf(doc, s).value)
    decreases s, 1
  {
    if FollowsRef(s) {
    } else if Combined(s).Branches? {
      TranslationIsSized(doc, Combined(s).all[OneBranch(Combined(s).all).value]);
    } else {
      match s.types {
        case One(t) => ByTypeIsSized(doc, s, t);
        case Untyped => ByTypeIsSized(doc, s, "object");
        case Many(names) => ByTypeIsSized(doc, s, NonNullNames(names)[0]);
      }
    }
  }

  lemma {:induction false} ByTypeIsSized(doc: Document, s: Schema, t: string)
    requires s.Keywords? && ByType(doc, s, t).Some?
    ensures Sized(ByType(doc, s, t).value)
    decreases s, 0
  {
    match t {
      case "array" =>
        if !NoItems(s) {
          TranslationIsSized(doc, s.items.value);
        }
      case "object" =>
        if IsMap(s) {
          TranslationIsSized(doc, s.additional.value);
        }
      case _ =>
    }
  }
}
