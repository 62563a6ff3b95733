/** The translation of schemas to client types: one traversal, shared by the TypeScript, Python and Rust emitters. */
module TypeTranslation {
  import opened Wrappers
  import opened Schemas

  datatype Ty =
    | Named(name: string)
    | Optional(of: Ty)
    | Tuple(of: Ty, length: nat)
    | List(of: Ty)
    | Map(of: Ty)
    | Anything
    | Text
    | Integer
    | Number
    | Truth

  function NonNull(branches: seq<Schema>): seq<Schema> {
    if branches == [] then []
    else (if branches[0] == NULL_ONLY then [] else [branches[0]]) + NonNull(branches[1..])
  }

  function NonNullNames(names: seq<string>): seq<string> {
    if names == [] then [] else (if names[0] == "null" then [] else [names[0]]) + NonNullNames(names[1..])
  }

  /** The index of the branch the translation follows. */
  function OneBranch(branches: seq<Schema>): (b: Option<nat>)
    ensures b.Some? ==> b.value < |branches| && NonNull(branches) == [branches[b.value]]
    ensures b.None? ==> |NonNull(branches)| != 1
  {
    if branches == [] then None
    else if branches[0] == NULL_ONLY then
      match OneBranch(branches[1..]) case None => None case Some(i) => Some(i + 1)
    else if NonNull(branches[1..]) == [] then Some(0)
    else None
  }

  function Combined(s: Schema): Branches
    requires s.Keywords?
  {
    if s.allOf.Branches? then s.allOf else if s.oneOf.Branches? then s.oneOf else s.anyOf
  }

  function Wrap(inner: Option<Ty>): Option<Ty> {
    match inner case None => None case Some(t) => Some(Optional(t))
  }

  /** A Python dictionary with a key in it. */
  predicate IsMap(s: Schema) {
    s.Keywords? && s.additional.Some? && s.additional.value.Keywords? && s.additional.value != EMPTY
  }

  predicate NoItems(s: Schema)
    requires s.Keywords?
  {
    s.items.None? || s.items.value == EMPTY || s.items.value == Boolean(false)
  }

  predicate FixedLength(s: Schema)
    requires s.Keywords?
  {
    s.minItems.Some? && s.maxItems == s.minItems && 1 <= s.minItems.value <= 8
  }

  /** A reference that ends in a slash yields an empty name, and is then taken for none. */
  predicate FollowsRef(s: Schema) {
    HasRef(s) && RefName(s).Some? && RefName(s).value != ""
  }

  /** The type of a schema, or nothing where the generator refuses. */
  function TypeOf(doc: Document, s: Schema): Option<Ty>
    decreases s, 1
  {
    if s.Boolean? || (HasRef(s) && RefName(s).None?) then None
    else if FollowsRef(s) then
      if RefName(s).value in doc then Some(Named(RefName(s).value)) else None
    else if Combined(s).Branches? then
      match OneBranch(Combined(s).all)
      case None => None
      case Some(i) => Wrap(TypeOf(doc, Combined(s).all[i]))
    else
      match s.types
      case Many(names) =>
        if |NonNullNames(names)| == 1 then Wrap(ByType(doc, s, NonNullNames(names)[0])) else None
      case One(t) => ByType(doc, s, t)
      case Untyped => ByType(doc, s, "object")
  }

  function ByType(doc: Document, s: Schema, t: string): Option<Ty>
    requires s.Keywords?
    decreases s, 0
  {
    match t
    case "array" =>
      (match if NoItems(s) then Some(Anything) else TypeOf(doc, s.items.value)
       case None => None
       case Some(item) => Some(if FixedLength(s) then Tuple(item, s.minItems.value) else List(item)))
    case "object" =>
      if !IsMap(s) then Some(Anything)
      else
        (match TypeOf(doc, s.additional.value) case None => None case Some(v) => Some(Map(v)))
    case "string" => Some(Text)
    case "integer" => Some(Integer)
    case "number" => Some(Number)
    case "boolean" => Some(Truth)
    case _ => None
  }

  // ------------------------------------------------------------------ the translation, case by case

  /** A reference is translated to the name behind its last slash, if the document defines it, and to nothing otherwise. */
  lemma ReferenceIsNamed(doc: Document, s: Schema, front: string, name: string)
    requires s.Keywords? && s.ref == Some(front + "/" + name) && '/' !in name && name != ""
    ensures TypeOf(doc, s) ==
      if "#/components/schemas/" <= front + "/" + name && name in doc then Some(Named(name)) else None
  {
    NameBehindSlash(front, name);
    assert front + "/" + name != "";
  }

  /** An empty reference, or a local one that ends in a slash, is taken for none; any other that is not local is refused. */
  lemma OtherReferences(doc: Document, s: Schema, ref: string)
    requires s.Keywords? && s.ref == Some(ref)
    ensures ref == "" || ("#/components/schemas/" <= ref && ref[|ref| - 1] == '/') ==>
              TypeOf(doc, s) == TypeOf(doc, s.(ref := None))
    ensures ref != "" && !("#/components/schemas/" <= ref) ==> TypeOf(doc, s) == None
  {
    if ref == "" || ("#/components/schemas/" <= ref && ref[|ref| - 1] == '/') {
      var bare := s.(ref := None);
      if ref != "" { NameBehindSlash(ref[..|ref| - 1], ""); assert ref == ref[..|ref| - 1] + "/" + ""; }
      assert !FollowsRef(s) && !FollowsRef(bare) && Combined(bare) == Combined(s);
      forall t ensures ByType(doc, s, t) == ByType(doc, bare, t) { RefIsUnused(doc, s, t); }
    }
  }

  lemma RefIsUnused(doc: Document, s: Schema, t: string)
    requires s.Keywords?
    ensures ByType(doc, s, t) == ByType(doc, s.(ref := None), t)
  {
  }

  lemma {:induction false} NameBehindSlash(front: string, name: string)
    requires '/' !in name
    ensures AfterLastSlash(front + "/" + name) == name
  {
    var s := front + "/" + name;
    if name == "" {
      assert s[|s| - 1] == '/';
    } else {
      var n := |name| - 1;
      NameBehindSlash(front, name[..n]);
      assert s[..|s| - 1] == front + "/" + name[..n] && s[|s| - 1] == name[n] && name[n] in name;
    }
  }

  predicate IsNullOnly(s: Schema) {
    s == Keywords(None, NoBranches, NoBranches, NoBranches, One("null"), None, None, None, None, [], [], None, false)
  }

  /** Of a combination one branch is followed, and made optional, if it is the only one that is not just null. */
  ghost predicate IsFollowed(branches: seq<Schema>, b: nat) {
    b < |branches| && !IsNullOnly(branches[b]) && forall i :: 0 <= i < |branches| && i != b ==> IsNullOnly(branches[i])
  }

  lemma CombinationIff(doc: Document, s: Schema, ty: Ty)
    requires s.Keywords? && s.ref.None?
    requires s.allOf.Branches? || s.oneOf.Branches? || s.anyOf.Branches?
    ensures var all := if s.allOf.Branches? then s.allOf.all else if s.oneOf.Branches? then s.oneOf.all else s.anyOf.all;
      TypeOf(doc, s) == Some(ty) <==>
        ty.Optional? && exists b: nat :: IsFollowed(all, b) && TypeOf(doc, all[b]) == Some(ty.of)
  {
    var all := Combined(s).all;
    FollowedIff(all);
    hide IsFollowed;
    forall b: nat, c: nat | IsFollowed(all, b) && IsFollowed(all, c) ensures b == c { OneFollowed(all, b, c); }
    match OneBranch(all) {
      case None =>
      case Some(b) =>
        FollowedInRange(all, b);
    }
  }

  lemma FollowedInRange(all: seq<Schema>, b: nat)
    requires IsFollowed(all, b)
    ensures b < |all|
  {
  }

  lemma OneFollowed(all: seq<Schema>, b: nat, c: nat)
    requires IsFollowed(all, b) && IsFollowed(all, c)
    ensures b == c
  {
  }

  lemma {:induction false} FollowedIff(all: seq<Schema>)
    ensures forall b: nat :: OneBranch(all) == Some(b) <==> IsFollowed(all, b)
    ensures NonNull(all) == [] <==> forall i :: 0 <= i < |all| ==> IsNullOnly(all[i])
  {
    if all != [] {
      FollowedIff(all[1..]);
      assert forall i :: 1 <= i < |all| ==> all[i] == all[1..][i - 1];
      forall b: nat ensures OneBranch(all) == Some(b) <==> IsFollowed(all, b) {
        if IsNullOnly(all[0]) {
          if b > 0 { FollowedBehind(all, b); }
        } else if b > 0 {
          assert !IsFollowed(all, b);
        }
      }
    }
  }

  lemma FollowedBehind(all: seq<Schema>, b: nat)
    requires all != [] && IsNullOnly(all[0]) && b > 0
    ensures IsFollowed(all, b) <==> IsFollowed(all[1..], b - 1)
  {
    assert forall i :: 1 <= i < |all| ==> all[i] == all[1..][i - 1];
  }

  predicate IsEmptySchema(s: Schema) {
    s == Keywords(None, NoBranches, NoBranches, NoBranches, Untyped, None, None, None, None, [], [], None, false)
  }

  /** A schema of one type: no reference, no combination. */
  predicate IsPlain(s: Schema, t: string) {
    && s.Keywords? && s.ref.None? && s.allOf.NoBranches? && s.oneOf.NoBranches? && s.anyOf.NoBranches?
    && (s.types == One(t) || (t == "object" && s.types.Untyped?))
  }

  /** An array of a fixed length of one to eight is a tuple, any other a list; without an item schema it holds anything. */
  lemma ArrayIs(doc: Document, s: Schema)
    requires IsPlain(s, "array")
    ensures var item :=
        if s.items.None? || IsEmptySchema(s.items.value) || s.items.value == Boolean(false) then Some(Anything)
        else TypeOf(doc, s.items.value);
      TypeOf(doc, s) ==
      if item.None? then None
      else if s.minItems.Some? && s.maxItems == s.minItems && 1 <= s.minItems.value <= 8
      then Some(Tuple(item.value, s.minItems.value)) else Some(List(item.value))
  {
  }

  /** An object whose additional properties have a schema is a map to its type, any other holds anything. */
  lemma ObjectIs(doc: Document, s: Schema)
    requires IsPlain(s, "object")
    ensures TypeOf(doc, s) ==
      if s.additional.Some? && s.additional.value.Keywords? && !IsEmptySchema(s.additional.value)
      then match TypeOf(doc, s.additional.value) case Some(t) => Some(Map(t)) case None => None
      else Some(Anything)
  {
  }

  lemma ScalarIs(doc: Document, s: Schema, t: string)
    requires IsPlain(s, t) && t != "array" && t != "object"
    ensures TypeOf(doc, s) == match t
      case "string" => Some(Text)
      case "integer" => Some(Integer)
      case "number" => Some(Number)
      case "boolean" => Some(Truth)
      case _ => None
  {
  }

  /** A list of types is translated if one of them, once, is not null: to the optional type the schema has with that alone. */
  lemma UnionIs(doc: Document, s: Schema, names: seq<string>, ty: Ty)
    requires s.Keywords? && s.ref.None? && s.allOf.NoBranches? && s.oneOf.NoBranches? && s.anyOf.NoBranches?
    requires s.types == Many(names)
    ensures TypeOf(doc, s) == Some(ty) <==>
      ty.Optional? && exists b: nat :: IsOnlyName(names, b) && TypeOf(doc, s.(types := One(names[b]))) == Some(ty.of)
  {
    OnlyNameIff(names);
    forall b: nat, c: nat | IsOnlyName(names, b) && IsOnlyName(names, c) ensures b == c { }
    if |NonNullNames(names)| == 1 {
      var b: nat :| IsOnlyName(names, b) && NonNullNames(names) == [names[b]];
      SameByType(doc, s, names[b]);
    }
  }

  ghost predicate IsOnlyName(names: seq<string>, b: nat) {
    b < |names| && names[b] != "null" && forall i :: 0 <= i < |names| && i != b ==> names[i] == "null"
  }

  lemma SameByType(doc: Document, s: Schema, t: string)
    requires s.Keywords? && s.ref.None? && s.allOf.NoBranches? && s.oneOf.NoBranches? && s.anyOf.NoBranches?
    ensures TypeOf(doc, s.(types := One(t))) == ByType(doc, s, t)
  {
  }

  lemma {:induction false} OnlyNameIff(names: seq<string>)
    ensures |NonNullNames(names)| == 1 <==> exists b: nat :: IsOnlyName(names, b)
    ensures forall b: nat :: IsOnlyName(names, b) ==> NonNullNames(names) == [names[b]]
    ensures NonNullNames(names) == [] <==> forall i :: 0 <= i < |names| ==> names[i] == "null"
  {
    if names != [] {
      var rest := names[1..];
      OnlyNameIff(rest);
      assert forall i :: 1 <= i < |names| ==> names[i] == rest[i - 1];
      if names[0] == "null" {
        forall b: nat ensures IsOnlyName(names, b) <==> b > 0 && IsOnlyName(rest, b - 1) {
          if b > 0 { OnlyNameBehind(names, b); }
        }
        if b: nat :| IsOnlyName(rest, b) { assert IsOnlyName(names, b + 1); }
      } else {
        assert IsOnlyName(names, 0) <==> NonNullNames(rest) == [];
        forall b: nat | IsOnlyName(names, b) ensures b == 0 { }
      }
    }
  }

  lemma OnlyNameBehind(names: seq<string>, b: nat)
    requires names != [] && names[0] == "null" && b > 0
    ensures IsOnlyName(names, b) <==> IsOnlyName(names[1..], b - 1)
  {
    assert forall i :: 1 <= i < |names| ==> names[i] == names[1..][i - 1];
  }

  // ------------------------------------------------------------------ named schemas

  /** What the emitters declare under a schema's name. */
  datatype Kind = Enumeration | Alias | Structure

  function KindOf(s: Schema): Kind
    requires s.Keywords?
  {
    if s.types == One("string") && s.values.Some? then Enumeration
    else
      match s.types
      case Untyped => Structure
      case One(t) => if t == "" || t == "object" then Structure else Alias
      case Many(ts) => if ts == [] then Structure else Alias
  }

  /** The whole document is translated without a refusal. */
  ghost predicate Accepted(doc: Document) {
    forall n :: n in doc ==>
      && doc[n].Keywords?
      && (KindOf(doc[n]).Alias? ==> TypeOf(doc, doc[n]).Some?)
      && (KindOf(doc[n]).Structure? ==>
            forall p :: 0 <= p < |doc[n].properties| ==> TypeOf(doc, doc[n].properties[p].schema).Some?)
  }

  // ------------------------------------------------------------------ which values a type holds

  /** The type stands for the declaration of a name, perhaps made optional. */
  predicate Unfolds(ty: Ty) {
    ty.Named? || (ty.Optional? && Unfolds(ty.of))
  }

  /** An alias that unfolds to another name holds no value by this definition. */
  ghost predicate Inhabits(doc: Document, ty: Ty, v: Json)
    decreases v, Unfolds(ty), ty
  {
    match ty
    case Named(n) =>
      && n in doc && doc[n].Keywords?
      && (match KindOf(doc[n])
          case Enumeration => v.Str? && v in doc[n].values.value
          case Alias =>
            var a := TypeOf(doc, doc[n]);
            a.Some? && !Unfolds(a.value) && Inhabits(doc, a.value, v)
          case Structure =>
            && v.Obj?
            && (forall i :: 0 <= i < |doc[n].required| ==> Holds(v.members, doc[n].required[i]))
            && forall i, p ::
                 (0 <= i < |v.members| && 0 <= p < |doc[n].properties| && doc[n].properties[p].name == v.members[i].name) ==>
                 var t := TypeOf(doc, doc[n].properties[p].schema);
                 t.Some? && Inhabits(doc, t.value, v.members[i].value))
    case Optional(t) => v.Null? || Inhabits(doc, t, v)
    case Tuple(t, n) => v.Arr? && |v.items| == n && forall i :: 0 <= i < n ==> Inhabits(doc, t, v.items[i])
    case List(t) => v.Arr? && forall i :: 0 <= i < |v.items| ==> Inhabits(doc, t, v.items[i])
    case Map(t) => v.Obj? && forall i :: 0 <= i < |v.members| ==> Inhabits(doc, t, v.members[i].value)
    case Anything => true
    case Text => v.Str?
    case Integer => v.Num? && v.n.Floor as real == v.n
    case Number => v.Num?
    case Truth => v.Bool?
  }

  /** A name given to a string with an enumeration stands for the values listed. */
  lemma NamedEnumeration(doc: Document, n: string, v: Json)
    requires n in doc && doc[n].Keywords? && doc[n].types == One("string") && doc[n].values.Some?
    ensures Inhabits(doc, Named(n), v) <==> v.Str? && v in doc[n].values.value
  {
  }

  /** A name given to a schema with any other type stands for that type, unless the type is itself a name. */
  lemma NamedAlias(doc: Document, n: string, v: Json)
    requires n in doc && doc[n].Keywords? && doc[n].types !in {Untyped, One(""), One("object"), Many([])}
    requires doc[n].types == One("string") ==> doc[n].values.None?
    ensures var ty := TypeOf(doc, doc[n]);
      Inhabits(doc, Named(n), v) <==> ty.Some? && !Unfolds(ty.value) && Inhabits(doc, ty.value, v)
  {
    hide TypeOf, Unfolds;
  }

  /** A name given to an object, or to a schema without a type, stands for objects that have the required fields. */
  lemma NamedStructure(doc: Document, n: string, v: Json)
    requires n in doc && doc[n].Keywords?
    requires doc[n].types in {Untyped, One(""), One("object"), Many([])}
    ensures Inhabits(doc, Named(n), v) ==>
              v.Obj? && forall i :: 0 <= i < |doc[n].required| ==> Holds(v.members, doc[n].required[i])
    ensures v == Obj([]) && doc[n].required == [] ==> Inhabits(doc, Named(n), v)
  {
  }

  // ------------------------------------------------------------------ the translation is sound

  /** Named schemas are string enumerations, objects, or plainly typed: never a reference or a combination. */
  predicate PlainlyNamed(s: Schema): (plain: bool)
    ensures plain ==> !Refers(s)
  {
    && s.Keywords? && !HasRef(s)
    && s.allOf.NoBranches? && s.oneOf.NoBranches? && s.anyOf.NoBranches?
    && (KindOf(s).Structure? ==> s.types == One("object"))
  }

  /** Nowhere is a map left untyped or given properties of its own. */
  ghost predicate Unmixed(s: Schema) {
    s.Keywords? ==>
      && (IsMap(s) ==> !s.types.Untyped? && s.properties == [])
      && (s.allOf.Branches? ==> forall i :: 0 <= i < |s.allOf.all| ==> Unmixed(s.allOf.all[i]))
      && (s.oneOf.Branches? ==> forall i :: 0 <= i < |s.oneOf.all| ==> Unmixed(s.oneOf.all[i]))
      && (s.anyOf.Branches? ==> forall i :: 0 <= i < |s.anyOf.all| ==> Unmixed(s.anyOf.all[i]))
      && (s.items.Some? ==> Unmixed(s.items.value))
      && (s.additional.Some? ==> Unmixed(s.additional.value))
      && (forall p :: 0 <= p < |s.properties| ==> Unmixed(s.properties[p].schema))
  }

  /** Such a document has no chain of references that goes round. */
  ghost predicate Translatable(doc: Document): (translatable: bool)
    ensures translatable ==> Rooted(doc)
  {
    Accepted(doc) && forall n :: n in doc ==> PlainlyNamed(doc[n]) && Unmixed(doc[n])
  }

  /** A value admitted by a combination is null or admitted by the branch the translation follows. */
  lemma BranchAdmits(doc: Document, s: Schema, v: Json, b: nat)
    requires Rooted(doc) && s.Keywords? && Combined(s).Branches? && Admits(doc, s, v)
    requires OneBranch(Combined(s).all) == Some(b)
    ensures v.Null? || Admits(doc, Combined(s).all[b], v)
  {
    var all := Combined(s).all;
    if s.allOf.Branches? {
      assert Admits(doc, s.allOf.all[b], v);
    } else {
      var i: nat :| i < |all| && Admits(doc, all[i], v);
      if all[i] == NULL_ONLY {
        assert TypesAllow(NULL_ONLY.types, v);
      } else {
        NonNullHas(all, i);
        assert all[i] == all[b];
      }
    }
  }

  lemma {:induction false} NonNullHas(branches: seq<Schema>, i: nat)
    requires i < |branches| && branches[i] != NULL_ONLY
    ensures branches[i] in NonNull(branches)
  {
    if i > 0 {
      NonNullHas(branches[1..], i - 1);
    }
  }

  lemma {:induction false} NonNullNamesHas(names: seq<string>, i: nat)
    requires i < |names| && names[i] != "null"
    ensures names[i] in NonNullNames(names)
  {
    if i > 0 {
      NonNullNamesHas(names[1..], i - 1);
    }
  }

  lemma ByTypeIsRooted(doc: Document, s: Schema, t: string)
    requires s.Keywords? && ByType(doc, s, t).Some?
    ensures !Unfolds(ByType(doc, s, t).value)
  {
  }

  /** Every value a translated schema admits inhabits the type it is translated to. */
  lemma {:induction false} TranslationIsSound(doc: Document, s: Schema, v: Json)
    requires Translatable(doc) && Unmixed(s)
    requires TypeOf(doc, s).Some? && Admits(doc, s, v)
    ensures Inhabits(doc, TypeOf(doc, s).value, v)
    decreases v, Refers(s), s, 3
  {
    if FollowsRef(s) {
      var n := RefName(s).value;
      assert !Refers(doc[n]);
      NameIsSound(doc, n, v);
    } else if Combined(s).Branches? {
      var b := OneBranch(Combined(s).all).value;
      BranchAdmits(doc, s, v, b);
      if !v.Null? {
        TranslationIsSound(doc, Combined(s).all[b], v);
      }
    } else {
      TypedIsSound(doc, s, v);
    }
  }

  lemma {:induction false} TypedIsSound(doc: Document, s: Schema, v: Json)
    requires Translatable(doc) && Unmixed(s)
    requires s.Keywords? && !FollowsRef(s) && Combined(s).NoBranches? && TypeOf(doc, s).Some? && Admits(doc, s, v)
    ensures Inhabits(doc, TypeOf(doc, s).value, v)
    decreases v, Refers(s), s, 2
  {
    assert TypesAllow(s.types, v);
    assert s.types.Untyped? ==> !IsMap(s);
    match s.types {
      case One(t) =>
        ByTypeIsSound(doc, s, t, v);
      case Untyped =>
        assert ByType(doc, s, "object") == Some(Anything);
      case Many(names) =>
        UnionIsSound(doc, s, names, v);
    }
  }

  lemma {:induction false} UnionIsSound(doc: Document, s: Schema, names: seq<string>, v: Json)
    requires Translatable(doc) && Unmixed(s) && s.Keywords?
    requires |NonNullNames(names)| == 1 && ByType(doc, s, NonNullNames(names)[0]).Some?
    requires Admits(doc, s, v) && TypesAllow(Many(names), v)
    ensures Inhabits(doc, Optional(ByType(doc, s, NonNullNames(names)[0]).value), v)
    decreases v, Refers(s), s, 1
  {
    hide Admits, Unmixed, Translatable, Rooted, ByType;
    var i: nat :| i < |names| && HasType(v, names[i]);
    if names[i] != "null" {
      NonNullNamesHas(names, i);
      ByTypeIsSound(doc, s, names[i], v);
    }
  }

  lemma {:induction false} ByTypeIsSound(doc: Document, s: Schema, t: string, v: Json)
    requires Translatable(doc) && Unmixed(s) && s.Keywords?
    requires ByType(doc, s, t).Some? && Admits(doc, s, v) && HasType(v, t)
    ensures Inhabits(doc, ByType(doc, s, t).value, v)
    decreases v, Refers(s), s, 0
  {
    match t {
      case "array" =>
        if !NoItems(s) {
          forall i | 0 <= i < |v.items| ensures Inhabits(doc, TypeOf(doc, s.items.value).value, v.items[i]) {
            TranslationIsSound(doc, s.items.value, v.items[i]);
          }
        }
      case "object" =>
        if IsMap(s) {
          forall i | 0 <= i < |v.members| ensures Inhabits(doc, TypeOf(doc, s.additional.value).value, v.members[i].value) {
            assert !Declares(s.properties, v.members[i].name);
            TranslationIsSound(doc, s.additional.value, v.members[i].value);
          }
        }
      case _ =>
    }
  }

  lemma {:induction false} NameIsSound(doc: Document, n: string, v: Json)
    requires Translatable(doc) && n in doc && Admits(doc, doc[n], v)
    ensures Inhabits(doc, Named(n), v)
    decreases v, Refers(doc[n]), doc[n], 4
  {
    var s := doc[n];
    assert PlainlyNamed(s) && Unmixed(s);
    match KindOf(s) {
      case Enumeration =>
      case Alias =>
        TranslationIsSound(doc, s, v);
        AliasIsRooted(doc, s);
      case Structure =>
        forall i, p | 0 <= i < |v.members| && 0 <= p < |s.properties| && s.properties[p].name == v.members[i].name
          ensures Inhabits(doc, TypeOf(doc, s.properties[p].schema).value, v.members[i].value)
        {
          TranslationIsSound(doc, s.properties[p].schema, v.members[i].value);
        }
    }
  }

  lemma AliasIsRooted(doc: Document, s: Schema)
    requires PlainlyNamed(s) && TypeOf(doc, s).Some?
    ensures !Unfolds(TypeOf(doc, s).value)
  {
    match s.types {
      case One(t) => ByTypeIsRooted(doc, s, t);
      case Untyped => ByTypeIsRooted(doc, s, "object");
      case Many(names) => ByTypeIsRooted(doc, s, NonNullNames(names)[0]);
    }
  }

  // ------------------------------------------------------------------ why the conditions are there

  const TEXT := EMPTY.(types := One("string"))
  const INTEGER := EMPTY.(types := One("integer"))

  lemma ScalarsAdmit(doc: Document, v: Json)
    requires Rooted(doc) && v.Str?
    ensures Admits(doc, TEXT, v) && !Admits(doc, NULL_ONLY, v) && !Admits(doc, INTEGER, v)
    ensures TypeOf(doc, TEXT) == Some(Text) && TypeOf(doc, INTEGER) == Some(Integer)
  {
  }

  /** A named combination is accepted and declared as an object without fields, which its strings are not. */
  lemma NamedCombinationIsMistyped()
    ensures var s := EMPTY.(oneOf := Branches([TEXT, NULL_ONLY]));
            var doc: Document := map["MaybeName" := s];
            && Accepted(doc) && Rooted(doc) && Unmixed(s)
            && Admits(doc, s, Str("x")) && !Inhabits(doc, Named("MaybeName"), Str("x"))
  {
    var s := EMPTY.(oneOf := Branches([TEXT, NULL_ONLY]));
    var doc: Document := map["MaybeName" := s];
    assert !Refers(TEXT) && !Refers(NULL_ONLY) && !Refers(s);
    assert Unmixed(TEXT) && Unmixed(NULL_ONLY);
    ScalarsAdmit(doc, Str("x"));
    OneOfAdmits(doc, s, Str("x"));
  }

  lemma OneOfAdmits(doc: Document, s: Schema, v: Json)
    requires Rooted(doc) && s == EMPTY.(oneOf := Branches([TEXT, NULL_ONLY]))
    requires Admits(doc, TEXT, v) && !Admits(doc, NULL_ONLY, v) && v.Str?
    ensures Admits(doc, s, v)
  {
    var all := [TEXT, NULL_ONLY];
    assert s.oneOf.all == all && all[0] == TEXT && all[1] == NULL_ONLY;
    assert Admits(doc, all[0], v) && forall j :: 0 <= j < |all| && j != 0 ==> !Admits(doc, all[j], v);
  }

  const MIXED := EMPTY.(types := One("object"), properties := [Property("name", TEXT)], additional := Some(INTEGER))

  /** A map with a property of its own takes the property's values for the map's. */
  lemma MixedObjectIsMistyped()
    ensures var v := Obj([Member("name", Str("x"))]);
            TypeOf(map[], MIXED) == Some(Map(Integer)) && Admits(map[], MIXED, v) && !Inhabits(map[], Map(Integer), v)
  {
    MixedIsMap();
    MixedAdmits(Obj([Member("name", Str("x"))]));
    NoTextIsInteger();
    hide TypeOf, Admits;
    var v := Obj([Member("name", Str("x"))]);
    assert !Inhabits(map[], Integer, v.members[0].value);
  }

  lemma NoTextIsInteger()
    ensures !Inhabits(map[], Integer, Str("x"))
  {
  }

  lemma MixedIsMap()
    ensures TypeOf(map[], MIXED) == Some(Map(Integer))
  {
    hide Admits, Inhabits;
    assert ByType(map[], INTEGER, "integer") == Some(Integer);
    assert TypeOf(map[], INTEGER) == Some(Integer);
    assert ByType(map[], MIXED, "object") == Some(Map(Integer));
  }

  lemma MixedAdmits(v: Json)
    requires v == Obj([Member("name", Str("x"))])
    ensures Admits(map[], MIXED, v)
  {
    hide TypeOf, ByType, Inhabits;
    ScalarsAdmit(map[], Str("x"));
    assert Declares(MIXED.properties, "name") by { assert MIXED.properties[0].name == "name"; }
  }

  /** A map without a type admits what is no object, and is given an object's type. */
  lemma UntypedMapIsMistyped()
    ensures var s := EMPTY.(additional := Some(TEXT));
            TypeOf(map[], s) == Some(Map(Text)) && Admits(map[], s, Num(1.0)) && !Inhabits(map[], Map(Text), Num(1.0))
  {
    var s := EMPTY.(additional := Some(TEXT));
    ScalarsAdmit(map[], Str("x"));
    assert ByType(map[], s, "object") == Some(Map(Text));
  }

  /** A named structure without a type likewise. */
  lemma UntypedStructureIsMistyped()
    ensures var s := EMPTY.(properties := [Property("name", TEXT)]);
            var doc: Document := map["Thing" := s];
            Accepted(doc) && Rooted(doc) && Unmixed(s) && Admits(doc, s, Str("x")) && !Inhabits(doc, Named("Thing"), Str("x"))
  {
    var s := EMPTY.(properties := [Property("name", TEXT)]);
    var doc: Document := map["Thing" := s];
    assert !Refers(s) && Unmixed(TEXT);
    ScalarsAdmit(doc, Str("x"));
  }
}
