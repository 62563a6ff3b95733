/** Where the translation loses nothing: schemas that use only the keywords a client type can express. */
module ExactTranslation {
  import opened Wrappers
  import opened Schemas
  import opened TypeTranslation

  /** The schema without its annotations, which constrain nothing. */
  function Bare(s: Schema): Schema {
    if s.Keywords? then s.(annotated := false) else s
  }

  /** What the schema says of values of one type is what the type says. */
  ghost predicate TightAs(doc: Document, s: Schema, t: string)
    requires Rooted(doc) && s.Keywords?
    decreases s, 0
  {
    match t
    case "array" =>
      && (FixedLength(s) || (s.minItems.None? && s.maxItems.None?))
      && (s.items.Some? ==> Tight(doc, s.items.value))
    case "object" => IsMap(s) && Tight(doc, s.additional.value)
    case _ => true
  }

  /** No keyword of the schema is dropped on the way to its type. */
  ghost predicate Tight(doc: Document, s: Schema)
    requires Rooted(doc)
    decreases s, 1
  {
    && s.Keywords? && s.values.None? && s.properties == [] && s.required == []
    && if HasRef(s) then Bare(s) == EMPTY.(ref := s.ref) && FollowsRef(s)
       else if Combined(s).Branches? then
         && s.allOf.NoBranches? && (s.oneOf.NoBranches? || s.anyOf.NoBranches?)
         && Bare(s) == EMPTY.(ref := s.ref, oneOf := s.oneOf, anyOf := s.anyOf)
         && |Combined(s).all| == 2 && NULL_ONLY in Combined(s).all
         && forall i :: 0 <= i < 2 && Combined(s).all[i] != NULL_ONLY ==>
              Tight(doc, Combined(s).all[i]) && (s.oneOf.Branches? ==> !Admits(doc, Combined(s).all[i], Null))
       else
         match s.types
         case Untyped => Bare(s) == EMPTY.(ref := s.ref)
         case One(t) => TightAs(doc, s, t)
         case Many(names) => |names| == 2 && "null" in names && forall i :: 0 <= i < 2 && names[i] != "null" ==> TightAs(doc, s, names[i])
  }

  /** A structure's own keywords are its properties and which of them are required; an alias is tight. */
  ghost predicate TightlyNamed(doc: Document, s: Schema)
    requires Rooted(doc) && s.Keywords?
  {
    match KindOf(s)
    case Enumeration => true
    case Alias => Tight(doc, s)
    case Structure =>
      && s.values.None? && s.additional.None?
      && forall p :: 0 <= p < |s.properties| ==> Tight(doc, s.properties[p].schema)
  }

  ghost predicate TightDocument(doc: Document) {
    Translatable(doc) && forall n :: n in doc ==> TightlyNamed(doc, doc[n])
  }

  /** On tight schemas a value inhabits the emitted type only if the schema admits it. */
  lemma {:induction false} NothingIsLost(doc: Document, s: Schema, v: Json)
    requires TightDocument(doc) && Tight(doc, s) && TypeOf(doc, s).Some?
    requires Inhabits(doc, TypeOf(doc, s).value, v)
    ensures Admits(doc, s, v)
    decreases v, Refers(s), s, 3
  {
    if HasRef(s) {
      var n := RefName(s).value;
      assert !Refers(doc[n]);
      NameLosesNothing(doc, n, v);
    } else if Combined(s).Branches? {
      CombinationLosesNothing(doc, s, v);
    } else {
      match s.types {
        case Untyped =>
        case One(t) => TypeLosesNothing(doc, s, t, v);
        case Many(names) => UnionLosesNothing(doc, s, names, v);
      }
    }
  }

  lemma {:induction false} CombinationLosesNothing(doc: Document, s: Schema, v: Json)
    requires TightDocument(doc) && Tight(doc, s) && TypeOf(doc, s).Some? && !HasRef(s) && Combined(s).Branches?
    requires Inhabits(doc, TypeOf(doc, s).value, v)
    ensures Admits(doc, s, v)
    decreases v, Refers(s), s, 2
  {
    var all := Combined(s).all;
    var b := OneBranch(all).value;
    TheOtherIsNull(all, b);
    assert Admits(doc, NULL_ONLY, v) <==> v.Null?;
    assert s.oneOf.Branches? ==> !Admits(doc, all[b], Null);
    if !v.Null? {
      NothingIsLost(doc, all[b], v);
    }
    hide Admits, Tight, TightDocument, Inhabits;
    OneOfTwoAdmits(doc, s, v, if v.Null? then 1 - b else b);
  }

  lemma OneOfTwoAdmits(doc: Document, s: Schema, v: Json, yes: nat)
    requires Rooted(doc) && s.Keywords? && s.allOf.NoBranches? && (s.oneOf.NoBranches? || s.anyOf.NoBranches?)
    requires Combined(s).Branches? && |Combined(s).all| == 2 && yes < 2
    requires !HasRef(s) && Bare(s) == EMPTY.(ref := s.ref, oneOf := s.oneOf, anyOf := s.anyOf)
    requires Admits(doc, Combined(s).all[yes], v)
    requires s.oneOf.Branches? ==> !Admits(doc, Combined(s).all[1 - yes], v)
    ensures Admits(doc, s, v)
  {
    if s.oneOf.Branches? {
      OneOfAdmits(doc, s, v, yes);
    } else {
      AnyOfAdmits(doc, s, v, yes);
    }
  }

  lemma OneOfAdmits(doc: Document, s: Schema, v: Json, yes: nat)
    requires Rooted(doc) && s.Keywords? && !HasRef(s) && Bare(s) == EMPTY.(ref := s.ref, oneOf := s.oneOf)
    requires s.oneOf.Branches? && |s.oneOf.all| == 2 && yes < 2
    requires Admits(doc, s.oneOf.all[yes], v) && !Admits(doc, s.oneOf.all[1 - yes], v)
    ensures Admits(doc, s, v)
  {
    assert s == EMPTY.(ref := s.ref, oneOf := s.oneOf, annotated := s.annotated);
    forall j | 0 <= j < |s.oneOf.all| && j != yes ensures !Admits(doc, s.oneOf.all[j], v) {
      assert j == 1 - yes;
    }
  }

  lemma AnyOfAdmits(doc: Document, s: Schema, v: Json, yes: nat)
    requires Rooted(doc) && s.Keywords? && !HasRef(s) && Bare(s) == EMPTY.(ref := s.ref, anyOf := s.anyOf)
    requires s.anyOf.Branches? && yes < |s.anyOf.all| && Admits(doc, s.anyOf.all[yes], v)
    ensures Admits(doc, s, v)
  {
    assert s == EMPTY.(ref := s.ref, anyOf := s.anyOf, annotated := s.annotated);
  }

  lemma TheOtherIsNull(all: seq<Schema>, b: nat)
    requires |all| == 2 && NULL_ONLY in all && OneBranch(all) == Some(b)
    ensures b < 2 && all[b] != NULL_ONLY && all[1 - b] == NULL_ONLY
  {
    NonNullHolds(all);
    assert all[b] in NonNull(all);
  }

  lemma {:induction false} NonNullHolds(all: seq<Schema>)
    ensures NULL_ONLY !in NonNull(all)
  {
    if all != [] {
      NonNullHolds(all[1..]);
    }
  }

  lemma {:induction false} UnionLosesNothing(doc: Document, s: Schema, names: seq<string>, v: Json)
    requires TightDocument(doc) && Tight(doc, s) && !HasRef(s) && Combined(s).NoBranches? && s.types == Many(names)
    requires TypeOf(doc, s).Some? && Inhabits(doc, TypeOf(doc, s).value, v)
    ensures Admits(doc, s, v)
    decreases v, Refers(s), s, 2
  {
    var t := NonNullNames(names)[0];
    NonNullNamesFrom(names);
    assert t in NonNullNames(names);
    var nothing: nat :| nothing < 2 && names[nothing] == "null";
    var i: nat :| i < 2 && names[i] == t;
    if v.Null? {
      assert HasType(v, names[nothing]);
      NullIsAdmitted(doc, s, v);
    } else {
      TypeLosesNothing(doc, s, t, v);
      assert HasType(v, names[i]);
    }
  }

  lemma {:induction false} NonNullNamesFrom(names: seq<string>)
    ensures forall x :: x in NonNullNames(names) ==> x != "null" && x in names
  {
    if names != [] {
      NonNullNamesFrom(names[1..]);
    }
  }

  lemma NullIsAdmitted(doc: Document, s: Schema, v: Json)
    requires Rooted(doc) && s.Keywords? && !HasRef(s) && Combined(s).NoBranches? && s.values.None?
    requires v.Null? && TypesAllow(s.types, v)
    ensures Admits(doc, s, v)
  {
  }

  /** A schema tight for `t` admits what the type for `t` holds, if it allows `t` at all. */
  lemma {:induction false} TypeLosesNothing(doc: Document, s: Schema, t: string, v: Json)
    requires TightDocument(doc) && s.Keywords? && !HasRef(s) && Combined(s).NoBranches?
    requires s.values.None? && s.properties == [] && s.required == [] && TightAs(doc, s, t)
    requires ByType(doc, s, t).Some? && Inhabits(doc, ByType(doc, s, t).value, v)
    requires s.types == One(t) || (s.types.Many? && exists i :: 0 <= i < |s.types.names| && s.types.names[i] == t)
    ensures HasType(v, t) && Admits(doc, s, v)
    decreases v, Refers(s), s, 1
  {
    assert HasType(v, t);
    assert TypesAllow(s.types, v);
    match t {
      case "array" =>
        if s.items.Some? {
          forall i | 0 <= i < |v.items| ensures Admits(doc, s.items.value, v.items[i]) {
            ItemIsAdmitted(doc, s, v, i);
          }
        }
      case "object" =>
        forall i | 0 <= i < |v.members| ensures Admits(doc, s.additional.value, v.members[i].value) {
          NothingIsLost(doc, s.additional.value, v.members[i].value);
        }
      case _ =>
    }
  }

  lemma {:induction false} ItemIsAdmitted(doc: Document, s: Schema, v: Json, i: nat)
    requires TightDocument(doc) && s.Keywords? && s.items.Some? && TightAs(doc, s, "array")
    requires ByType(doc, s, "array").Some? && Inhabits(doc, ByType(doc, s, "array").value, v)
    requires v.Arr? && i < |v.items|
    ensures Admits(doc, s.items.value, v.items[i])
    decreases v, Refers(s), s, 0
  {
    if NoItems(s) {
      assert s.items.value == EMPTY;
    } else {
      NothingIsLost(doc, s.items.value, v.items[i]);
    }
  }

  lemma {:induction false} NameLosesNothing(doc: Document, n: string, v: Json)
    requires TightDocument(doc) && n in doc && Inhabits(doc, Named(n), v)
    ensures Admits(doc, doc[n], v)
    decreases v, Refers(doc[n]), doc[n], 4
  {
    var s := doc[n];
    assert PlainlyNamed(s) && TightlyNamed(doc, s);
    match KindOf(s) {
      case Enumeration =>
      case Alias => NothingIsLost(doc, s, v);
      case Structure =>
        forall i, p | 0 <= i < |v.members| && 0 <= p < |s.properties| && s.properties[p].name == v.members[i].name
          ensures Admits(doc, s.properties[p].schema, v.members[i].value)
        {
          NothingIsLost(doc, s.properties[p].schema, v.members[i].value);
        }
    }
  }

  /** So there the type and the schema hold the same values. */
  lemma TranslationIsExact(doc: Document, s: Schema, v: Json)
    requires TightDocument(doc) && Tight(doc, s) && Unmixed(s) && TypeOf(doc, s).Some?
    ensures Admits(doc, s, v) <==> Inhabits(doc, TypeOf(doc, s).value, v)
  {
    hide Admits, Inhabits, Tight, Unmixed, TypeOf;
    if Admits(doc, s, v) {
      TranslationIsSound(doc, s, v);
    }
    if Inhabits(doc, TypeOf(doc, s).value, v) {
      NothingIsLost(doc, s, v);
    }
  }

  /** A combination with one branch and no null among them is made nullable all the same. */
  lemma LoneBranchGainsNull(doc: Document)
    requires Rooted(doc)
    ensures var s := EMPTY.(allOf := Branches([TEXT]));
            TypeOf(doc, s) == Some(Optional(Text)) && Inhabits(doc, Optional(Text), Null) && !Admits(doc, s, Null)
  {
    var s := EMPTY.(allOf := Branches([TEXT]));
    assert s.allOf.all[0] == TEXT && !Admits(doc, TEXT, Null);
    assert OneBranch([TEXT]) == Some(0);
    ScalarsAdmit(doc, Str(""));
  }
}
