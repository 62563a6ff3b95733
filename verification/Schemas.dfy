/** JSON values, the schemas of an API document, which values a schema admits, and the types clients are given. */
module Schemas {
  import opened Wrappers

  datatype Json = Null | Bool(b: bool) | Num(n: real) | Str(s: string) | Arr(items: seq<Json>) | Obj(members: seq<Member>)

  datatype Member = Member(name: string, value: Json)

  datatype Types = Untyped | One(name: string) | Many(names: seq<string>)

  datatype Property = Property(name: string, schema: Schema)

  /** The value of `allOf`, `oneOf` or `anyOf`. */
  datatype Branches = NoBranches | Branches(all: seq<Schema>)

  /** A schema is `true`, `false`, or an object of keywords; `annotated` says it carries others than these. */
  datatype Schema =
    | Boolean(admits: bool)
    | Keywords(
        ref: Option<string>, allOf: Branches, oneOf: Branches, anyOf: Branches,
        types: Types, items: Option<Schema>, minItems: Option<int>, maxItems: Option<int>,
        additional: Option<Schema>, properties: seq<Property>, required: seq<string>, values: Option<seq<Json>>,
        annotated: bool)

  const EMPTY := Keywords(None, NoBranches, NoBranches, NoBranches, Untyped, None, None, None, None, [], [], None, false)
  const NULL_ONLY := EMPTY.(types := One("null"))

  type Document = map<string, Schema>

  // ------------------------------------------------------------------ references

  const LOCAL := "#/components/schemas/"

  function AfterLastSlash(s: string): string {
    if s == "" then "" else if s[|s| - 1] == '/' then "" else AfterLastSlash(s[..|s| - 1]) + [s[|s| - 1]]
  }

  predicate HasRef(s: Schema) {
    s.Keywords? && s.ref.Some? && s.ref.value != ""
  }

  /** The name a reference points at; one to another document is refused. */
  function RefName(s: Schema): Option<string>
    requires HasRef(s)
  {
    if LOCAL <= s.ref.value then Some(AfterLastSlash(s.ref.value)) else None
  }

  // ------------------------------------------------------------------ which values a schema admits

  predicate HasType(v: Json, t: string) {
    match t
    case "null" => v.Null?
    case "boolean" => v.Bool?
    case "integer" => v.Num? && v.n == v.n.Floor as real
    case "number" => v.Num?
    case "string" => v.Str?
    case "array" => v.Arr?
    case "object" => v.Obj?
    case _ => false
  }

  predicate TypesAllow(types: Types, v: Json) {
    match types
    case Untyped => true
    case One(t) => HasType(v, t)
    case Many(ts) => exists i :: 0 <= i < |ts| && HasType(v, ts[i])
  }

  /** The schema leads to a reference about the same value. */
  ghost predicate Refers(s: Schema) {
    && s.Keywords?
    && (|| HasRef(s)
        || (s.allOf.Branches? && exists i :: 0 <= i < |s.allOf.all| && Refers(s.allOf.all[i]))
        || (s.oneOf.Branches? && exists i :: 0 <= i < |s.oneOf.all| && Refers(s.oneOf.all[i]))
        || (s.anyOf.Branches? && exists i :: 0 <= i < |s.anyOf.all| && Refers(s.anyOf.all[i])))
  }

  /** No named schema is itself a reference, so no chain of references goes round. */
  ghost predicate Rooted(doc: Document) {
    forall n :: n in doc ==> !Refers(doc[n])
  }

  predicate Declares(properties: seq<Property>, name: string) {
    exists i :: 0 <= i < |properties| && properties[i].name == name
  }

  predicate Holds(members: seq<Member>, name: string) {
    exists i :: 0 <= i < |members| && members[i].name == name
  }

  predicate LengthAllowed(s: Schema, length: nat)
    requires s.Keywords?
  {
    (s.minItems.Some? ==> s.minItems.value <= length) && (s.maxItems.Some? ==> length <= s.maxItems.value)
  }

  /** Every keyword constrains on its own; those about arrays or objects say nothing of other values. */
  ghost predicate Admits(doc: Document, s: Schema, v: Json)
    requires Rooted(doc)
    decreases v, Refers(s), s
  {
    match s
    case Boolean(b) => b
    case Keywords(_, _, _, _, _, _, _, _, _, _, _, _, _) =>
      && (HasRef(s) ==> RefName(s).Some? && RefName(s).value in doc && Admits(doc, doc[RefName(s).value], v))
      && (s.allOf.Branches? ==> forall i :: 0 <= i < |s.allOf.all| ==> Admits(doc, s.allOf.all[i], v))
      && (s.oneOf.Branches? ==>
            exists i :: 0 <= i < |s.oneOf.all| && Admits(doc, s.oneOf.all[i], v)
              && forall j :: 0 <= j < |s.oneOf.all| && j != i ==> !Admits(doc, s.oneOf.all[j], v))
      && (s.anyOf.Branches? ==> exists i :: 0 <= i < |s.anyOf.all| && Admits(doc, s.anyOf.all[i], v))
      && TypesAllow(s.types, v)
      && (s.values.Some? ==> v in s.values.value)
      && (v.Arr? ==>
            && LengthAllowed(s, |v.items|)
            && (s.items.Some? ==> forall i :: 0 <= i < |v.items| ==> Admits(doc, s.items.value, v.items[i])))
      && (v.Obj? ==>
            && (forall i :: 0 <= i < |s.required| ==> Holds(v.members, s.required[i]))
            && (forall i, p :: 0 <= i < |v.members| && 0 <= p < |s.properties| && s.properties[p].name == v.members[i].name
                  ==> Admits(doc, s.properties[p].schema, v.members[i].value))
            && (s.additional.Some? ==>
                  forall i :: 0 <= i < |v.members| && !Declares(s.properties, v.members[i].name)
                    ==> Admits(doc, s.additional.value, v.members[i].value)))
  }

  lemma HoldsIff(members: seq<Member>, name: string)
    ensures Holds(members, name) <==> name in seq(|members|, i requires 0 <= i < |members| => members[i].name)
  {
    var names := seq(|members|, i requires 0 <= i < |members| => members[i].name);
    assert forall i :: 0 <= i < |members| ==> names[i] == members[i].name;
  }

  /** A type no schema may name admits nothing. */
  lemma KnownTypes(v: Json, t: string)
    ensures HasType(v, t) ==> t in {"null", "boolean", "integer", "number", "string", "array", "object"}
  {
  }
}
