/** What each keyword of a schema asks of a value, in terms of the value alone, and that a schema asks
    what its keywords ask one by one. */
module SchemaKeywords {
  import opened Wrappers
  import opened JsonPointer
  import opened SchemaValidator

  /** A schema with nothing but the keywords in ks. */
  predicate Only(s: Schema, ks: set<string>) {
    forall k | k in s :: k in ks
  }

  predicate NoAny(s: Schema) {
    "const" !in s && "enum" !in s && "type" !in s
  }

  predicate NoObject(s: Schema) {
    "required" !in s && "properties" !in s && "additionalProperties" !in s
  }

  predicate NoArray(s: Schema) {
    "minItems" !in s && "maxItems" !in s && "uniqueItems" !in s && "items" !in s
  }

  predicate NoString(s: Schema) {
    "minLength" !in s && "maxLength" !in s && "pattern" !in s
  }

  predicate NoNumber(s: Schema) {
    "minimum" !in s && "maximum" !in s
  }

  lemma OnlyMeets(c: Context, r: Reading, j: Json, s: Schema)
    requires !IsRef(s) && WellTyped(s)
    ensures Conforms(c, r, j, Obj(s)) <==> Meets(c, r, j, s)
  {
    ConformsPlain(c, r, j, Obj(s));
  }

  lemma OnlyAny(c: Context, r: Reading, j: Json, s: Schema)
    requires !IsRef(s) && WellTyped(s) && NoObject(s) && NoArray(s) && NoString(s) && NoNumber(s)
    ensures Conforms(c, r, j, Obj(s)) <==> MeetsAny(r, j, s)
  {
    OnlyMeets(c, r, j, s);
  }

  lemma OnlyObject(c: Context, r: Reading, j: Json, s: Schema)
    requires !IsRef(s) && WellTyped(s) && NoAny(s) && NoArray(s) && NoString(s) && NoNumber(s)
    ensures Conforms(c, r, j, Obj(s)) <==>
            (j.Obj? ==>
               && MeetsObject(j.fields, s)
               && (forall k | k in j.fields && k in Properties(s) :: Conforms(c, r, j.fields[k], Properties(s)[k]))
               && (Extends(r, s) ==> forall k | k in j.fields && k !in Properties(s) ::
                     Conforms(c, r, j.fields[k], s["additionalProperties"])))
  {
    OnlyMeets(c, r, j, s);
  }

  lemma OnlyArray(c: Context, r: Reading, j: Json, s: Schema)
    requires !IsRef(s) && WellTyped(s) && NoAny(s) && NoObject(s) && NoString(s) && NoNumber(s)
    ensures Conforms(c, r, j, Obj(s)) <==>
            (j.Arr? ==>
               && MeetsArray(r, j.items, s)
               && ("items" in s ==> forall i | 0 <= i < |j.items| :: Conforms(c, r, j.items[i], s["items"])))
  {
    OnlyMeets(c, r, j, s);
  }

  lemma OnlyString(c: Context, r: Reading, j: Json, s: Schema)
    requires !IsRef(s) && WellTyped(s) && NoAny(s) && NoObject(s) && NoArray(s) && NoNumber(s)
    ensures Conforms(c, r, j, Obj(s)) <==> (j.Str? ==> MeetsString(c, r, j.text, s))
  {
    OnlyMeets(c, r, j, s);
  }

  lemma OnlyNumber(c: Context, r: Reading, j: Json, s: Schema)
    requires !IsRef(s) && WellTyped(s) && NoAny(s) && NoObject(s) && NoArray(s) && NoString(s)
    ensures Conforms(c, r, j, Obj(s)) <==> (IsNumber(j) ==> MeetsNumber(AsReal(j), s))
  {
    OnlyMeets(c, r, j, s);
  }

  // ----- One keyword at a time

  lemma ConstAlone(s: Schema)
    requires Only(s, {"const"})
    ensures !IsRef(s) && NoObject(s) && NoArray(s) && NoString(s) && NoNumber(s)
    ensures "enum" !in s && "type" !in s
  {
  }

  /** const: the value is equal, as Python or as the standard compares. */
  lemma ConstMeans(c: Context, j: Json, s: Schema)
    requires Only(s, {"const"}) && WellTyped(s)
    ensures Conforms(c, Code, j, Obj(s)) <==> ("const" in s ==> PyEqual(j, s["const"]))
    ensures Conforms(c, Standard, j, Obj(s)) <==> ("const" in s ==> StdEqual(j, s["const"]))
  {
    ConstAlone(s);
    OnlyAny(c, Code, j, s);
    OnlyAny(c, Standard, j, s);
  }

  lemma EnumAlone(s: Schema)
    requires Only(s, {"enum"})
    ensures !IsRef(s) && NoObject(s) && NoArray(s) && NoString(s) && NoNumber(s)
    ensures "const" !in s && "type" !in s
  {
  }

  /** enum: the value equals a member. */
  lemma EnumMeans(c: Context, j: Json, s: Schema)
    requires Only(s, {"enum"}) && WellTyped(s)
    ensures Conforms(c, Code, j, Obj(s)) <==>
            ("enum" in s ==> exists e | e in s["enum"].items :: PyEqual(j, e))
    ensures Conforms(c, Standard, j, Obj(s)) <==>
            ("enum" in s ==> exists e | e in s["enum"].items :: StdEqual(j, e))
  {
    EnumAlone(s);
    OnlyAny(c, Code, j, s);
    OnlyAny(c, Standard, j, s);
  }

  lemma TypeAlone(s: Schema)
    requires Only(s, {"type"})
    ensures !IsRef(s) && NoObject(s) && NoArray(s) && NoString(s) && NoNumber(s)
    ensures "const" !in s && "enum" !in s
  {
  }

  /** type: the seven names of the standard; for the code a float is no integer, and a value that is no
      known name admits nothing. */
  lemma TypeMeans(c: Context, j: Json, s: Schema)
    requires Only(s, {"type"}) && WellTyped(s)
    ensures "type" in s && s["type"] == Str("object") ==> (Conforms(c, Code, j, Obj(s)) <==> j.Obj?)
    ensures "type" in s && s["type"] == Str("array") ==> (Conforms(c, Code, j, Obj(s)) <==> j.Arr?)
    ensures "type" in s && s["type"] == Str("string") ==> (Conforms(c, Code, j, Obj(s)) <==> j.Str?)
    ensures "type" in s && s["type"] == Str("integer") ==> (Conforms(c, Code, j, Obj(s)) <==> j.Int?)
    ensures "type" in s && s["type"] == Str("number") ==> (Conforms(c, Code, j, Obj(s)) <==> j.Int? || j.Float?)
    ensures "type" in s && s["type"] == Str("boolean") ==> (Conforms(c, Code, j, Obj(s)) <==> j.Bool?)
    ensures "type" in s && s["type"] == Str("null") ==> (Conforms(c, Code, j, Obj(s)) <==> j.Null?)
    ensures "type" !in s || s["type"] == Null ==> Conforms(c, Code, j, Obj(s))
    ensures Conforms(c, Code, j, Obj(s)) && "type" in s && s["type"] != Null ==>
              s["type"].Str? && s["type"].text in ["object", "array", "string", "integer", "number", "boolean", "null"]
  {
    TypeAlone(s);
    OnlyAny(c, Code, j, s);
    OnlyAny(c, Standard, j, s);
  }

  lemma RequiredAlone(s: Schema)
    requires Only(s, {"required"})
    ensures !IsRef(s) && NoAny(s) && NoArray(s) && NoString(s) && NoNumber(s)
    ensures "properties" !in s && "additionalProperties" !in s
  {
  }

  /** required: an object has all the names. */
  lemma RequiredMeans(c: Context, r: Reading, j: Json, s: Schema)
    requires Only(s, {"required"}) && WellTyped(s)
    ensures Conforms(c, r, j, Obj(s)) <==>
            (j.Obj? && "required" in s ==> forall k | k in s["required"].items :: k.text in j.fields)
  {
    RequiredAlone(s);
    OnlyObject(c, r, j, s);
  }

  lemma PropertiesAlone(s: Schema)
    requires Only(s, {"properties"})
    ensures !IsRef(s) && NoAny(s) && NoArray(s) && NoString(s) && NoNumber(s)
    ensures "required" !in s && "additionalProperties" !in s
  {
  }

  /** properties: every field of an object that has a schema conforms to it. */
  lemma PropertiesMeans(c: Context, r: Reading, j: Json, s: Schema)
    requires Only(s, {"properties"}) && WellTyped(s)
    ensures Conforms(c, r, j, Obj(s)) <==>
            (j.Obj? && "properties" in s ==>
               forall k | k in j.fields && k in s["properties"].fields ::
                 Conforms(c, r, j.fields[k], s["properties"].fields[k]))
  {
    PropertiesAlone(s);
    OnlyObject(c, r, j, s);
  }

  /** The names additionalProperties does not speak of. */
  function Named(s: Schema): (names: set<string>) {
    if "properties" in s && s["properties"].Obj? then s["properties"].fields.Keys else {}
  }

  lemma AdditionalAlone(s: Schema)
    requires Only(s, {"properties", "additionalProperties"})
    ensures !IsRef(s) && NoAny(s) && NoArray(s) && NoString(s) && NoNumber(s)
    ensures "required" !in s
  {
  }

  /** additionalProperties beside properties: false forbids all other fields; any other value asks
      nothing of the code, and a schema asks the standard that they conform to it. */
  lemma AdditionalMeans(c: Context, j: Json, s: Schema)
    requires Only(s, {"properties", "additionalProperties"}) && WellTyped(s)
    ensures Conforms(c, Code, j, Obj(s)) <==>
            && (j.Obj? && "properties" in s ==>
                  forall k | k in j.fields && k in s["properties"].fields ::
                    Conforms(c, Code, j.fields[k], s["properties"].fields[k]))
            && (j.Obj? && "additionalProperties" in s && s["additionalProperties"] == Bool(false) ==>
                  j.fields.Keys <= Named(s))
    ensures Conforms(c, Standard, j, Obj(s)) <==>
            && (j.Obj? && "properties" in s ==>
                  forall k | k in j.fields && k in s["properties"].fields ::
                    Conforms(c, Standard, j.fields[k], s["properties"].fields[k]))
            && (j.Obj? && "additionalProperties" in s && s["additionalProperties"] == Bool(false) ==>
                  j.fields.Keys <= Named(s))
            && (j.Obj? && "additionalProperties" in s && s["additionalProperties"].Obj? ==>
                  forall k | k in j.fields && k !in Named(s) ::
                    Conforms(c, Standard, j.fields[k], s["additionalProperties"]))
  {
    AdditionalAlone(s);
    OnlyObject(c, Code, j, s);
    OnlyObject(c, Standard, j, s);
  }

  /** The number a bound stands for; Python counts true and false as 1 and 0. */
  function Bound(v: Json): (x: real) {
    match v
    case Int(number) => number as real
    case Float(value) => value
    case Bool(truth) => if truth then 1.0 else 0.0
    case _ => 0.0
  }

  lemma ItemCountAlone(s: Schema)
    requires Only(s, {"minItems", "maxItems"})
    ensures !IsRef(s) && NoAny(s) && NoObject(s) && NoString(s) && NoNumber(s)
    ensures "uniqueItems" !in s && "items" !in s
  {
  }

  /** minItems and maxItems: bounds on the length of an array. */
  lemma ItemCountMeans(c: Context, r: Reading, j: Json, s: Schema)
    requires Only(s, {"minItems", "maxItems"}) && WellTyped(s)
    ensures Conforms(c, r, j, Obj(s)) <==>
            && (j.Arr? && "minItems" in s ==> |j.items| as real >= Bound(s["minItems"]))
            && (j.Arr? && "maxItems" in s ==> |j.items| as real <= Bound(s["maxItems"]))
  {
    ItemCountAlone(s);
    OnlyArray(c, r, j, s);
  }

  lemma UniqueAlone(s: Schema)
    requires Only(s, {"uniqueItems"})
    ensures !IsRef(s) && NoAny(s) && NoObject(s) && NoString(s) && NoNumber(s)
    ensures "minItems" !in s && "maxItems" !in s && "items" !in s
  {
  }

  /** uniqueItems: unless its value is false for Python, no two items of an array are the same, as encoded
      or as the standard compares. */
  lemma UniqueMeans(c: Context, j: Json, s: Schema)
    requires Only(s, {"uniqueItems"}) && WellTyped(s)
    ensures Conforms(c, Code, j, Obj(s)) <==>
            (j.Arr? && "uniqueItems" in s && s["uniqueItems"] !in
               [Null, Bool(false), Int(0), Float(0.0), Str(""), Arr([]), Obj(map[])] ==>
             forall i, k | 0 <= i < k < |j.items| :: j.items[i] != j.items[k])
    ensures Conforms(c, Standard, j, Obj(s)) <==>
            (j.Arr? && "uniqueItems" in s && s["uniqueItems"] !in
               [Null, Bool(false), Int(0), Float(0.0), Str(""), Arr([]), Obj(map[])] ==>
             forall i, k | 0 <= i < k < |j.items| :: !StdEqual(j.items[i], j.items[k]))
  {
    UniqueAlone(s);
    OnlyArray(c, Code, j, s);
    OnlyArray(c, Standard, j, s);
  }

  lemma ItemsAlone(s: Schema)
    requires Only(s, {"items"})
    ensures !IsRef(s) && NoAny(s) && NoObject(s) && NoString(s) && NoNumber(s)
    ensures "minItems" !in s && "maxItems" !in s && "uniqueItems" !in s
  {
  }

  /** items: every item of an array conforms. */
  lemma ItemsMeans(c: Context, r: Reading, j: Json, s: Schema)
    requires Only(s, {"items"}) && WellTyped(s)
    ensures Conforms(c, r, j, Obj(s)) <==>
            (j.Arr? && "items" in s ==> forall i | 0 <= i < |j.items| :: Conforms(c, r, j.items[i], s["items"]))
  {
    ItemsAlone(s);
    OnlyArray(c, r, j, s);
  }

  lemma LengthAlone(s: Schema)
    requires Only(s, {"minLength", "maxLength"})
    ensures !IsRef(s) && NoAny(s) && NoObject(s) && NoArray(s) && NoNumber(s)
    ensures "pattern" !in s
  {
  }

  /** minLength and maxLength: bounds on the length of a string. */
  lemma LengthMeans(c: Context, r: Reading, j: Json, s: Schema)
    requires Only(s, {"minLength", "maxLength"}) && WellTyped(s)
    ensures Conforms(c, r, j, Obj(s)) <==>
            && (j.Str? && "minLength" in s ==> |j.text| as real >= Bound(s["minLength"]))
            && (j.Str? && "maxLength" in s ==> |j.text| as real <= Bound(s["maxLength"]))
  {
    LengthAlone(s);
    OnlyString(c, r, j, s);
  }

  lemma PatternAlone(s: Schema)
    requires Only(s, {"pattern"})
    ensures !IsRef(s) && NoAny(s) && NoObject(s) && NoArray(s) && NoNumber(s)
    ensures "minLength" !in s && "maxLength" !in s
  {
  }

  /** pattern: Python's search for the code, ECMA-262 for the standard. */
  lemma PatternMeans(c: Context, j: Json, s: Schema)
    requires Only(s, {"pattern"}) && WellTyped(s)
    ensures Conforms(c, Code, j, Obj(s)) <==> (j.Str? && "pattern" in s ==> c.search(s["pattern"].text, j.text))
    ensures Conforms(c, Standard, j, Obj(s)) <==> (j.Str? && "pattern" in s ==> c.ecma(s["pattern"].text, j.text))
  {
    PatternAlone(s);
    OnlyString(c, Code, j, s);
    OnlyString(c, Standard, j, s);
  }

  lemma RangeAlone(s: Schema)
    requires Only(s, {"minimum", "maximum"})
    ensures !IsRef(s) && NoAny(s) && NoObject(s) && NoArray(s) && NoString(s)
  {
  }

  /** minimum and maximum: bounds on a number, and booleans are none. */
  lemma RangeMeans(c: Context, r: Reading, j: Json, s: Schema)
    requires Only(s, {"minimum", "maximum"}) && WellTyped(s)
    ensures Conforms(c, r, j, Obj(s)) <==>
            && (j.Int? && "minimum" in s ==> j.number as real >= Bound(s["minimum"]))
            && (j.Int? && "maximum" in s ==> j.number as real <= Bound(s["maximum"]))
            && (j.Float? && "minimum" in s ==> j.value >= Bound(s["minimum"]))
            && (j.Float? && "maximum" in s ==> j.value <= Bound(s["maximum"]))
  {
    RangeAlone(s);
    OnlyNumber(c, r, j, s);
  }

  // ----- All keywords together

  /** The part of a schema with the keywords in ks. */
  function Part(s: Schema, ks: set<string>): (p: Schema)
    ensures Only(p, ks)
  {
    map k | k in s && k in ks :: s[k]
  }

  lemma PartTyped(s: Schema, ks: set<string>)
    requires WellTyped(s)
    ensures WellTyped(Part(s, ks))
  {
  }

  ghost predicate PartAdmits(c: Context, r: Reading, j: Json, s: Schema, ks: set<string>) {
    Conforms(c, r, j, Obj(Part(s, ks)))
  }

  lemma ConstPart(c: Context, r: Reading, j: Json, s: Schema)
    requires WellTyped(s)
    ensures PartAdmits(c, r, j, s, {"const"}) <==> ("const" in s ==> Same(r, j, s["const"]))
  {
    PartTyped(s, {"const"});
    ConstMeans(c, j, Part(s, {"const"}));
  }

  lemma EnumPart(c: Context, r: Reading, j: Json, s: Schema)
    requires WellTyped(s)
    ensures PartAdmits(c, r, j, s, {"enum"}) <==> ("enum" in s ==> exists e | e in s["enum"].items :: Same(r, j, e))
  {
    PartTyped(s, {"enum"});
    EnumMeans(c, j, Part(s, {"enum"}));
  }

  lemma TypePart(c: Context, r: Reading, j: Json, s: Schema)
    requires WellTyped(s)
    ensures PartAdmits(c, r, j, s, {"type"}) <==> ("type" in s ==> TypeAdmits(r, j, s["type"]))
  {
    PartTyped(s, {"type"});
    TypeAlone(Part(s, {"type"}));
    OnlyAny(c, r, j, Part(s, {"type"}));
  }

  lemma RequiredPart(c: Context, r: Reading, j: Json, s: Schema)
    requires WellTyped(s)
    ensures PartAdmits(c, r, j, s, {"required"}) <==> 
            (j.Obj? && "required" in s ==> forall k | k in s["required"].items :: k.text in j.fields)
  {
    PartTyped(s, {"required"});
    RequiredMeans(c, r, j, Part(s, {"required"}));
  }

  lemma AdditionalPart(c: Context, r: Reading, j: Json, s: Schema)
    requires WellTyped(s)
    ensures PartAdmits(c, r, j, s, {"properties", "additionalProperties"}) <==>
            (j.Obj? ==>
               && ("additionalProperties" in s && s["additionalProperties"] == Bool(false) ==>
                     j.fields.Keys <= Properties(s).Keys)
               && (forall k | k in j.fields && k in Properties(s) :: Conforms(c, r, j.fields[k], Properties(s)[k]))
               && (Extends(r, s) ==> forall k | k in j.fields && k !in Properties(s) ::
                     Conforms(c, r, j.fields[k], s["additionalProperties"])))
  {
    var p := Part(s, {"properties", "additionalProperties"});
    PartTyped(s, {"properties", "additionalProperties"});
    AdditionalAlone(p);
    OnlyObject(c, r, j, p);
    assert Properties(p) == Properties(s);
  }

  lemma ItemCountPart(c: Context, r: Reading, j: Json, s: Schema)
    requires WellTyped(s)
    ensures PartAdmits(c, r, j, s, {"minItems", "maxItems"}) <==> 
            (j.Arr? ==>
               && ("minItems" in s ==> |j.items| as real >= NumericValue(s["minItems"]))
               && ("maxItems" in s ==> |j.items| as real <= NumericValue(s["maxItems"])))
  {
    PartTyped(s, {"minItems", "maxItems"});
    ItemCountMeans(c, r, j, Part(s, {"minItems", "maxItems"}));
  }

  lemma UniquePart(c: Context, r: Reading, j: Json, s: Schema)
    requires WellTyped(s)
    ensures PartAdmits(c, r, j, s, {"uniqueItems"}) <==>
            (j.Arr? && "uniqueItems" in s && Truthy(s["uniqueItems"]) ==> AllDistinct(r, j.items))
  {
    PartTyped(s, {"uniqueItems"});
    UniqueAlone(Part(s, {"uniqueItems"}));
    OnlyArray(c, r, j, Part(s, {"uniqueItems"}));
  }

  lemma ItemsPart(c: Context, r: Reading, j: Json, s: Schema)
    requires WellTyped(s)
    ensures PartAdmits(c, r, j, s, {"items"}) <==> 
            (j.Arr? && "items" in s ==> forall i | 0 <= i < |j.items| :: Conforms(c, r, j.items[i], s["items"]))
  {
    PartTyped(s, {"items"});
    ItemsMeans(c, r, j, Part(s, {"items"}));
  }

  lemma LengthPart(c: Context, r: Reading, j: Json, s: Schema)
    requires WellTyped(s)
    ensures PartAdmits(c, r, j, s, {"minLength", "maxLength"}) <==> 
            (j.Str? ==>
               && ("minLength" in s ==> |j.text| as real >= NumericValue(s["minLength"]))
               && ("maxLength" in s ==> |j.text| as real <= NumericValue(s["maxLength"])))
  {
    PartTyped(s, {"minLength", "maxLength"});
    LengthMeans(c, r, j, Part(s, {"minLength", "maxLength"}));
  }

  lemma PatternPart(c: Context, r: Reading, j: Json, s: Schema)
    requires WellTyped(s)
    ensures PartAdmits(c, r, j, s, {"pattern"}) <==> (j.Str? && "pattern" in s ==> Matches(c, r, s["pattern"].text, j.text))
  {
    PartTyped(s, {"pattern"});
    PatternMeans(c, j, Part(s, {"pattern"}));
  }

  lemma RangePart(c: Context, r: Reading, j: Json, s: Schema)
    requires WellTyped(s)
    ensures PartAdmits(c, r, j, s, {"minimum", "maximum"}) <==> (IsNumber(j) ==> MeetsNumber(AsReal(j), s))
  {
    PartTyped(s, {"minimum", "maximum"});
    RangeAlone(Part(s, {"minimum", "maximum"}));
    OnlyNumber(c, r, j, Part(s, {"minimum", "maximum"}));
  }

  lemma AnyTogether(c: Context, r: Reading, j: Json, s: Schema)
    requires WellTyped(s)
    ensures MeetsAny(r, j, s) <==>
            PartAdmits(c, r, j, s, {"const"}) && PartAdmits(c, r, j, s, {"enum"}) && PartAdmits(c, r, j, s, {"type"})
  {
    ConstPart(c, r, j, s);
    EnumPart(c, r, j, s);
    TypePart(c, r, j, s);
  }

  lemma ObjectTogether(c: Context, r: Reading, j: Json, s: Schema)
    requires WellTyped(s)
    ensures (j.Obj? ==>
               && MeetsObject(j.fields, s)
               && (forall k | k in j.fields && k in Properties(s) :: Conforms(c, r, j.fields[k], Properties(s)[k]))
               && (Extends(r, s) ==> forall k | k in j.fields && k !in Properties(s) ::
                     Conforms(c, r, j.fields[k], s["additionalProperties"]))) <==>
            PartAdmits(c, r, j, s, {"required"}) && PartAdmits(c, r, j, s, {"properties", "additionalProperties"})
  {
    RequiredPart(c, r, j, s);
    AdditionalPart(c, r, j, s);
  }

  lemma ArrayTogether(c: Context, r: Reading, j: Json, s: Schema)
    requires WellTyped(s)
    ensures (j.Arr? ==>
               && MeetsArray(r, j.items, s)
               && ("items" in s ==> forall i | 0 <= i < |j.items| :: Conforms(c, r, j.items[i], s["items"]))) <==>
            && PartAdmits(c, r, j, s, {"minItems", "maxItems"}) && PartAdmits(c, r, j, s, {"uniqueItems"})
            && PartAdmits(c, r, j, s, {"items"})
  {
    ItemCountPart(c, r, j, s);
    UniquePart(c, r, j, s);
    ItemsPart(c, r, j, s);
  }

  lemma StringTogether(c: Context, r: Reading, j: Json, s: Schema)
    requires WellTyped(s)
    ensures (j.Str? ==> MeetsString(c, r, j.text, s)) <==>
            PartAdmits(c, r, j, s, {"minLength", "maxLength"}) && PartAdmits(c, r, j, s, {"pattern"})
  {
    LengthPart(c, r, j, s);
    PatternPart(c, r, j, s);
  }

  /** A value conforms to a schema without a reference if and only if it conforms to each keyword of it
      by itself, additional properties taken with the properties they add to. */
  lemma KeywordsTogether(c: Context, r: Reading, j: Json, s: Schema)
    requires WellTyped(s) && !IsRef(s)
    ensures Conforms(c, r, j, Obj(s)) <==>
            && PartAdmits(c, r, j, s, {"const"})
            && PartAdmits(c, r, j, s, {"enum"})
            && PartAdmits(c, r, j, s, {"type"})
            && PartAdmits(c, r, j, s, {"required"})
            && PartAdmits(c, r, j, s, {"properties", "additionalProperties"})
            && PartAdmits(c, r, j, s, {"minItems", "maxItems"})
            && PartAdmits(c, r, j, s, {"uniqueItems"})
            && PartAdmits(c, r, j, s, {"items"})
            && PartAdmits(c, r, j, s, {"minLength", "maxLength"})
            && PartAdmits(c, r, j, s, {"pattern"})
            && PartAdmits(c, r, j, s, {"minimum", "maximum"})
  {
    OnlyMeets(c, r, j, s);
    AnyTogether(c, r, j, s);
    ObjectTogether(c, r, j, s);
    ArrayTogether(c, r, j, s);
    StringTogether(c, r, j, s);
    RangePart(c, r, j, s);
  }

  /** So an accepted object has every required field. */
  lemma AcceptedHasRequired(c: Context, r: Reading, fields: map<string, Json>, s: Schema, name: string)
    requires WellTyped(s) && !IsRef(s) && "required" in s && Str(name) in s["required"].items
    requires Conforms(c, r, Obj(fields), Obj(s))
    ensures name in fields
  {
    KeywordsTogether(c, r, Obj(fields), s);
    RequiredPart(c, r, Obj(fields), s);
  }
}
