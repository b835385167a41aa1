/** The validator against JSON Schema Draft 2020-12: for every keyword it reads, the exact inputs on
    which it departs from the standard, and for whole schemas the exact condition of agreement. */
module SchemaStandard {
  import opened Wrappers
  import opened JsonPointer
  import opened SchemaValidator

  // ----- The three equalities

  /** At some common position a boolean faces a number. */
  ghost predicate Crossed(a: Json, b: Json)
    decreases a
  {
    || (a.Bool? && IsNumber(b)) || (IsNumber(a) && b.Bool?)
    || (a.Arr? && b.Arr? && exists i | 0 <= i < |a.items| && i < |b.items| :: Crossed(a.items[i], b.items[i]))
    || (a.Obj? && b.Obj? && exists k | k in a.fields && k in b.fields :: Crossed(a.fields[k], b.fields[k]))
  }

  /** At some common position an integer faces a float. */
  ghost predicate Mixed(a: Json, b: Json)
    decreases a
  {
    || (a.Int? && b.Float?) || (a.Float? && b.Int?)
    || (a.Arr? && b.Arr? && exists i | 0 <= i < |a.items| && i < |b.items| :: Mixed(a.items[i], b.items[i]))
    || (a.Obj? && b.Obj? && exists k | k in a.fields && k in b.fields :: Mixed(a.fields[k], b.fields[k]))
  }

  /** The standard's equality is Python's without a boolean facing a number. */
  lemma {:induction false} StdEqualIff(a: Json, b: Json)
    ensures StdEqual(a, b) <==> PyEqual(a, b) && !Crossed(a, b)
    decreases a
  {
    if a.Arr? && b.Arr? {
      forall i | 0 <= i < |a.items| && i < |b.items|
        ensures StdEqual(a.items[i], b.items[i]) <==> PyEqual(a.items[i], b.items[i]) && !Crossed(a.items[i], b.items[i])
      {
        StdEqualIff(a.items[i], b.items[i]);
      }
    } else if a.Obj? && b.Obj? {
      forall k | k in a.fields && k in b.fields
        ensures StdEqual(a.fields[k], b.fields[k]) <==>
                PyEqual(a.fields[k], b.fields[k]) && !Crossed(a.fields[k], b.fields[k])
      {
        StdEqualIff(a.fields[k], b.fields[k]);
      }
    }
  }

  /** Equality of encodings is the standard's without an integer facing a float. */
  lemma {:induction false} StructuralIff(a: Json, b: Json)
    ensures a == b <==> StdEqual(a, b) && !Mixed(a, b)
    decreases a
  {
    if a.Arr? && b.Arr? {
      forall i | 0 <= i < |a.items| && i < |b.items|
        ensures a.items[i] == b.items[i] <==> StdEqual(a.items[i], b.items[i]) && !Mixed(a.items[i], b.items[i])
      {
        StructuralIff(a.items[i], b.items[i]);
      }
      assert a == b <==> a.items == b.items;
    } else if a.Obj? && b.Obj? {
      forall k | k in a.fields && k in b.fields
        ensures a.fields[k] == b.fields[k] <==> StdEqual(a.fields[k], b.fields[k]) && !Mixed(a.fields[k], b.fields[k])
      {
        StructuralIff(a.fields[k], b.fields[k]);
      }
      assert a == b <==> a.fields == b.fields;
    }
  }

  // ----- Single keywords

  /** What a schema of one keyword without subschemas asks. */
  lemma OnlyPlain(c: Context, r: Reading, j: Json, s: Schema)
    requires WellTyped(s) && !IsRef(s) && "properties" !in s && "items" !in s && "additionalProperties" !in s
    ensures Conforms(c, r, j, Obj(s)) <==> MeetsPlain(c, r, j, s)
  {
    ConformsPlain(c, r, j, Obj(s));
  }

  /** A constant is read as the standard reads it, unless the value equals it for Python with a
      boolean facing a number. */
  lemma ConstIff(c: Context, j: Json, v: Json)
    ensures var s := Obj(map["const" := v]);
            (Conforms(c, Code, j, s) <==> Conforms(c, Standard, j, s)) <==> !(PyEqual(j, v) && Crossed(j, v))
  {
    OnlyConst(c, Code, j, v);
    OnlyConst(c, Standard, j, v);
    StdEqualIff(j, v);
  }

  lemma OnlyConst(c: Context, r: Reading, j: Json, v: Json)
    ensures Conforms(c, r, j, Obj(map["const" := v])) <==> Same(r, j, v)
  {
    OnlyPlain(c, r, j, map["const" := v]);
  }

  /** An enumeration is read as the standard reads it, unless every member that equals the value for
      Python, and there is one, has a boolean facing a number. */
  lemma EnumIff(c: Context, j: Json, members: seq<Json>)
    ensures var s := Obj(map["enum" := Arr(members)]);
            (Conforms(c, Code, j, s) <==> Conforms(c, Standard, j, s)) <==>
            !((exists e | e in members :: PyEqual(j, e)) && forall e | e in members && PyEqual(j, e) :: Crossed(j, e))
  {
    OnlyEnum(c, Code, j, members);
    OnlyEnum(c, Standard, j, members);
    forall e | e in members ensures StdEqual(j, e) <==> PyEqual(j, e) && !Crossed(j, e) { StdEqualIff(j, e); }
  }

  lemma OnlyEnum(c: Context, r: Reading, j: Json, members: seq<Json>)
    ensures Conforms(c, r, j, Obj(map["enum" := Arr(members)])) <==> exists e | e in members :: Same(r, j, e)
  {
    OnlyPlain(c, r, j, map["enum" := Arr(members)]);
  }

  /** A type is read as the standard reads it, unless it is the integers and the value a float
      without a fraction, or it is a list with a type of the value. */
  lemma TypeIff(c: Context, j: Json, types: Json)
    ensures var s := Obj(map["type" := types]);
            (Conforms(c, Code, j, s) <==> Conforms(c, Standard, j, s)) <==>
            && !(types == Str("integer") && j.Float? && Whole(j.value))
            && !(types.Arr? && exists t | t in types.items :: t.Str? && HasType(Standard, j, t.text))
  {
    OnlyType(c, Code, j, types);
    OnlyType(c, Standard, j, types);
  }

  lemma OnlyType(c: Context, r: Reading, j: Json, types: Json)
    ensures Conforms(c, r, j, Obj(map["type" := types])) <==> TypeAdmits(r, j, types)
  {
    OnlyPlain(c, r, j, map["type" := types]);
  }

  /** Unique items are read as the standard reads them, unless all encodings differ and yet two items
      are equal for the standard, an integer facing a float. */
  lemma UniqueIff(c: Context, items: seq<Json>)
    ensures var s := Obj(map["uniqueItems" := Bool(true)]);
            (Conforms(c, Code, Arr(items), s) <==> Conforms(c, Standard, Arr(items), s)) <==>
            !(AllDistinct(Code, items) &&
              exists i, k | 0 <= i < k < |items| :: StdEqual(items[i], items[k]) && Mixed(items[i], items[k]))
  {
    OnlyPlain(c, Code, Arr(items), map["uniqueItems" := Bool(true)]);
    OnlyPlain(c, Standard, Arr(items), map["uniqueItems" := Bool(true)]);
    forall i, k | 0 <= i < k < |items|
      ensures items[i] == items[k] <==> StdEqual(items[i], items[k]) && !Mixed(items[i], items[k])
    {
      StructuralIff(items[i], items[k]);
    }
  }

  /** A schema of additional properties is read as the standard reads it exactly when they all
      conform to it: the code ignores it. */
  lemma AdditionalIff(c: Context, fields: map<string, Json>, a: Json)
    requires a.Obj?
    ensures var j, s := Obj(fields), Obj(map["additionalProperties" := a]);
            && Conforms(c, Code, j, s)
            && ((Conforms(c, Code, j, s) <==> Conforms(c, Standard, j, s)) <==>
                forall k | k in fields :: Conforms(c, Standard, fields[k], a))
  {
    OnlyAdditional(c, Code, fields, map["additionalProperties" := a]);
    OnlyAdditional(c, Standard, fields, map["additionalProperties" := a]);
  }

  lemma OnlyAdditional(c: Context, r: Reading, fields: map<string, Json>, s: Schema)
    requires s.Keys == {"additionalProperties"} && s["additionalProperties"].Obj?
    ensures Conforms(c, r, Obj(fields), Obj(s)) <==>
            r.Code? || forall k | k in fields :: Conforms(c, r, fields[k], s["additionalProperties"])
  {
    ConformsPlain(c, r, Obj(fields), Obj(s));
    assert Properties(s) == map[];
  }

  // ----- Inputs on which the code departs

  /** A constant 1 admits true; the standard keeps booleans and numbers apart. */
  lemma ConstantAdmitsTrue(c: Context)
    ensures var s := Obj(map["const" := Int(1)]);
            Conforms(c, Code, Bool(true), s) && !Conforms(c, Standard, Bool(true), s)
  {
    OnlyConst(c, Code, Bool(true), Int(1));
    ConstIff(c, Bool(true), Int(1));
  }

  /** An array holding 1 and 1.0 counts as having unique items; the standard takes them for equal. */
  lemma UniqueItemsSeparatesNumbers(c: Context)
    ensures var j, s := Arr([Int(1), Float(1.0)]), Obj(map["uniqueItems" := Bool(true)]);
            Conforms(c, Code, j, s) && !Conforms(c, Standard, j, s)
  {
    var items := [Int(1), Float(1.0)];
    OnlyPlain(c, Code, Arr(items), map["uniqueItems" := Bool(true)]);
    UniqueIff(c, items);
    assert StdEqual(items[0], items[1]) && Mixed(items[0], items[1]);
  }

  /** 1800.0 is no integer for the code; for the standard it is. */
  lemma WholeFloatRefused(c: Context)
    ensures var j, s := Float(1800.0), Obj(map["type" := Str("integer")]);
            !Conforms(c, Code, j, s) && Conforms(c, Standard, j, s)
  {
    OnlyType(c, Code, Float(1800.0), Str("integer"));
    OnlyType(c, Standard, Float(1800.0), Str("integer"));
  }

  /** A list of types admits nothing for the code. */
  lemma TypeListRefused(c: Context, j: Json, types: seq<Json>)
    ensures !Conforms(c, Code, j, Obj(map["type" := Arr(types)]))
  {
    OnlyType(c, Code, j, Arr(types));
  }

  /** The code ignores the schema of additional properties. */
  lemma AdditionalSchemaIgnored(c: Context)
    ensures var j := Obj(map["x" := Int(1)]);
            var s := Obj(map["additionalProperties" := Obj(map["type" := Str("string")])]);
            Conforms(c, Code, j, s) && !Conforms(c, Standard, j, s)
  {
    var fields := map["x" := Int(1)];
    OnlyType(c, Standard, fields["x"], Str("string"));
    AdditionalIff(c, fields, Obj(map["type" := Str("string")]));
  }

  /** The code ignores what stands beside a reference: with a target that admits everything it accepts
      every value, while the standard asks for the keywords of the schema itself. */
  lemma KeywordsBesideReferenceIgnored(c: Context, j: Json, s: Schema)
    requires IsRef(s) && Target(c, Code, Obj(s)) == Target(c, Standard, Obj(s)) == Some(Obj(map[]))
    ensures Conforms(c, Code, j, Obj(s))
    ensures Conforms(c, Standard, j, Obj(s)) <==> WellTyped(s) && Meets(c, Standard, j, s)
  {
    ConformsRef(c, Code, j, Obj(s));
    ConformsRef(c, Standard, j, Obj(s));
    EmptyAdmits(c, Code, j);
    EmptyAdmits(c, Standard, j);
  }

  lemma EmptyAdmits(c: Context, r: Reading, j: Json)
    ensures Conforms(c, r, j, Obj(map[]))
  {
    OnlyPlain(c, r, j, map[]);
  }

  /** So 1 passes for a string. */
  lemma TypeBesideReferenceIgnored(c: Context, s: Schema)
    requires IsRef(s) && Target(c, Code, Obj(s)) == Target(c, Standard, Obj(s)) == Some(Obj(map[]))
    requires "type" in s && s["type"] == Str("string")
    ensures Conforms(c, Code, Int(1), Obj(s)) && !Conforms(c, Standard, Int(1), Obj(s))
  {
    KeywordsBesideReferenceIgnored(c, Int(1), s);
    assert !TypeAdmits(Standard, Int(1), s["type"]);
  }

  /** A reference to the whole document, the usual way to write a recursive schema, admits nothing
      for the code and means the document for the standard. */
  lemma RootReferenceRefused(c: Context, j: Json)
    ensures var s := Obj(map["$ref" := Str("#")]);
            !Conforms(c, Code, j, s) && (Conforms(c, Standard, j, s) <==> Conforms(c, Standard, j, c.root))
  {
    var s := map["$ref" := Str("#")];
    ConformsRef(c, Code, j, Obj(s));
    ConformsRef(c, Standard, j, Obj(s));
    assert MeetsPlain(c, Standard, j, s);
    assert Meets(c, Standard, j, s);
  }

  // ----- Whole schemas

  /** A reference that is written as it is meant: nothing in it is percent-encoded, and every tilde
      starts an escape. */
  ghost predicate Literal(c: Context, s: Json) {
    s.Obj? && IsRef(s.fields) && s.fields["$ref"].Str? && IsLocal(s.fields["$ref"].text) ==>
      var text := s.fields["$ref"].text[2..];
      c.decode(text) == text && forall part | part in Split(text) :: WellEscaped(part)
  }

  ghost predicate Readable(c: Context, family: set<Json>) {
    Closed(c, family) && forall s | s in family :: Literal(c, s)
  }

  lemma SameTarget(c: Context, s: Json)
    requires Literal(c, s) && Target(c, Code, s).Some?
    ensures Target(c, Standard, s) == Target(c, Code, s)
  {
    LookupEvaluates(c.root, UnescapeAll(Split(s.fields["$ref"].text[2..])));
  }

  /** Without that a reference can mean two things: where a document has a name as it is written in the
      reference and one as it is decoded, the code takes the first and the standard the second. */
  lemma EncodedReferenceMisread(c: Context, j: Json, written: string, meant: string)
    requires c.decode(Escape(written)) == Escape(meant) && written != meant
    requires c.root == Obj(map[written := Obj(map[]), meant := Bool(false)])
    ensures var s := Obj(map["$ref" := Str("#/" + Escape(written))]);
            Conforms(c, Code, j, s) && !Conforms(c, Standard, j, s)
  {
    var reference := "#/" + Escape(written);
    var s := Obj(map["$ref" := Str(reference)]);
    assert reference[2..] == Escape(written);
    OneToken(written);
    OneToken(meant);
    OneStep(c.root, written);
    OneStep(c.root, meant);
    assert Target(c, Code, s) == Some(Obj(map[])) && Target(c, Standard, s) == Some(Bool(false));
    ConformsRef(c, Code, j, s);
    ConformsRef(c, Standard, j, s);
    EmptyAdmits(c, Code, j);
    ConformsPlain(c, Standard, j, Bool(false));
  }

  lemma OneStep(root: Json, token: string)
    requires root.Obj? && token in root.fields
    ensures Lookup(root, [token]) == Evaluate(root, [token]) == Some(root.fields[token])
  {
    assert [token][1..] == [];
  }

  lemma OneToken(token: string)
    ensures Split(Escape(token)) == [Escape(token)] && WellEscaped(Escape(token))
    ensures UnescapeAll([Escape(token)]) == [token]
  {
    EscapeWellEscaped(token);
    EscapedParts([token]);
    SplitJoin(EscapeAll([token]));
    UnescapeEscape(token);
  }

  /** Nothing the code accepts in this one schema is refused by the standard: no boolean faces a number
      in the constant or in all equal members of the enumeration, no integer an equal float among
      unique items, and the two dialects of regular expressions agree. */
  ghost predicate SoundPlain(c: Context, j: Json, s: Schema)
    requires WellTyped(s)
  {
    && ("const" in s ==> !Crossed(j, s["const"]))
    && ("enum" in s ==> !forall e | e in s["enum"].items && PyEqual(j, e) :: Crossed(j, e))
    && (j.Arr? && "uniqueItems" in s && Truthy(s["uniqueItems"]) ==>
          forall i, k | 0 <= i < k < |j.items| :: !(StdEqual(j.items[i], j.items[k]) && Mixed(j.items[i], j.items[k])))
    && (j.Str? && "pattern" in s ==> c.search(s["pattern"].text, j.text) == c.ecma(s["pattern"].text, j.text))
  }

  /** The same wherever validation comes; what stands beside references is met, and additional
      properties conform to their schema. */
  ghost predicate Sound(c: Context, j: Json, s: Json)
    decreases j, 1
  {
    forall n: nat | Hop(c, Code, s, n).Some? :: SoundAt(c, j, Hop(c, Code, s, n).value)
  }

  ghost predicate SoundAt(c: Context, j: Json, s: Json)
    decreases j, 0
  {
    && s.Obj? && WellTyped(s.fields)
    && if IsRef(s.fields) then Meets(c, Standard, j, s.fields)
       else
         && SoundPlain(c, j, s.fields)
         && (j.Obj? ==> forall k | k in j.fields && k in Properties(s.fields) ::
               Sound(c, j.fields[k], Properties(s.fields)[k]))
         && (j.Obj? && Extends(Standard, s.fields) ==> forall k | k in j.fields && k !in Properties(s.fields) ::
               Conforms(c, Standard, j.fields[k], s.fields["additionalProperties"]))
         && (j.Arr? && "items" in s.fields ==> forall i | 0 <= i < |j.items| ::
               Sound(c, j.items[i], s.fields["items"]))
  }

  /** Nothing the standard accepts in this one schema is refused by the code: the type is no list and
      not the integers where the value is a float, and the two dialects agree. */
  ghost predicate CompletePlain(c: Context, j: Json, s: Schema)
    requires WellTyped(s)
  {
    && ("type" in s ==> !s["type"].Arr? && !(s["type"] == Str("integer") && j.Float?))
    && (j.Str? && "pattern" in s ==> c.search(s["pattern"].text, j.text) == c.ecma(s["pattern"].text, j.text))
  }

  /** The same wherever validation comes, and the code resolves the references. */
  ghost predicate Complete(c: Context, j: Json, s: Json)
    decreases j, 1
  {
    forall n: nat | Hop(c, Standard, s, n).Some? :: CompleteAt(c, j, Hop(c, Standard, s, n).value)
  }

  ghost predicate CompleteAt(c: Context, j: Json, s: Json)
    decreases j, 0
  {
    && s.Obj? && WellTyped(s.fields)
    && if IsRef(s.fields) then Target(c, Code, s).Some?
       else
         && CompletePlain(c, j, s.fields)
         && (j.Obj? ==> forall k | k in j.fields && k in Properties(s.fields) ::
               Complete(c, j.fields[k], Properties(s.fields)[k]))
         && (j.Arr? && "items" in s.fields ==> forall i | 0 <= i < |j.items| ::
               Complete(c, j.items[i], s.fields["items"]))
  }

  lemma SoundLast(c: Context, j: Json, s: Json)
    requires IsLast(s)
    ensures Sound(c, j, s) <==> SoundAt(c, j, s)
  {
    forall n: nat | n > 0 ensures Hop(c, Code, s, n) == None { LastEnds(c, Code, s, n); }
    assert Hop(c, Code, s, 0) == Some(s);
  }

  lemma SoundRef(c: Context, j: Json, s: Json, t: Json)
    requires Target(c, Code, s) == Some(t)
    ensures Sound(c, j, s) <==> SoundAt(c, j, s) && Sound(c, j, t)
  {
    assert Hop(c, Code, s, 0) == Some(s);
    forall n: nat ensures Hop(c, Code, s, n + 1) == Hop(c, Code, t, n) {}
    if SoundAt(c, j, s) && Sound(c, j, t) {
      forall n: nat | Hop(c, Code, s, n).Some? ensures SoundAt(c, j, Hop(c, Code, s, n).value) {
        if n > 0 { assert Hop(c, Code, s, n) == Hop(c, Code, t, n - 1); }
      }
    }
  }

  lemma CompleteLast(c: Context, j: Json, s: Json)
    requires IsLast(s)
    ensures Complete(c, j, s) <==> CompleteAt(c, j, s)
  {
    forall n: nat | n > 0 ensures Hop(c, Standard, s, n) == None { LastEnds(c, Standard, s, n); }
    assert Hop(c, Standard, s, 0) == Some(s);
  }

  lemma CompleteRef(c: Context, j: Json, s: Json, t: Json)
    requires Target(c, Standard, s) == Some(t)
    ensures Complete(c, j, s) <==> CompleteAt(c, j, s) && Complete(c, j, t)
  {
    assert Hop(c, Standard, s, 0) == Some(s);
    forall n: nat ensures Hop(c, Standard, s, n + 1) == Hop(c, Standard, t, n) {}
    if CompleteAt(c, j, s) && Complete(c, j, t) {
      forall n: nat | Hop(c, Standard, s, n).Some? ensures CompleteAt(c, j, Hop(c, Standard, s, n).value) {
        if n > 0 { assert Hop(c, Standard, s, n) == Hop(c, Standard, t, n - 1); }
      }
    }
  }

  lemma EnumEqual(j: Json, members: seq<Json>)
    ensures (exists e | e in members :: StdEqual(j, e)) <==> !forall e | e in members && PyEqual(j, e) :: Crossed(j, e)
    ensures (exists e | e in members :: StdEqual(j, e)) ==> exists e | e in members :: PyEqual(j, e)
  {
    forall e | e in members ensures StdEqual(j, e) <==> PyEqual(j, e) && !Crossed(j, e) { StdEqualIff(j, e); }
  }

  lemma SoundAny(j: Json, s: Schema)
    requires WellTyped(s) && MeetsAny(Code, j, s)
    ensures MeetsAny(Standard, j, s) <==>
            && ("const" in s ==> !Crossed(j, s["const"]))
            && ("enum" in s ==> !forall e | e in s["enum"].items && PyEqual(j, e) :: Crossed(j, e))
  {
    if "const" in s { StdEqualIff(j, s["const"]); }
    if "enum" in s { EnumEqual(j, s["enum"].items); }
  }

  lemma CompleteAny(j: Json, s: Schema)
    requires WellTyped(s) && MeetsAny(Standard, j, s)
    ensures MeetsAny(Code, j, s) <==>
            ("type" in s ==> !s["type"].Arr? && !(s["type"] == Str("integer") && j.Float?))
  {
    if "const" in s { StdEqualIff(j, s["const"]); }
    if "enum" in s { EnumEqual(j, s["enum"].items); }
  }

  lemma SoundArray(items: seq<Json>, s: Schema)
    requires WellTyped(s)
    ensures MeetsArray(Code, items, s) ==>
            (MeetsArray(Standard, items, s) <==> ("uniqueItems" in s && Truthy(s["uniqueItems"]) ==>
               forall i, k | 0 <= i < k < |items| :: !(StdEqual(items[i], items[k]) && Mixed(items[i], items[k]))))
    ensures MeetsArray(Standard, items, s) ==> MeetsArray(Code, items, s)
  {
    forall i, k | 0 <= i < k < |items|
      ensures items[i] == items[k] <==> StdEqual(items[i], items[k]) && !Mixed(items[i], items[k])
    {
      StructuralIff(items[i], items[k]);
    }
  }

  lemma PlainSound(c: Context, j: Json, s: Schema)
    requires WellTyped(s) && MeetsPlain(c, Code, j, s)
    ensures MeetsPlain(c, Standard, j, s) <==> SoundPlain(c, j, s)
  {
    SoundAny(j, s);
    if j.Arr? { SoundArray(j.items, s); }
  }

  lemma PlainComplete(c: Context, j: Json, s: Schema)
    requires WellTyped(s) && MeetsPlain(c, Standard, j, s)
    ensures MeetsPlain(c, Code, j, s) <==> CompletePlain(c, j, s)
  {
    CompleteAny(j, s);
    if j.Arr? { SoundArray(j.items, s); }
  }

  /** One schema, from the same of its members. */
  lemma MeetsSound(c: Context, j: Json, s: Json)
    requires s.Obj? && !IsRef(s.fields) && WellTyped(s.fields) && Meets(c, Code, j, s.fields)
    requires j.Obj? ==> forall k | k in j.fields && k in Properties(s.fields) ::
               Conforms(c, Standard, j.fields[k], Properties(s.fields)[k]) <==>
               Sound(c, j.fields[k], Properties(s.fields)[k])
    requires j.Arr? && "items" in s.fields ==> forall i | 0 <= i < |j.items| ::
               Conforms(c, Standard, j.items[i], s.fields["items"]) <==> Sound(c, j.items[i], s.fields["items"])
    ensures Meets(c, Standard, j, s.fields) <==> SoundAt(c, j, s)
  {
    PlainSound(c, j, s.fields);
  }

  lemma MeetsComplete(c: Context, j: Json, s: Json)
    requires s.Obj? && !IsRef(s.fields) && WellTyped(s.fields) && Meets(c, Standard, j, s.fields)
    requires j.Obj? ==> forall k | k in j.fields && k in Properties(s.fields) ::
               Conforms(c, Code, j.fields[k], Properties(s.fields)[k]) <==>
               Complete(c, j.fields[k], Properties(s.fields)[k])
    requires j.Arr? && "items" in s.fields ==> forall i | 0 <= i < |j.items| ::
               Conforms(c, Code, j.items[i], s.fields["items"]) <==> Complete(c, j.items[i], s.fields["items"])
    ensures Meets(c, Code, j, s.fields) <==> CompleteAt(c, j, s)
  {
    PlainComplete(c, j, s.fields);
  }

  /** A value the code accepts is accepted by the standard if and only if no departure of the first
      kind lies where validation comes. */
  lemma SoundIff(c: Context, j: Json, s: Json, family: set<Json>)
    requires Readable(c, family) && s in family && Conforms(c, Code, j, s)
    ensures Conforms(c, Standard, j, s) <==> Sound(c, j, s)
    decreases j, 3, 0
  {
    var n: nat :| Leads(c, Code, s, n);
    SoundAlong(c, j, s, family, n);
  }

  lemma {:induction false} SoundAlong(c: Context, j: Json, s: Json, family: set<Json>, n: nat)
    requires Readable(c, family) && s in family && Conforms(c, Code, j, s) && Leads(c, Code, s, n)
    ensures Conforms(c, Standard, j, s) <==> Sound(c, j, s)
    decreases j, 2, n
  {
    if n == 0 {
      SoundEnd(c, j, s, family);
    } else {
      ConformsRef(c, Code, j, s);
      var t := Target(c, Code, s).value;
      SameTarget(c, s);
      SoundAlong(c, j, t, family, n - 1);
      SoundThrough(c, j, s, t);
    }
  }

  lemma SoundThrough(c: Context, j: Json, s: Json, t: Json)
    requires Target(c, Code, s) == Target(c, Standard, s) == Some(t)
    requires Conforms(c, Standard, j, t) <==> Sound(c, j, t)
    ensures Conforms(c, Standard, j, s) <==> Sound(c, j, s)
  {
    ConformsRef(c, Standard, j, s);
    SoundRef(c, j, s, t);
  }

  lemma {:induction false} SoundEnd(c: Context, j: Json, s: Json, family: set<Json>)
    requires Readable(c, family) && s in family && Conforms(c, Code, j, s) && IsLast(s)
    ensures Conforms(c, Standard, j, s) <==> Sound(c, j, s)
    decreases j, 1, 0
  {
    ConformsPlain(c, Code, j, s);
    ConformsPlain(c, Standard, j, s);
    SoundLast(c, j, s);
    if j.Obj? { FieldsSound(c, j, s, family); }
    if j.Arr? && "items" in s.fields { ItemsSound(c, j, s, family); }
    MeetsSound(c, j, s);
  }

  lemma {:induction false} FieldsSound(c: Context, j: Json, s: Json, family: set<Json>)
    requires Readable(c, family) && s in family && j.Obj?
    requires forall k | k in j.fields && k in Properties(s.fields) ::
               Conforms(c, Code, j.fields[k], Properties(s.fields)[k])
    ensures forall k | k in j.fields && k in Properties(s.fields) ::
              Conforms(c, Standard, j.fields[k], Properties(s.fields)[k]) <==>
              Sound(c, j.fields[k], Properties(s.fields)[k])
    decreases j, 0, 0
  {
    forall k | k in j.fields && k in Properties(s.fields)
      ensures Conforms(c, Standard, j.fields[k], Properties(s.fields)[k]) <==>
              Sound(c, j.fields[k], Properties(s.fields)[k])
    {
      SoundIff(c, j.fields[k], Properties(s.fields)[k], family);
    }
  }

  lemma {:induction false} ItemsSound(c: Context, j: Json, s: Json, family: set<Json>)
    requires Readable(c, family) && s in family && j.Arr? && "items" in s.fields
    requires forall i | 0 <= i < |j.items| :: Conforms(c, Code, j.items[i], s.fields["items"])
    ensures forall i | 0 <= i < |j.items| ::
              Conforms(c, Standard, j.items[i], s.fields["items"]) <==> Sound(c, j.items[i], s.fields["items"])
    decreases j, 0, 0
  {
    forall i | 0 <= i < |j.items|
      ensures Conforms(c, Standard, j.items[i], s.fields["items"]) <==> Sound(c, j.items[i], s.fields["items"])
    {
      SoundIff(c, j.items[i], s.fields["items"], family);
    }
  }

  /** A value the standard accepts is accepted by the code if and only if no departure of the second
      kind lies where validation comes. */
  lemma CompleteIff(c: Context, j: Json, s: Json, family: set<Json>)
    requires Readable(c, family) && s in family && Conforms(c, Standard, j, s)
    ensures Conforms(c, Code, j, s) <==> Complete(c, j, s)
    decreases j, 3, 0
  {
    var n: nat :| Leads(c, Standard, s, n);
    CompleteAlong(c, j, s, family, n);
  }

  lemma {:induction false} CompleteAlong(c: Context, j: Json, s: Json, family: set<Json>, n: nat)
    requires Readable(c, family) && s in family && Conforms(c, Standard, j, s) && Leads(c, Standard, s, n)
    ensures Conforms(c, Code, j, s) <==> Complete(c, j, s)
    decreases j, 2, n
  {
    if n == 0 {
      CompleteEnd(c, j, s, family);
    } else {
      ConformsRef(c, Standard, j, s);
      var t := Target(c, Standard, s).value;
      if Target(c, Code, s).Some? {
        SameTarget(c, s);
        CompleteAlong(c, j, t, family, n - 1);
      }
      CompleteThrough(c, j, s, t);
    }
  }

  lemma CompleteThrough(c: Context, j: Json, s: Json, t: Json)
    requires s.Obj? && WellTyped(s.fields) && Target(c, Standard, s) == Some(t)
    requires Target(c, Code, s).Some? ==>
               Target(c, Code, s) == Some(t) && (Conforms(c, Code, j, t) <==> Complete(c, j, t))
    ensures Conforms(c, Code, j, s) <==> Complete(c, j, s)
  {
    ConformsRef(c, Code, j, s);
    CompleteRef(c, j, s, t);
  }

  lemma {:induction false} CompleteEnd(c: Context, j: Json, s: Json, family: set<Json>)
    requires Readable(c, family) && s in family && Conforms(c, Standard, j, s) && IsLast(s)
    ensures Conforms(c, Code, j, s) <==> Complete(c, j, s)
    decreases j, 1, 0
  {
    ConformsPlain(c, Code, j, s);
    ConformsPlain(c, Standard, j, s);
    CompleteLast(c, j, s);
    if j.Obj? { FieldsComplete(c, j, s, family); }
    if j.Arr? && "items" in s.fields { ItemsComplete(c, j, s, family); }
    MeetsComplete(c, j, s);
  }

  lemma {:induction false} FieldsComplete(c: Context, j: Json, s: Json, family: set<Json>)
    requires Readable(c, family) && s in family && j.Obj?
    requires forall k | k in j.fields && k in Properties(s.fields) ::
               Conforms(c, Standard, j.fields[k], Properties(s.fields)[k])
    ensures forall k | k in j.fields && k in Properties(s.fields) ::
              Conforms(c, Code, j.fields[k], Properties(s.fields)[k]) <==>
              Complete(c, j.fields[k], Properties(s.fields)[k])
    decreases j, 0, 0
  {
    forall k | k in j.fields && k in Properties(s.fields)
      ensures Conforms(c, Code, j.fields[k], Properties(s.fields)[k]) <==>
              Complete(c, j.fields[k], Properties(s.fields)[k])
    {
      CompleteIff(c, j.fields[k], Properties(s.fields)[k], family);
    }
  }

  lemma {:induction false} ItemsComplete(c: Context, j: Json, s: Json, family: set<Json>)
    requires Readable(c, family) && s in family && j.Arr? && "items" in s.fields
    requires forall i | 0 <= i < |j.items| :: Conforms(c, Standard, j.items[i], s.fields["items"])
    ensures forall i | 0 <= i < |j.items| ::
              Conforms(c, Code, j.items[i], s.fields["items"]) <==> Complete(c, j.items[i], s.fields["items"])
    decreases j, 0, 0
  {
    forall i | 0 <= i < |j.items|
      ensures Conforms(c, Code, j.items[i], s.fields["items"]) <==> Complete(c, j.items[i], s.fields["items"])
    {
      CompleteIff(c, j.items[i], s.fields["items"], family);
    }
  }

  /** Code and standard agree on a value and a schema if and only if what the code accepts meets no
      departure of the first kind and what the standard accepts none of the second. */
  lemma CodeMeetsStandardIff(c: Context, j: Json, s: Json, family: set<Json>)
    requires Readable(c, family) && s in family
    ensures (Conforms(c, Code, j, s) <==> Conforms(c, Standard, j, s)) <==>
            (Conforms(c, Code, j, s) ==> Sound(c, j, s)) && (Conforms(c, Standard, j, s) ==> Complete(c, j, s))
  {
    if Conforms(c, Code, j, s) { SoundIff(c, j, s, family); }
    if Conforms(c, Standard, j, s) { CompleteIff(c, j, s, family); }
  }
}
