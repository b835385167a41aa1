/** The JSON Schema keywords the benchmark's task files are validated with: what the code and what
    Draft 2020-12 ask of a value, as one conformance predicate with two readings, and the recursive
    validator that decides the first. */
module SchemaValidator {
  import opened Wrappers
  import opened JsonPointer
  import opened KeyedLists

  type Schema = map<string, Json>

  /** The schema document and what is outside of it: Python's regular expressions and those of
      ECMA-262, which the standard names, percent-decoding, and references that are no pointer
      into the document. */
  datatype Context = Context(
    root: Json, search: (string, string) -> bool, ecma: (string, string) -> bool,
    decode: string -> string, elsewhere: string -> Option<Json>)

  // ----- Values

  predicate IsNumber(j: Json) {
    j.Int? || j.Float?
  }

  function AsReal(j: Json): (r: real)
    requires IsNumber(j)
  {
    if j.Int? then j.number as real else j.value
  }

  predicate Numeric(j: Json) {
    j.Bool? || IsNumber(j)
  }

  function NumericValue(j: Json): (r: real)
    requires Numeric(j)
  {
    if j.Bool? then (if j.truth then 1.0 else 0.0) else AsReal(j)
  }

  /** Python's ==, under which True, 1 and 1.0 are equal. */
  ghost predicate PyEqual(a: Json, b: Json)
    decreases a
  {
    if Numeric(a) && Numeric(b) then NumericValue(a) == NumericValue(b)
    else if a.Arr? && b.Arr? then
      |a.items| == |b.items| && forall i | 0 <= i < |a.items| :: PyEqual(a.items[i], b.items[i])
    else if a.Obj? && b.Obj? then
      a.fields.Keys == b.fields.Keys && forall k | k in a.fields :: PyEqual(a.fields[k], b.fields[k])
    else a == b
  }

  /** Equality as section 4.2.2 of JSON Schema Draft 2020-12 defines it: numbers by value, booleans
      apart from them. */
  ghost predicate StdEqual(a: Json, b: Json)
    decreases a
  {
    if IsNumber(a) && IsNumber(b) then AsReal(a) == AsReal(b)
    else if a.Arr? && b.Arr? then
      |a.items| == |b.items| && forall i | 0 <= i < |a.items| :: StdEqual(a.items[i], b.items[i])
    else if a.Obj? && b.Obj? then
      a.fields.Keys == b.fields.Keys && forall k | k in a.fields :: StdEqual(a.fields[k], b.fields[k])
    else a == b
  }

  /** How a schema is read: as the code or as the standard does.  Keyword values the standard gives
      no meaning to are read alike. */
  datatype Reading = Code | Standard

  ghost predicate Same(r: Reading, a: Json, b: Json) {
    if r.Code? then PyEqual(a, b) else StdEqual(a, b)
  }

  /** Two items of an array that must be unique count as one.  The code compares their sorted
      encodings, which is structural equality. */
  ghost predicate Repeats(r: Reading, a: Json, b: Json) {
    if r.Code? then a == b else StdEqual(a, b)
  }

  /** Python's truth value of a decoded value. */
  predicate Truthy(j: Json) {
    match j
    case Null => false
    case Bool(truth) => truth
    case Int(number) => number != 0
    case Float(value) => value != 0.0
    case Str(text) => text != ""
    case Arr(items) => items != []
    case Obj(fields) => fields != map[]
  }

  predicate Whole(x: real) {
    x.Floor as real == x
  }

  /** The standard takes any number without a fraction for an integer. */
  predicate HasType(r: Reading, j: Json, name: string) {
    || (name == "object" && j.Obj?)
    || (name == "array" && j.Arr?)
    || (name == "string" && j.Str?)
    || (name == "integer" && (j.Int? || (r.Standard? && j.Float? && Whole(j.value))))
    || (name == "number" && IsNumber(j))
    || (name == "boolean" && j.Bool?)
    || (name == "null" && j.Null?)
  }

  /** The value of the keyword admits j.  A list of types, which the standard allows, is no type
      for the code. */
  predicate TypeAdmits(r: Reading, j: Json, types: Json) {
    || types.Null?
    || (types.Str? && HasType(r, j, types.text))
    || (r.Standard? && types.Arr? && exists t | t in types.items :: t.Str? && HasType(r, j, t.text))
  }

  predicate Matches(c: Context, r: Reading, pattern: string, text: string) {
    if r.Code? then c.search(pattern, text) else c.ecma(pattern, text)
  }

  // ----- Schemas of the supported subset

  predicate IsRef(s: Schema) {
    "$ref" in s
  }

  /** Keyword values have the types the validator reads them at. */
  ghost predicate WellTyped(s: Schema) {
    && ("$ref" in s ==> s["$ref"].Str?)
    && ("enum" in s ==> s["enum"].Arr?)
    && ("required" in s ==> s["required"].Arr? && forall k | k in s["required"].items :: k.Str?)
    && ("properties" in s ==> s["properties"].Obj?)
    && (forall n | n in ["minItems", "maxItems", "minLength", "maxLength"] && n in s :: Numeric(s[n]))
    && ("pattern" in s ==> s["pattern"].Str?)
    && ("minimum" in s ==> Numeric(s["minimum"]))
    && ("maximum" in s ==> Numeric(s["maximum"]))
  }

  function Properties(s: Schema): (p: map<string, Json>) {
    if "properties" in s && s["properties"].Obj? then s["properties"].fields else map[]
  }

  /** The schema a reference points to, as the code or as the standard resolves it. */
  function Target(c: Context, r: Reading, s: Json): (t: Option<Json>) {
    if !(s.Obj? && IsRef(s.fields) && s.fields["$ref"].Str?) then None
    else if r.Standard? then StdResolve(c, s.fields["$ref"].text)
    else
      match Resolve(c.root, s.fields["$ref"].text)
      case Ok(target) => Some(target)
      case Err(_) => None
  }

  /** A pointer in the fragment of a URI is decoded and evaluated, through arrays too, as sections 3,
      4 and 6 of RFC 6901 say; # alone names the document. */
  function StdResolve(c: Context, reference: string): (t: Option<Json>) {
    if reference == "#" then Some(c.root)
    else if IsLocal(reference) then
      var parts := Split(c.decode(reference[2..]));
      if forall part | part in parts :: WellEscaped(part) then Evaluate(c.root, UnescapeAll(parts)) else None
    else c.elsewhere(reference)
  }

  /** The schema n references away from s, if there are as many. */
  function Hop(c: Context, r: Reading, s: Json, n: nat): (t: Option<Json>)
    decreases n
  {
    if n == 0 then Some(s)
    else if Target(c, r, s).None? then None
    else Hop(c, r, Target(c, r, s).value, n - 1)
  }

  /** No schema of the family refers back to itself through references alone. */
  ghost predicate Acyclic(c: Context, r: Reading, family: set<Json>) {
    forall s, n: nat | s in family && n > 0 :: Hop(c, r, s, n) != Some(s)
  }

  ghost predicate RefClosed(c: Context, r: Reading, family: set<Json>) {
    forall s | s in family && Target(c, r, s).Some? :: Target(c, r, s).value in family
  }

  /** A family of schemas closed under subschemas and references: everything the validator can
      reach from a member is a well-typed member. */
  ghost predicate Closed(c: Context, family: set<Json>) {
    && RefClosed(c, Code, family)
    && forall s | s in family ::
      && s.Obj? && WellTyped(s.fields)
      && (forall k | k in Properties(s.fields) :: Properties(s.fields)[k] in family)
      && ("items" in s.fields ==> s.fields["items"] in family)
  }

  ghost predicate Supported(c: Context, family: set<Json>) {
    Closed(c, family) && Acyclic(c, Code, family)
  }

  /** Following references from s for at most n hops reaches a schema without one, or a
      reference that cannot be resolved. */
  ghost predicate ChainEnds(c: Context, r: Reading, s: Json, n: nat)
    decreases n
  {
    Target(c, r, s).Some? ==> n > 0 && ChainEnds(c, r, Target(c, r, s).value, n - 1)
  }

  lemma {:induction false} ChainEndsIff(c: Context, r: Reading, s: Json, n: nat)
    ensures ChainEnds(c, r, s, n) <==> Hop(c, r, s, n + 1) == None
    decreases n
  {
    if Target(c, r, s).None? {
    } else if n == 0 {
      assert Hop(c, r, Target(c, r, s).value, 0).Some?;
    } else {
      ChainEndsIff(c, r, Target(c, r, s).value, n - 1);
    }
  }

  lemma {:induction false} HopAdd(c: Context, r: Reading, s: Json, m: nat, n: nat)
    ensures Hop(c, r, s, m + n) == if Hop(c, r, s, m).Some? then Hop(c, r, Hop(c, r, s, m).value, n) else None
    decreases m
  {
    if m == 0 || Target(c, r, s).None? {
    } else {
      HopAdd(c, r, Target(c, r, s).value, m - 1, n);
    }
  }

  lemma {:induction false} HopInside(c: Context, r: Reading, family: set<Json>, s: Json, n: nat)
    requires RefClosed(c, r, family) && s in family
    ensures Hop(c, r, s, n).Some? ==> Hop(c, r, s, n).value in family
    decreases n
  {
    if n == 0 || Target(c, r, s).None? {
    } else {
      HopInside(c, r, family, Target(c, r, s).value, n - 1);
    }
  }

  /** A cycle can be followed for ever. */
  lemma {:induction false} CycleGoesOn(c: Context, r: Reading, s: Json, n: nat, k: nat)
    requires n > 0 && Hop(c, r, s, n) == Some(s)
    ensures Hop(c, r, s, k).Some?
    decreases k
  {
    if k <= n {
      HopAdd(c, r, s, k, n - k);
    } else {
      CycleGoesOn(c, r, s, n, k - n);
      HopAdd(c, r, s, n, k - n);
    }
  }

  /** The schemas a chain passes. */
  lemma {:induction false} Trail(c: Context, r: Reading, family: set<Json>, s: Json, n: nat) returns (passed: seq<Json>)
    requires RefClosed(c, r, family) && s in family && Hop(c, r, s, n).Some?
    ensures |passed| == n + 1 && forall k | 0 <= k <= n :: passed[k] in family && Hop(c, r, s, k) == Some(passed[k])
    decreases n
  {
    if n == 0 {
      passed := [s];
    } else {
      HopAdd(c, r, s, n - 1, 1);
      var front := Trail(c, r, family, s, n - 1);
      HopInside(c, r, family, s, n);
      passed := front + [Hop(c, r, s, n).value];
    }
  }

  /** A chain longer than the family is large comes back to where it was. */
  lemma LongChainCycles(c: Context, r: Reading, family: set<Json>, s: Json) returns (u: Json, n: nat)
    requires RefClosed(c, r, family) && s in family && Hop(c, r, s, |family|).Some?
    ensures u in family && n > 0 && Hop(c, r, u, n) == Some(u)
  {
    var passed := Trail(c, r, family, s, |family|);
    Pigeonhole(passed, family);
    var i, j :| 0 <= i < j < |passed| && passed[i] == passed[j];
    u, n := passed[i], j - i;
    HopAdd(c, r, s, i, n);
  }

  /** References form no cycle if and only if every chain of them ends within as many hops as there
      are schemas. */
  lemma AcyclicIff(c: Context, r: Reading, family: set<Json>)
    requires RefClosed(c, r, family)
    ensures Acyclic(c, r, family) <==> forall s | s in family :: ChainEnds(c, r, s, |family|)
  {
    forall s | s in family ensures ChainEnds(c, r, s, |family|) <==> Hop(c, r, s, |family| + 1) == None {
      ChainEndsIff(c, r, s, |family|);
    }
    if Acyclic(c, r, family) {
      forall s | s in family ensures Hop(c, r, s, |family| + 1) == None {
        if Hop(c, r, s, |family| + 1).Some? {
          HopAdd(c, r, s, |family|, 1);
          var u, n := LongChainCycles(c, r, family, s);
          assert false;
        }
      }
    } else {
      var s, n: nat :| s in family && n > 0 && Hop(c, r, s, n) == Some(s);
      CycleGoesOn(c, r, s, n, |family| + 1);
    }
  }

  // ----- Conformance

  predicate IsLast(s: Json) {
    !(s.Obj? && IsRef(s.fields))
  }

  /** n references lead from s to a schema that has none. */
  ghost predicate Leads(c: Context, r: Reading, s: Json, n: nat) {
    Hop(c, r, s, n).Some? && IsLast(Hop(c, r, s, n).value)
  }

  ghost predicate MeetsAny(r: Reading, j: Json, s: Schema)
    requires WellTyped(s)
  {
    && ("const" in s ==> Same(r, j, s["const"]))
    && ("enum" in s ==> exists e | e in s["enum"].items :: Same(r, j, e))
    && ("type" in s ==> TypeAdmits(r, j, s["type"]))
  }

  ghost predicate MeetsObject(fields: map<string, Json>, s: Schema)
    requires WellTyped(s)
  {
    && ("required" in s ==> forall k | k in s["required"].items :: k.text in fields)
    && ("additionalProperties" in s && s["additionalProperties"] == Bool(false) ==> fields.Keys <= Properties(s).Keys)
  }

  ghost predicate MeetsArray(r: Reading, items: seq<Json>, s: Schema)
    requires WellTyped(s)
  {
    && ("minItems" in s ==> |items| as real >= NumericValue(s["minItems"]))
    && ("maxItems" in s ==> |items| as real <= NumericValue(s["maxItems"]))
    && ("uniqueItems" in s && Truthy(s["uniqueItems"]) ==> AllDistinct(r, items))
  }

  ghost predicate MeetsString(c: Context, r: Reading, text: string, s: Schema)
    requires WellTyped(s)
  {
    && ("minLength" in s ==> |text| as real >= NumericValue(s["minLength"]))
    && ("maxLength" in s ==> |text| as real <= NumericValue(s["maxLength"]))
    && ("pattern" in s ==> Matches(c, r, s["pattern"].text, text))
  }

  ghost predicate MeetsNumber(value: real, s: Schema)
    requires WellTyped(s)
  {
    && ("minimum" in s ==> value >= NumericValue(s["minimum"]))
    && ("maximum" in s ==> value <= NumericValue(s["maximum"]))
  }

  /** What the keywords other than those with subschemas ask of a value. */
  ghost predicate MeetsPlain(c: Context, r: Reading, j: Json, s: Schema)
    requires WellTyped(s)
  {
    && MeetsAny(r, j, s)
    && (j.Obj? ==> MeetsObject(j.fields, s))
    && (j.Arr? ==> MeetsArray(r, j.items, s))
    && (j.Str? ==> MeetsString(c, r, j.text, s))
    && (IsNumber(j) ==> MeetsNumber(AsReal(j), s))
  }

  ghost predicate AllDistinct(r: Reading, items: seq<Json>) {
    forall i, k | 0 <= i < k < |items| :: !Repeats(r, items[i], items[k])
  }

  /** The schema of additional properties, which only the standard applies. */
  predicate Extends(r: Reading, s: Schema) {
    r.Standard? && "additionalProperties" in s && s["additionalProperties"].Obj?
  }

  /** A value conforms to a schema when the references from the schema come to an end and the value
      is admitted along the way: for the standard by every schema passed, for the code, which ignores
      what stands beside a reference, by the last one. */
  ghost predicate Conforms(c: Context, r: Reading, j: Json, s: Json)
    decreases j, 2
  {
    && (exists n: nat :: Leads(c, r, s, n))
    && forall n: nat | Hop(c, r, s, n).Some? && (r.Standard? || IsLast(Hop(c, r, s, n).value)) ::
         Admits(c, r, j, Hop(c, r, s, n).value)
  }

  /** One schema by itself; true and false are schemas for the standard. */
  ghost predicate Admits(c: Context, r: Reading, j: Json, s: Json)
    decreases j, 1
  {
    if s.Bool? then r.Standard? && s.truth else s.Obj? && WellTyped(s.fields) && Meets(c, r, j, s.fields)
  }

  ghost predicate Meets(c: Context, r: Reading, j: Json, s: Schema)
    requires WellTyped(s)
    decreases j, 0
  {
    && MeetsPlain(c, r, j, s)
    && (j.Obj? ==> forall k | k in j.fields && k in Properties(s) :: Conforms(c, r, j.fields[k], Properties(s)[k]))
    && (j.Obj? && Extends(r, s) ==> forall k | k in j.fields && k !in Properties(s) ::
          Conforms(c, r, j.fields[k], s["additionalProperties"]))
    && (j.Arr? && "items" in s ==> forall i | 0 <= i < |j.items| :: Conforms(c, r, j.items[i], s["items"]))
  }

  /** Nothing follows a schema without a reference. */
  lemma LastEnds(c: Context, r: Reading, s: Json, n: nat)
    requires IsLast(s) && n > 0
    ensures Hop(c, r, s, n) == None
  {
  }

  lemma LeadsOnce(c: Context, r: Reading, s: Json, n: nat, m: nat)
    requires Leads(c, r, s, n) && n < m
    ensures !Leads(c, r, s, m)
  {
    HopAdd(c, r, s, n, m - n);
    LastEnds(c, r, Hop(c, r, s, n).value, m - n);
  }

  lemma LeadsUnique(c: Context, r: Reading, s: Json, n: nat, m: nat)
    requires Leads(c, r, s, n) && Leads(c, r, s, m)
    ensures n == m
  {
    if n < m {
      LeadsOnce(c, r, s, n, m);
    } else if m < n {
      LeadsOnce(c, r, s, m, n);
    }
  }

  /** A schema without a reference stands for itself. */
  lemma ConformsPlain(c: Context, r: Reading, j: Json, s: Json)
    requires IsLast(s)
    ensures Conforms(c, r, j, s) <==> Admits(c, r, j, s)
  {
    assert Leads(c, r, s, 0);
    forall n: nat | n > 0 ensures Hop(c, r, s, n) == None { LastEnds(c, r, s, n); }
    assert Hop(c, r, s, 0) == Some(s);
  }

  /** A reference asks what its target asks, and for the standard also what stands beside it; an
      unresolvable one admits nothing. */
  lemma ConformsRef(c: Context, r: Reading, j: Json, s: Json)
    requires !IsLast(s)
    ensures Conforms(c, r, j, s) <==>
            && (r.Standard? ==> Admits(c, r, j, s))
            && Target(c, r, s).Some? && Conforms(c, r, j, Target(c, r, s).value)
  {
    assert Hop(c, r, s, 0) == Some(s);
    if Target(c, r, s).None? {
      forall n: nat ensures !Leads(c, r, s, n) { assert n > 0 ==> Hop(c, r, s, n) == None; }
    } else {
      var t := Target(c, r, s).value;
      forall n: nat ensures Hop(c, r, s, n + 1) == Hop(c, r, t, n) {}
      EndsNext(c, r, s, t);
      if Conforms(c, r, j, s) {
        forall n: nat | Hop(c, r, t, n).Some? && (r.Standard? || IsLast(Hop(c, r, t, n).value))
          ensures Admits(c, r, j, Hop(c, r, t, n).value)
        {
          assert Hop(c, r, s, n + 1) == Hop(c, r, t, n);
        }
      }
      if (r.Standard? ==> Admits(c, r, j, s)) && Conforms(c, r, j, t) {
        forall n: nat | Hop(c, r, s, n).Some? && (r.Standard? || IsLast(Hop(c, r, s, n).value))
          ensures Admits(c, r, j, Hop(c, r, s, n).value)
        {
          if n > 0 { assert Hop(c, r, s, n) == Hop(c, r, t, n - 1); }
        }
      }
    }
  }

  lemma EndsNext(c: Context, r: Reading, s: Json, t: Json)
    requires !IsLast(s) && Target(c, r, s) == Some(t)
    ensures (exists n: nat :: Leads(c, r, s, n)) <==> (exists n: nat :: Leads(c, r, t, n))
  {
    if n: nat :| Leads(c, r, s, n) {
      assert n > 0 && Leads(c, r, t, n - 1);
    }
    if n: nat :| Leads(c, r, t, n) {
      assert Leads(c, r, s, n + 1);
    }
  }

  // ----- The validator

  /** Validation accepts exactly the conforming values.  It terminates because a reference uses up
      one hop of a chain that is no longer than the family, and every other call goes to a smaller
      value: schemas may be recursive through properties and items. */
  method Validate(c: Context, j: Json, s: Json, ghost family: set<Json>) returns (ok: bool)
    requires Supported(c, family) && s in family
    ensures ok <==> Conforms(c, Code, j, s)
  {
    AcyclicIff(c, Code, family);
    ok := ValidateWithin(c, j, s, family, |family|);
  }

  method ValidateWithin(c: Context, j: Json, s: Json, ghost family: set<Json>, ghost hops: nat) returns (ok: bool)
    requires Supported(c, family) && s in family && ChainEnds(c, Code, s, hops)
    ensures ok <==> Conforms(c, Code, j, s)
    decreases j, hops + 1
  {
    if IsRef(s.fields) {
      ConformsRef(c, Code, j, s);
      var target := ResolveLocalRef(c.root, s.fields["$ref"].text);
      if target.Err? { return false; }
      ok := ValidateWithin(c, j, target.value, family, hops - 1);
      return;
    }
    ConformsPlain(c, Code, j, s);
    var plain := CheckPlain(c, j, s.fields);
    if !plain { return false; }
    if j.Obj? {
      var fieldsOk := ValidateFields(c, j, s, family);
      if !fieldsOk { return false; }
    }
    if j.Arr? && "items" in s.fields {
      var itemsOk := ValidateItems(c, j, s, family);
      if !itemsOk { return false; }
    }
    return true;
  }

  method ValidateFields(c: Context, j: Json, s: Json, ghost family: set<Json>) returns (ok: bool)
    requires Supported(c, family) && s in family && j.Obj?
    ensures ok <==> forall k | k in j.fields && k in Properties(s.fields) ::
              Conforms(c, Code, j.fields[k], Properties(s.fields)[k])
    decreases j, 0
  {
    AcyclicIff(c, Code, family);
    var rest := j.fields.Keys;
    var properties := Properties(s.fields);
    while rest != {}
      invariant rest <= j.fields.Keys
      invariant forall k | k in j.fields && k in properties && k !in rest ::
                  Conforms(c, Code, j.fields[k], properties[k])
      decreases rest
    {
      var key :| key in rest;
      if key in properties {
        var good := ValidateWithin(c, j.fields[key], properties[key], family, |family|);
        if !good { return false; }
      }
      rest := rest - {key};
    }
    return true;
  }

  method ValidateItems(c: Context, j: Json, s: Json, ghost family: set<Json>) returns (ok: bool)
    requires Supported(c, family) && s in family && j.Arr? && "items" in s.fields
    ensures ok <==> forall i | 0 <= i < |j.items| :: Conforms(c, Code, j.items[i], s.fields["items"])
    decreases j, 0
  {
    AcyclicIff(c, Code, family);
    for i := 0 to |j.items|
      invariant forall k | 0 <= k < i :: Conforms(c, Code, j.items[k], s.fields["items"])
    {
      var good := ValidateWithin(c, j.items[i], s.fields["items"], family, |family|);
      if !good { return false; }
    }
    return true;
  }

  /** The checks of one call, in the order the source makes them, without recursion. */
  method CheckPlain(c: Context, j: Json, s: Schema) returns (ok: bool)
    requires WellTyped(s)
    ensures ok <==> MeetsPlain(c, Code, j, s)
  {
    ok := CheckAny(j, s);
    if !ok { return; }
    if j.Obj? {
      if "required" in s && exists k | k in s["required"].items :: k.text !in j.fields { return false; }
      if "additionalProperties" in s && s["additionalProperties"] == Bool(false)
         && !(j.fields.Keys <= Properties(s).Keys) { return false; }
    }
    if j.Arr? {
      ok := CheckArray(j.items, s);
      if !ok { return; }
    }
    if j.Str? {
      ok := CheckString(c, j.text, s);
      if !ok { return; }
    }
    if IsNumber(j) {
      if "minimum" in s && AsReal(j) < NumericValue(s["minimum"]) { return false; }
      if "maximum" in s && AsReal(j) > NumericValue(s["maximum"]) { return false; }
    }
    return true;
  }

  method CheckAny(j: Json, s: Schema) returns (ok: bool)
    requires WellTyped(s)
    ensures ok <==> MeetsAny(Code, j, s)
  {
    if "const" in s {
      var same := CheckEqual(j, s["const"]);
      if !same { return false; }
    }
    if "enum" in s {
      var found := CheckMember(j, s["enum"].items);
      if !found { return false; }
    }
    return !("type" in s && !TypeAdmits(Code, j, s["type"]));
  }

  method CheckArray(items: seq<Json>, s: Schema) returns (ok: bool)
    requires WellTyped(s)
    ensures ok <==> MeetsArray(Code, items, s)
  {
    if "minItems" in s && |items| as real < NumericValue(s["minItems"]) { return false; }
    if "maxItems" in s && |items| as real > NumericValue(s["maxItems"]) { return false; }
    if "uniqueItems" in s && Truthy(s["uniqueItems"]) {
      ok := CheckDistinct(items);
    } else {
      ok := true;
    }
  }

  method CheckString(c: Context, text: string, s: Schema) returns (ok: bool)
    requires WellTyped(s)
    ensures ok <==> MeetsString(c, Code, text, s)
  {
    if "minLength" in s && |text| as real < NumericValue(s["minLength"]) { return false; }
    if "maxLength" in s && |text| as real > NumericValue(s["maxLength"]) { return false; }
    return !("pattern" in s && !c.search(s["pattern"].text, text));
  }

  /** Two items count as duplicates when their sorted encodings agree, which is structural
      equality: 1 and 1.0 are different items. */
  method CheckDistinct(items: seq<Json>) returns (ok: bool)
    ensures ok <==> AllDistinct(Code, items)
  {
    var encoded: set<Json> := {};
    for i := 0 to |items|
      invariant forall x :: x in encoded <==> x in items[..i]
      invariant forall a, b | 0 <= a < b < i :: items[a] != items[b]
    {
      assert items[..i + 1] == items[..i] + [items[i]];
      if items[i] in encoded {
        var a :| 0 <= a < i && items[a] == items[i];
        return false;
      }
      encoded := encoded + {items[i]};
    }
    return true;
  }

  method CheckMember(j: Json, items: seq<Json>) returns (found: bool)
    ensures found <==> exists e | e in items :: PyEqual(j, e)
  {
    for i := 0 to |items|
      invariant forall k | 0 <= k < i :: !PyEqual(j, items[k])
    {
      var same := CheckEqual(j, items[i]);
      if same { return true; }
    }
    return false;
  }

  method CheckEqual(a: Json, b: Json) returns (same: bool)
    ensures same <==> PyEqual(a, b)
    decreases a
  {
    if Numeric(a) && Numeric(b) { return NumericValue(a) == NumericValue(b); }
    if a.Arr? && b.Arr? {
      if |a.items| != |b.items| { return false; }
      for i := 0 to |a.items|
        invariant forall k | 0 <= k < i :: PyEqual(a.items[k], b.items[k])
      {
        var good := CheckEqual(a.items[i], b.items[i]);
        if !good { return false; }
      }
      return true;
    }
    if a.Obj? && b.Obj? {
      if a.fields.Keys != b.fields.Keys { return false; }
      var rest := a.fields.Keys;
      while rest != {}
        invariant rest <= a.fields.Keys
        invariant forall k | k in a.fields && k !in rest :: PyEqual(a.fields[k], b.fields[k])
        decreases rest
      {
        var key :| key in rest;
        var good := CheckEqual(a.fields[key], b.fields[key]);
        if !good { return false; }
        rest := rest - {key};
      }
      return true;
    }
    return a == b;
  }
}
