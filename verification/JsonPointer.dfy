/** JSON values, JSON Pointers as sections 3 and 4 of RFC 6901 define them, and the resolution of
    local references into a schema document. */
module JsonPointer {
  import opened Wrappers

  datatype Json =
    | Null
    | Bool(truth: bool)
    | Int(number: int)
    | Float(value: real)
    | Str(text: string)
    | Arr(items: seq<Json>)
    | Obj(fields: map<string, Json>)

  // ----- Text operations of the source

  /** text.replace(pattern, [c]) for a two-character pattern: left to right, not overlapping. */
  function Replace(text: string, a: char, b: char, c: char): (r: string)
    decreases |text|
  {
    if text == [] then []
    else if |text| >= 2 && text[0] == a && text[1] == b then [c] + Replace(text[2..], a, b, c)
    else [text[0]] + Replace(text[1..], a, b, c)
  }

  /** text.split("/") */
  function Split(text: string): (parts: seq<string>)
    ensures parts != []
  {
    if text == [] then [[]]
    else
      var rest := Split(text[1..]);
      if text[0] == '/' then [[]] + rest else [[text[0]] + rest[0]] + rest[1..]
  }

  function Unescape(part: string): (token: string) {
    Replace(Replace(part, '~', '1', '/'), '~', '0', '~')
  }

  function UnescapeAll(parts: seq<string>): (tokens: seq<string>)
    ensures |tokens| == |parts|
  {
    if parts == [] then [] else [Unescape(parts[0])] + UnescapeAll(parts[1..])
  }

  // ----- Writing pointers

  function Escape(token: string): (part: string) {
    if token == [] then []
    else (if token[0] == '~' then "~0" else if token[0] == '/' then "~1" else [token[0]]) + Escape(token[1..])
  }

  function EscapeAll(tokens: seq<string>): (parts: seq<string>)
    ensures |parts| == |tokens|
  {
    if tokens == [] then [] else [Escape(tokens[0])] + EscapeAll(tokens[1..])
  }

  function Join(parts: seq<string>): (text: string)
    requires parts != []
  {
    if |parts| == 1 then parts[0] else parts[0] + "/" + Join(parts[1..])
  }

  // ----- Round trips

  /** A token with its slashes restored but its tildes still escaped. */
  function HalfEscape(token: string): (part: string) {
    if token == [] then []
    else (if token[0] == '~' then "~0" else [token[0]]) + HalfEscape(token[1..])
  }

  lemma ReplaceCons(x: char, text: string, a: char, b: char, c: char)
    requires x != a
    ensures Replace([x] + text, a, b, c) == [x] + Replace(text, a, b, c)
  {
    assert ([x] + text)[1..] == text;
  }

  lemma ReplaceHit(text: string, a: char, b: char, c: char)
    ensures Replace([a, b] + text, a, b, c) == [c] + Replace(text, a, b, c)
  {
    assert ([a, b] + text)[2..] == text;
  }

  lemma ReplaceMiss(text: string)
    ensures Replace(['~', '0'] + text, '~', '1', '/') == ['~', '0'] + Replace(text, '~', '1', '/')
  {
    assert (['~', '0'] + text)[1..] == ['0'] + text;
    ReplaceCons('0', text, '~', '1', '/');
  }

  lemma {:induction false} RestoreSlashes(token: string)
    ensures Replace(Escape(token), '~', '1', '/') == HalfEscape(token)
  {
    if token == [] {
    } else {
      var rest := Escape(token[1..]);
      RestoreSlashes(token[1..]);
      if token[0] == '~' {
        assert Escape(token) == ['~', '0'] + rest;
        ReplaceMiss(rest);
      } else if token[0] == '/' {
        assert Escape(token) == ['~', '1'] + rest;
        ReplaceHit(rest, '~', '1', '/');
      } else {
        ReplaceCons(token[0], rest, '~', '1', '/');
      }
    }
  }

  lemma {:induction false} RestoreTildes(token: string)
    ensures Replace(HalfEscape(token), '~', '0', '~') == token
  {
    if token == [] {
    } else {
      var rest := HalfEscape(token[1..]);
      RestoreTildes(token[1..]);
      if token[0] == '~' {
        assert HalfEscape(token) == ['~', '0'] + rest;
        ReplaceHit(rest, '~', '0', '~');
      } else {
        ReplaceCons(token[0], rest, '~', '0', '~');
      }
    }
  }

  /** Restoring slashes before tildes undoes the escaping of every token. */
  lemma UnescapeEscape(token: string)
    ensures Unescape(Escape(token)) == token
  {
    RestoreSlashes(token);
    RestoreTildes(token);
  }

  /** The other order does not: it reads the escaped form of "~1" as a slash. */
  lemma OrderMatters()
    ensures Escape("~1") == "~01"
    ensures Replace(Replace("~01", '~', '0', '~'), '~', '1', '/') == "/"
  {
    assert "~1"[1..] == "1";
    assert Escape("1") == "1";
    assert Replace("1", '~', '0', '~') == "1";
    assert "~01"[2..] == "1";
    assert Replace("~01", '~', '0', '~') == "~1";
    assert "~1"[2..] == "";
  }

  lemma {:induction false} EscapeHasNoSlash(token: string)
    ensures '/' !in Escape(token)
  {
    if token == [] {
    } else {
      EscapeHasNoSlash(token[1..]);
    }
  }

  lemma {:induction false} SplitPlain(part: string)
    requires '/' !in part
    ensures Split(part) == [part]
  {
    if part == [] {
    } else {
      SplitPlain(part[1..]);
      assert [part[0]] + part[1..] == part;
    }
  }

  lemma {:induction false} SplitAt(part: string, text: string)
    requires '/' !in part
    ensures Split(part + "/" + text) == [part] + Split(text)
  {
    if part == [] {
      assert [] + "/" + text == "/" + text;
      assert ("/" + text)[1..] == text;
    } else {
      SplitAt(part[1..], text);
      assert (part + "/" + text)[1..] == part[1..] + "/" + text;
      assert [part[0]] + part[1..] == part;
    }
  }

  lemma {:induction false} SplitJoin(parts: seq<string>)
    requires parts != [] && forall i | 0 <= i < |parts| :: '/' !in parts[i]
    ensures Split(Join(parts)) == parts
  {
    if |parts| == 1 {
      SplitPlain(parts[0]);
    } else {
      SplitJoin(parts[1..]);
      SplitAt(parts[0], Join(parts[1..]));
    }
  }

  lemma {:induction false} EscapedParts(tokens: seq<string>)
    ensures forall i | 0 <= i < |tokens| :: '/' !in EscapeAll(tokens)[i]
    ensures UnescapeAll(EscapeAll(tokens)) == tokens
  {
    if tokens == [] {
    } else {
      EscapedParts(tokens[1..]);
      EscapeHasNoSlash(tokens[0]);
      UnescapeEscape(tokens[0]);
    }
  }

  /** Escaping and joining any non-empty list of tokens, then splitting and unescaping as the
      reference resolver does, gives back the tokens. */
  lemma PointerRoundTrip(tokens: seq<string>)
    requires tokens != []
    ensures UnescapeAll(Split(Join(EscapeAll(tokens)))) == tokens
  {
    EscapedParts(tokens);
    SplitJoin(EscapeAll(tokens));
  }

  /** The reference tokens of section 3: every tilde starts ~0 or ~1, and no slash occurs. */
  predicate WellEscaped(part: string)
    decreases |part|
  {
    part == [] ||
    (if part[0] == '~' then |part| >= 2 && (part[1] == '0' || part[1] == '1') && WellEscaped(part[2..])
     else part[0] != '/' && WellEscaped(part[1..]))
  }

  lemma {:induction false} EscapeWellEscaped(token: string)
    ensures WellEscaped(Escape(token))
  {
    if token == [] {
    } else {
      EscapeWellEscaped(token[1..]);
      var rest := Escape(token[1..]);
      if token[0] == '~' {
        assert Escape(token)[2..] == rest;
      } else if token[0] == '/' {
        assert Escape(token)[2..] == rest;
      } else {
        assert Escape(token)[1..] == rest;
      }
    }
  }

  lemma {:induction false} WellEscapedIsEscape(part: string) returns (token: string)
    requires WellEscaped(part)
    ensures Escape(token) == part
    decreases |part|
  {
    if part == [] {
      token := [];
    } else if part[0] == '~' {
      var rest := WellEscapedIsEscape(part[2..]);
      token := [if part[1] == '0' then '~' else '/'] + rest;
      assert token[1..] == rest;
      assert part == [part[0], part[1]] + part[2..];
    } else {
      var rest := WellEscapedIsEscape(part[1..]);
      token := [part[0]] + rest;
      assert token[1..] == rest;
    }
  }

  /** Escaping undoes unescaping exactly on the reference tokens of section 3. */
  lemma EscapeUnescapeIff(part: string)
    ensures Escape(Unescape(part)) == part <==> WellEscaped(part)
  {
    if Escape(Unescape(part)) == part { EscapeWellEscaped(Unescape(part)); }
    if WellEscaped(part) {
      var token := WellEscapedIsEscape(part);
      UnescapeEscape(token);
    }
  }

  // ----- resolve_local_ref

  datatype RefError = NonLocal | Unresolvable | NotASchema

  /** Walking down objects by a list of keys. */
  function Lookup(node: Json, path: seq<string>): (r: Option<Json>) {
    if path == [] then Some(node)
    else if node.Obj? && path[0] in node.fields then Lookup(node.fields[path[0]], path[1..])
    else None
  }

  /** The array index a token stands for in section 4: digits without a leading zero. */
  function Index(token: string): (i: Option<nat>) {
    if token == [] || (|token| > 1 && token[0] == '0') || !Digits(token) then None
    else Some(Number(token))
  }

  predicate Digits(token: string) {
    forall i | 0 <= i < |token| :: '0' <= token[i] <= '9'
  }

  function Number(digits: string): (n: nat)
    requires Digits(digits)
  {
    if digits == [] then 0
    else 10 * Number(digits[..|digits| - 1]) + (digits[|digits| - 1] as int - '0' as int)
  }

  /** The decimal numeral of a number. */
  function Numeral(n: nat): (digits: string)
    ensures digits != []
  {
    var last := [('0' as int + n % 10) as char];
    if n < 10 then last else Numeral(n / 10) + last
  }

  lemma {:induction false} NumeralReads(n: nat)
    ensures var t := Numeral(n);
            Digits(t) && Number(t) == n && (t[0] == '0' ==> n == 0 && |t| == 1)
  {
    var t := Numeral(n);
    if n < 10 {
      assert t[..0] == [];
    } else {
      NumeralReads(n / 10);
      assert t[..|t| - 1] == Numeral(n / 10);
    }
  }

  lemma {:induction false} NumeralOf(token: string)
    requires token != [] && Digits(token) && (token[0] == '0' ==> |token| == 1)
    ensures token == Numeral(Number(token))
  {
    var n := |token| - 1;
    var front, d := token[..n], token[n] as int - '0' as int;
    assert token == front + [token[n]];
    if front == [] {
    } else {
      NumeralOf(front);
      NumeralReads(Number(front));
      NumeralAppend(Number(front), d);
    }
  }

  lemma NumeralAppend(m: nat, d: nat)
    requires m > 0 && d < 10
    ensures Numeral(10 * m + d) == Numeral(m) + [('0' as int + d) as char]
  {
    assert (10 * m + d) / 10 == m && (10 * m + d) % 10 == d;
  }

  /** A token is the index n exactly when it is the decimal numeral of n. */
  lemma IndexIff(token: string, n: nat)
    ensures Index(token) == Some(n) <==> token == Numeral(n)
  {
    NumeralReads(n);
    if Index(token) == Some(n) { NumeralOf(token); }
  }

  /** Evaluation of a pointer as section 4 defines it, through arrays as well as objects. */
  function Evaluate(node: Json, tokens: seq<string>): (r: Option<Json>)
    decreases |tokens|
  {
    if tokens == [] then Some(node)
    else if node.Obj? && tokens[0] in node.fields then Evaluate(node.fields[tokens[0]], tokens[1..])
    else if node.Arr? && Index(tokens[0]).Some? && Index(tokens[0]).value < |node.items| then
      Evaluate(node.items[Index(tokens[0]).value], tokens[1..])
    else None
  }

  /** Walking down objects is evaluating the pointer. */
  lemma {:induction false} LookupEvaluates(node: Json, path: seq<string>)
    ensures Lookup(node, path).Some? ==> Evaluate(node, path) == Lookup(node, path)
    decreases |path|
  {
    if path == [] || !node.Obj? || path[0] !in node.fields {
    } else {
      LookupEvaluates(node.fields[path[0]], path[1..]);
    }
  }

  predicate IsLocal(reference: string) {
    |reference| >= 2 && reference[0] == '#' && reference[1] == '/'
  }

  function Resolve(root: Json, reference: string): (r: Result<Json, RefError>) {
    if !IsLocal(reference) then Err(NonLocal)
    else
      match Lookup(root, UnescapeAll(Split(reference[2..])))
      case None => Err(Unresolvable)
      case Some(node) => if node.Obj? then Ok(node) else Err(NotASchema)
  }

  method ResolveLocalRef(root: Json, reference: string) returns (r: Result<Json, RefError>)
    ensures r == Resolve(root, reference)
  {
    if !IsLocal(reference) { return Err(NonLocal); }
    var parts := Split(reference[2..]);
    var node := root;
    ghost var tokens := UnescapeAll(parts);
    for i := 0 to |parts|
      invariant Lookup(root, tokens) == Lookup(node, tokens[i..])
    {
      var part := Unescape(parts[i]);
      UnescapeAt(parts, i);
      assert tokens[i..][1..] == tokens[i + 1..];
      if !node.Obj? || part !in node.fields { return Err(Unresolvable); }
      node := node.fields[part];
    }
    if !node.Obj? { return Err(NotASchema); }
    return Ok(node);
  }

  lemma {:induction false} UnescapeAt(parts: seq<string>, i: nat)
    requires i < |parts|
    ensures UnescapeAll(parts)[i] == Unescape(parts[i])
  {
    if i == 0 {
    } else {
      UnescapeAt(parts[1..], i - 1);
    }
  }

  /** Every object below the root is reached by the pointer written from its path. */
  lemma EveryPathHasPointer(root: Json, path: seq<string>)
    requires path != [] && Lookup(root, path).Some? && Lookup(root, path).value.Obj?
    ensures Resolve(root, "#/" + Join(EscapeAll(path))) == Ok(Lookup(root, path).value)
  {
    PointerRoundTrip(path);
    assert ("#/" + Join(EscapeAll(path)))[2..] == Join(EscapeAll(path));
  }
}
