/** The append-only result log: rows are appended as one JSON object per line, and reopening the
    file repairs an append that was cut short.  The JSON codec is a parameter. */
module AppendLog {
  import opened Bytes
  import opened Wrappers

  const NEWLINE: byte := 10
  const RETURN: byte := 13

  // ----- Lines

  /** The length of the first line with its terminator: newline, return, or both. */
  function LineLength(data: seq<byte>): (n: nat)
    requires data != []
    ensures 0 < n <= |data|
  {
    if data[0] == NEWLINE || |data| == 1 then 1
    else if data[0] == RETURN then (if data[1] == NEWLINE then 2 else 1)
    else 1 + LineLength(data[1..])
  }

  /** data.splitlines(keepends=True) */
  function SplitLines(data: seq<byte>): (lines: seq<seq<byte>>)
    ensures forall i | 0 <= i < |lines| :: lines[i] != []
  {
    if data == [] then [] else [data[..LineLength(data)]] + SplitLines(data[LineLength(data)..])
  }

  predicate IsSpace(b: byte) {
    9 <= b <= 13 || b == 32
  }

  predicate Blank(line: seq<byte>) {
    forall i | 0 <= i < |line| :: IsSpace(line[i])
  }

  /** A line ends at its first newline or return, a newline behind that return included. */
  predicate OneLine(line: seq<byte>) {
    forall i | 0 <= i < |line| - 1 :: GoesOn(line, i)
  }

  predicate GoesOn(line: seq<byte>, i: nat)
    requires i < |line| - 1
  {
    line[i] != 10 && (line[i] == 13 ==> i == |line| - 2 && line[i + 1] == 10)
  }

  /** A line in front of another has a terminator that the other does not go on with. */
  predicate Terminated(line: seq<byte>, next: seq<byte>)
    requires line != [] && next != []
  {
    line[|line| - 1] == 10 || (line[|line| - 1] == 13 && next[0] != 10)
  }

  function Joined(lines: seq<seq<byte>>): (data: seq<byte>) {
    if lines == [] then [] else lines[0] + Joined(lines[1..])
  }

  lemma LongerLine(x: byte, line: seq<byte>)
    requires x != 10 && x != 13 && OneLine(line)
    ensures OneLine([x] + line)
  {
    var longer := [x] + line;
    forall i | 0 <= i < |longer| - 1 ensures GoesOn(longer, i) {
      if i > 0 { assert GoesOn(line, i - 1); }
    }
  }

  lemma {:induction false} FirstLineEnds(data: seq<byte>)
    requires data != []
    ensures var n := LineLength(data);
            OneLine(data[..n]) && (n < |data| ==> Terminated(data[..n], data[n..]))
  {
    if data[0] == 10 || |data| == 1 || data[0] == 13 {
    } else {
      var rest, n := data[1..], LineLength(data);
      FirstLineEnds(rest);
      assert n == 1 + LineLength(rest);
      assert data[..n] == [data[0]] + rest[..n - 1] && data[n..] == rest[n - 1..];
      LongerLine(data[0], rest[..n - 1]);
    }
  }

  /** Splitting keeps every byte, ends every line at the first newline (10), return (13) or both, and ends no
      line but the last anywhere else. */
  lemma {:induction false} LinesMean(data: seq<byte>)
    ensures var lines := SplitLines(data);
            && Joined(lines) == data
            && (forall i | 0 <= i < |lines| :: OneLine(lines[i]))
            && (forall i | 0 <= i < |lines| - 1 :: Terminated(lines[i], lines[i + 1]))
  {
    if data == [] {
    } else {
      var n := LineLength(data);
      var rest := data[n..];
      FirstLineEnds(data);
      LinesMean(rest);
      assert data == data[..n] + rest;
      if rest != [] { assert SplitLines(rest)[0][0] == rest[0]; }
    }
  }

  /** The blank bytes of bytes.strip(). */
  lemma BlankMeans(line: seq<byte>)
    ensures Blank(line) <==> forall i | 0 <= i < |line| :: line[i] in [9, 10, 11, 12, 13, 32]
  {
  }

  // ----- Reading

  datatype Parsed<+R> = Row(row: R) | Malformed | Undecodable

  datatype LoadError = MalformedInside | DecodeFailure

  /** The rows of the lines and the number of bytes kept: everything up to a malformed last line. */
  function Read<R>(parse: seq<byte> -> Parsed<R>, lines: seq<seq<byte>>): (r: Result<(seq<R>, nat), LoadError>) {
    if lines == [] then Ok(([], 0))
    else if Blank(lines[0]) then Kept(lines[0], [], Read(parse, lines[1..]))
    else
      match parse(lines[0])
      case Row(row) => Kept(lines[0], [row], Read(parse, lines[1..]))
      case Malformed => if |lines| == 1 then Ok(([], 0)) else Err(MalformedInside)
      case Undecodable => Err(DecodeFailure)
  }

  function Kept<R>(line: seq<byte>, row: seq<R>, rest: Result<(seq<R>, nat), LoadError>): (r: Result<(seq<R>, nat), LoadError>) {
    match rest
    case Ok((rows, n)) => Ok((row + rows, |line| + n))
    case Err(e) => Err(e)
  }

  /** What reopening a file returns and the number of bytes it keeps. */
  function Reopened<R>(parse: seq<byte> -> Parsed<R>, data: seq<byte>): (r: Result<(seq<R>, nat), LoadError>) {
    Read(parse, SplitLines(data))
  }

  class LogFile {
    var data: seq<byte>

    constructor ()
      ensures data == []
    {
      data := [];
    }

    /** `repair_and_load_output`: on success the file is cut to the bytes kept; an exception
        leaves it as it was. */
    method RepairAndLoad<R>(parse: seq<byte> -> Parsed<R>) returns (r: Result<seq<R>, LoadError>)
      modifies this
      ensures match Reopened(parse, old(data))
              case Ok((rows, n)) => n <= |old(data)| && r == Ok(rows) && data == old(data)[..n]
              case Err(e) => r == Err(e) && data == old(data)
    {
      var lines := SplitLines(data);
      var rows: seq<R>, goodEnd, pos := [], 0, 0;
      ghost var head: seq<byte> := [];
      KeptWithin(parse, data);
      KeptNothing(Read(parse, lines));
      for i := 0 to |lines|
        invariant goodEnd == pos == |head|
        invariant Reopened(parse, data) == Kept(head, rows, Read(parse, lines[i..]))
        invariant data == old(data)
      {
        var raw := lines[i];
        assert lines[i..][0] == raw && lines[i..][1..] == lines[i + 1..];
        pos := pos + |raw|;
        if Blank(raw) {
          goodEnd := pos;
          KeptTwice(head, rows, raw, [], Read(parse, lines[i + 1..]));
          assert rows + [] == rows;
          head := head + raw;
          continue;
        }
        var parsed := parse(raw);
        if parsed.Row? {
          KeptTwice(head, rows, raw, [parsed.row], Read(parse, lines[i + 1..]));
          rows := rows + [parsed.row];
          goodEnd := pos;
          head := head + raw;
        } else if parsed.Malformed? {
          if i != |lines| - 1 { return Err(MalformedInside); }
          break;
        } else {
          return Err(DecodeFailure);
        }
      }
      assert rows + [] == rows;
      data := data[..goodEnd];
      return Ok(rows);
    }

    /** `append_jsonl`: the payload goes out in as many writes as the system takes; `sizes` says
        how many bytes each write accepts. */
    method Append(payload: seq<byte>, sizes: nat -> nat)
      modifies this
      ensures data == old(data) + payload
    {
      var written, call := 0, 0;
      while written < |payload|
        invariant 0 <= written <= |payload|
        invariant data == old(data) + payload[..written]
      {
        var rest := |payload| - written;
        var n := if sizes(call) == 0 then 1 else if sizes(call) > rest then rest else sizes(call);
        data := data + payload[written..written + n];
        written, call := written + n, call + 1;
      }
    }
  }

  lemma {:induction false} KeptWithin<R>(parse: seq<byte> -> Parsed<R>, data: seq<byte>)
    ensures Reopened(parse, data).Ok? ==> Reopened(parse, data).value.1 <= |data|
    decreases |data|
  {
    if data == [] {
    } else {
      KeptWithin(parse, data[LineLength(data)..]);
    }
  }

  // ----- Repairing is idempotent, for any file and any parser

  lemma {:induction false} LineLengthPrefix(data: seq<byte>, k: nat)
    requires data != [] && LineLength(data) <= k <= |data|
    ensures LineLength(data[..k]) == LineLength(data)
  {
    if data[0] == NEWLINE || |data| == 1 || data[0] == RETURN {
    } else {
      assert data[..k][1..] == data[1..][..k - 1];
      LineLengthPrefix(data[1..], k - 1);
    }
  }

  /** Reopening a repaired file returns the same rows and keeps every byte. */
  lemma {:induction false} RepairIdempotent<R>(parse: seq<byte> -> Parsed<R>, data: seq<byte>)
    requires Reopened(parse, data).Ok?
    ensures var (rows, n) := Reopened(parse, data).value;
            n <= |data| && Reopened(parse, data[..n]) == Ok((rows, n))
    decreases |data|
  {
    if data == [] {
    } else {
      var k := LineLength(data);
      var (rows, n) := Reopened(parse, data).value;
      KeptWithin(parse, data);
      if n > 0 {
        RepairIdempotent(parse, data[k..]);
        KeptFirst(parse, data);
        LineLengthPrefix(data, n);
        assert data[..n][..k] == data[..k];
        assert data[..n][k..] == data[k..][..n - k];
      } else {
        assert data[..0] == [];
        KeptFirst(parse, data);
      }
    }
  }

  /** If any byte is kept, the whole first line is. */
  lemma KeptFirst<R>(parse: seq<byte> -> Parsed<R>, data: seq<byte>)
    requires data != [] && Reopened(parse, data).Ok?
    ensures var (rows, n) := Reopened(parse, data).value;
            && (n > 0 ==> LineLength(data) <= n && Reopened(parse, data[LineLength(data)..]).Ok?)
            && (n == 0 ==> rows == [])
  {
    var lines := SplitLines(data);
    assert lines[1..] == SplitLines(data[LineLength(data)..]);
  }

  // ----- The codec

  datatype Codec<!R> = Codec(encode: R -> seq<byte>, parse: seq<byte> -> Parsed<R>, decodes: seq<byte> -> bool)

  /** What the JSON codec guarantees: an encoded row is one line of text that starts with a visible
      byte; it parses back with or without its newline; a proper beginning of it is malformed, or
      undecodable when it ends inside a character; and a row with another, or with a beginning of
      another, behind it on its line is malformed, or undecodable likewise. */
  ghost predicate Sound<R(!new)>(c: Codec<R>) {
    && (forall r :: c.encode(r) != [] && !IsSpace(c.encode(r)[0]))
    && (forall r :: NEWLINE !in c.encode(r) && RETURN !in c.encode(r))
    && (forall r :: c.parse(c.encode(r)) == Row(r) && c.parse(c.encode(r) + [NEWLINE]) == Row(r))
    && (forall r, k | 0 < k < |c.encode(r)| ::
          c.parse(c.encode(r)[..k]) == if c.decodes(c.encode(r)[..k]) then Malformed else Undecodable)
    && (forall r, s :: c.parse(c.encode(r) + c.encode(s) + [NEWLINE]) == Malformed)
    && (forall r, s, k | 0 < k <= |c.encode(s)| ::
          c.parse(c.encode(r) + c.encode(s)[..k]) ==
          if k == |c.encode(s)| || c.decodes(c.encode(s)[..k]) then Malformed else Undecodable)
  }

  function Line<R>(c: Codec<R>, r: R): (b: seq<byte>) {
    c.encode(r) + [NEWLINE]
  }

  /** The file after appending the rows. */
  function Written<R>(c: Codec<R>, rows: seq<R>): (b: seq<byte>) {
    if rows == [] then [] else Line(c, rows[0]) + Written(c, rows[1..])
  }

  lemma {:induction false} FirstLine(text: seq<byte>, rest: seq<byte>)
    requires NEWLINE !in text && RETURN !in text
    ensures LineLength(text + [NEWLINE] + rest) == |text| + 1
  {
    if text == [] {
      assert [] + [NEWLINE] + rest == [NEWLINE] + rest;
    } else {
      FirstLine(text[1..], rest);
      assert (text + [NEWLINE] + rest)[1..] == text[1..] + [NEWLINE] + rest;
    }
  }

  lemma {:induction false} OnlyLine(text: seq<byte>)
    requires text != [] && NEWLINE !in text && RETURN !in text
    ensures SplitLines(text) == [text]
  {
    OnlyLineLength(text);
    assert text[..|text|] == text;
    assert text[|text|..] == [];
    assert SplitLines([]) == [];
  }

  lemma {:induction false} OnlyLineLength(text: seq<byte>)
    requires text != [] && NEWLINE !in text && RETURN !in text
    ensures LineLength(text) == |text|
  {
    if |text| == 1 {
    } else {
      OnlyLineLength(text[1..]);
    }
  }

  /** Reading a line in front of other bytes. */
  lemma ReadLine<R(!new)>(c: Codec<R>, r: R, rest: seq<byte>)
    requires Sound(c)
    ensures Reopened(c.parse, Line(c, r) + rest) == Kept(Line(c, r), [r], Reopened(c.parse, rest))
  {
    var e := c.encode(r);
    var data := Line(c, r) + rest;
    assert data == e + [NEWLINE] + rest;
    FirstLine(e, rest);
    assert data[..|e| + 1] == Line(c, r) && data[|e| + 1..] == rest;
    var lines := SplitLines(data);
    assert lines[0] == Line(c, r) && lines[1..] == SplitLines(rest);
    assert !Blank(Line(c, r)) by { assert Line(c, r)[0] == e[0]; }
  }

  lemma {:induction false} ReadWritten<R(!new)>(c: Codec<R>, rows: seq<R>, rest: seq<byte>)
    requires Sound(c)
    ensures Reopened(c.parse, Written(c, rows) + rest) == Kept(Written(c, rows), rows, Reopened(c.parse, rest))
  {
    if rows == [] {
      assert Written(c, rows) + rest == rest;
      KeptNothing(Reopened(c.parse, rest));
    } else {
      var front := Written(c, rows[1..]);
      assert Written(c, rows) + rest == Line(c, rows[0]) + (front + rest);
      ReadWritten(c, rows[1..], rest);
      ReadLine(c, rows[0], front + rest);
      KeptTwice(Line(c, rows[0]), [rows[0]], front, rows[1..], Reopened(c.parse, rest));
      assert rows == [rows[0]] + rows[1..];
    }
  }

  lemma KeptNothing<R>(rest: Result<(seq<R>, nat), LoadError>)
    ensures Kept([], [], rest) == rest
  {
    if rest.Ok? { assert [] + rest.value.0 == rest.value.0; }
  }

  lemma KeptTwice<R>(a: seq<byte>, x: seq<R>, b: seq<byte>, y: seq<R>, rest: Result<(seq<R>, nat), LoadError>)
    ensures Kept(a, x, Kept(b, y, rest)) == Kept(a + b, x + y, rest)
  {
    if rest.Ok? { assert x + (y + rest.value.0) == x + y + rest.value.0; }
  }

  // ----- Torn appends

  /** The bytes of one append that reached the file before a crash. */
  function Torn<R>(c: Codec<R>, r: R, k: nat): (b: seq<byte>)
    requires k <= |Line(c, r)|
  {
    Line(c, r)[..k]
  }

  lemma ReadOne<R>(parse: seq<byte> -> Parsed<R>, line: seq<byte>)
    requires !Blank(line)
    ensures Read(parse, [line]) == match parse(line)
                                   case Row(row) => Ok(([row], |line|))
                                   case Malformed => Ok(([], 0))
                                   case Undecodable => Err(DecodeFailure)
  {
    assert [line][1..] == [];
    if parse(line).Row? { assert [parse(line).row] + [] == [parse(line).row]; }
  }

  lemma ReadTorn<R(!new)>(c: Codec<R>, r: R, k: nat)
    requires Sound(c) && k <= |Line(c, r)|
    ensures Reopened(c.parse, Torn(c, r, k)) ==
            if k == 0 then Ok(([], 0))
            else if k >= |c.encode(r)| then Ok(([r], k))
            else if c.decodes(Torn(c, r, k)) then Ok(([], 0))
            else Err(DecodeFailure)
  {
    var e, t := c.encode(r), Torn(c, r, k);
    assert [r] + [] == [r];
    if 0 < k <= |e| {
      assert t == e[..k];
      OnlyLine(t);
      assert t[0] == e[0];
      ReadOne(c.parse, t);
      if k == |e| { assert t == e; }
    } else if k == |e| + 1 {
      assert t == Line(c, r) + [];
      ReadLine(c, r, []);
    }
  }

  /** For every sequence of appended rows and every crash point of the last append, reopening
      returns exactly the rows whose object is complete, in order, and keeps exactly their bytes;
      only a crash inside a character of the last object makes it fail, without touching the
      file. */
  lemma TornAppendRecovery<R(!new)>(c: Codec<R>, rows: seq<R>, r: R, k: nat)
    requires Sound(c) && k <= |Line(c, r)|
    ensures Reopened(c.parse, Written(c, rows) + Torn(c, r, k)) ==
            if k >= |c.encode(r)| then Ok((rows + [r], |Written(c, rows)| + k))
            else if k == 0 || c.decodes(Torn(c, r, k)) then Ok((rows, |Written(c, rows)|))
            else Err(DecodeFailure)
  {
    ReadWritten(c, rows, Torn(c, r, k));
    ReadTorn(c, r, k);
    KeptTorn(Written(c, rows), rows, r, k, |c.encode(r)|, c.decodes(Torn(c, r, k)), Reopened(c.parse, Torn(c, r, k)));
  }

  lemma KeptTorn<R>(bytes: seq<byte>, rows: seq<R>, r: R, k: nat, width: nat, decodes: bool,
                    rest: Result<(seq<R>, nat), LoadError>)
    requires width > 0
    requires rest == if k == 0 then Ok(([], 0)) else if k >= width then Ok(([r], k))
                     else if decodes then Ok(([], 0)) else Err(DecodeFailure)
    ensures Kept(bytes, rows, rest) ==
            if k >= width then Ok((rows + [r], |bytes| + k))
            else if k == 0 || decodes then Ok((rows, |bytes|)) else Err(DecodeFailure)
  {
    assert rows + [] == rows;
  }

  lemma {:induction false} WrittenAppend<R>(c: Codec<R>, rows: seq<R>, r: R)
    ensures Written(c, rows + [r]) == Written(c, rows) + Line(c, r)
  {
    if rows == [] {
      assert [] + [r] == [r];
      assert [r][1..] == [];
    } else {
      WrittenAppend(c, rows[1..], r);
      assert (rows + [r])[1..] == rows[1..] + [r];
    }
  }

  /** Appending to a log whose last line is complete adds exactly that row. */
  lemma AppendAfterNewline<R(!new)>(c: Codec<R>, rows: seq<R>, r: R)
    requires Sound(c)
    ensures Reopened(c.parse, Written(c, rows) + Line(c, r)) ==
            Ok((rows + [r], |Written(c, rows) + Line(c, r)|))
  {
    WrittenAppend(c, rows, r);
    ReadWritten(c, rows + [r], []);
    assert Written(c, rows + [r]) + [] == Written(c, rows + [r]);
    assert rows + [r] + [] == rows + [r];
  }

  lemma TwoOnOneLine<R(!new)>(c: Codec<R>, r: R, s: R)
    requires Sound(c)
    ensures Reopened(c.parse, c.encode(r) + c.encode(s) + [NEWLINE]) == Ok(([], 0))
  {
    var both := c.encode(r) + c.encode(s);
    var line := both + [NEWLINE];
    FirstLine(both, []);
    assert both + [NEWLINE] + [] == line;
    assert line[..|line|] == line && line[|line|..] == [];
    assert SplitLines([]) == [];
    assert SplitLines(line) == [line];
    assert line[0] == c.encode(r)[0];
    ReadOne(c.parse, line);
  }

  /** Appending to a log whose last object lost only its newline destroys both rows: they share
      a line, which the next reopening drops. */
  lemma AppendWithoutNewline<R(!new)>(c: Codec<R>, rows: seq<R>, r: R, s: R)
    requires Sound(c)
    ensures Reopened(c.parse, Written(c, rows) + c.encode(r) + Line(c, s)) == Ok((rows, |Written(c, rows)|))
  {
    var line := c.encode(r) + c.encode(s) + [NEWLINE];
    assert Written(c, rows) + c.encode(r) + Line(c, s) == Written(c, rows) + line;
    ReadWritten(c, rows, line);
    TwoOnOneLine(c, r, s);
    KeptTorn(Written(c, rows), rows, r, 0, 1, true, Reopened(c.parse, line));
  }

  /** The next append to a file from which `loaded` was read adds exactly one row. */
  ghost predicate AddsOne<R(!new)>(c: Codec<R>, file: seq<byte>, loaded: seq<R>, s: R) {
    Reopened(c.parse, file + Line(c, s)) == Ok((loaded + [s], |file + Line(c, s)|))
  }

  predicate EndsLine(file: seq<byte>) {
    file == [] || file[|file| - 1] == NEWLINE
  }

  lemma WholeLines<R(!new)>(c: Codec<R>, rows: seq<R>, s: R)
    requires Sound(c)
    ensures AddsOne(c, Written(c, rows), rows, s) && EndsLine(Written(c, rows))
  {
    AppendAfterNewline(c, rows, s);
    WrittenEnds(c, rows);
  }

  lemma OpenLine<R(!new)>(c: Codec<R>, rows: seq<R>, r: R, s: R)
    requires Sound(c)
    ensures var file := Written(c, rows) + c.encode(r);
            !AddsOne(c, file, rows + [r], s) && !EndsLine(file)
  {
    var file := Written(c, rows) + c.encode(r);
    AppendWithoutNewline(c, rows, r, s);
    assert |c.encode(r)| > 0 && file[|file| - 1] == c.encode(r)[|c.encode(r)| - 1];
  }

  /** After any crash and successful repair, the next append adds exactly one row if and only if
      the repaired file is empty or ends in a newline. */
  lemma AppendAfterRepairIff<R(!new)>(c: Codec<R>, rows: seq<R>, r: R, k: nat, s: R)
    requires Sound(c) && k <= |Line(c, r)|
    requires Reopened(c.parse, Written(c, rows) + Torn(c, r, k)).Ok?
    ensures var data := Written(c, rows) + Torn(c, r, k);
            var (loaded, n) := Reopened(c.parse, data).value;
            n <= |data| && (AddsOne(c, data[..n], loaded, s) <==> EndsLine(data[..n]))
  {
    var data := Written(c, rows) + Torn(c, r, k);
    var (loaded, n) := Reopened(c.parse, data).value;
    TornAppendRecovery(c, rows, r, k);
    assert data[..|data|] == data;
    assert n == (if k >= |c.encode(r)| then |data| else |Written(c, rows)|) <= |data|;
    assert loaded == if k >= |c.encode(r)| then rows + [r] else rows;
    AfterTear(c, rows, r, k, s, data);
  }

  lemma AfterTear<R(!new)>(c: Codec<R>, rows: seq<R>, r: R, k: nat, s: R, data: seq<byte>)
    requires Sound(c) && k <= |Line(c, r)| && data == Written(c, rows) + Torn(c, r, k)
    ensures var complete := k >= |c.encode(r)|;
            var loaded, file :=
              if complete then rows + [r] else rows, if complete then data else data[..|Written(c, rows)|];
            AddsOne(c, file, loaded, s) <==> EndsLine(file)
  {
    if k < |c.encode(r)| {
      assert data[..|Written(c, rows)|] == Written(c, rows);
      WholeLines(c, rows, s);
    } else if k == |c.encode(r)| {
      assert data == Written(c, rows) + c.encode(r);
      OpenLine(c, rows, r, s);
    } else {
      WrittenAppend(c, rows, r);
      assert data == Written(c, rows + [r]);
      WholeLines(c, rows + [r], s);
    }
  }

  lemma {:induction false} WrittenEnds<R>(c: Codec<R>, rows: seq<R>)
    ensures Written(c, rows) == [] || Written(c, rows)[|Written(c, rows)| - 1] == NEWLINE
  {
    if rows == [] {
    } else {
      WrittenEnds(c, rows[1..]);
    }
  }

  /** Two rows in braces, one of them with a character of two bytes. */
  function Braced(r: bool): (b: seq<byte>) {
    if r then [123, 0xC3, 0xA9, 125] else [123, 125]
  }

  /** Text ends inside a character when its last byte starts one. */
  predicate EndsWhole(b: seq<byte>) {
    b == [] || b[|b| - 1] != 0xC3
  }

  function ParseBraced(b: seq<byte>): (p: Parsed<bool>) {
    if b == Braced(true) || b == Braced(true) + [NEWLINE] then Row(true)
    else if b == Braced(false) || b == Braced(false) + [NEWLINE] then Row(false)
    else if EndsWhole(b) then Malformed else Undecodable
  }

  function BracedCodec(): (c: Codec<bool>) {
    Codec(r => Braced(r), b => ParseBraced(b), b => EndsWhole(b))
  }

  lemma NotBraced(b: seq<byte>)
    requires |b| < 2 || (b[1] == 0xC3 && |b| < 4) || (|b| > 2 && b[1] == 125 && b[2] != NEWLINE) || (|b| > 4 && b[4] != NEWLINE)
             || |b| > 5
    ensures ParseBraced(b) == if EndsWhole(b) then Malformed else Undecodable
  {
  }

  lemma BracedTorn(r: bool, k: nat)
    requires 0 < k < |Braced(r)|
    ensures BracedCodec().parse(BracedCodec().encode(r)[..k]) ==
            if BracedCodec().decodes(BracedCodec().encode(r)[..k]) then Malformed else Undecodable
  {
    NotBraced(Braced(r)[..k]);
  }

  lemma BracedPair(r: bool, s: bool)
    ensures BracedCodec().parse(BracedCodec().encode(r) + BracedCodec().encode(s) + [NEWLINE]) == Malformed
  {
    var b := Braced(r) + Braced(s) + [NEWLINE];
    assert b[|Braced(r)|] == 123 && b[|b| - 1] == NEWLINE;
    NotBraced(b);
  }

  lemma BracedTornPair(r: bool, s: bool, k: nat)
    requires 0 < k <= |Braced(s)|
    ensures BracedCodec().parse(BracedCodec().encode(r) + BracedCodec().encode(s)[..k]) ==
            if k == |BracedCodec().encode(s)| || BracedCodec().decodes(BracedCodec().encode(s)[..k])
            then Malformed else Undecodable
  {
    var b := Braced(r) + Braced(s)[..k];
    assert b[|Braced(r)|] == 123 && b[|b| - 1] == Braced(s)[k - 1];
    NotBraced(b);
  }

  lemma BracedReads(c: Codec<bool>)
    requires c == BracedCodec()
    ensures forall r :: c.encode(r) != [] && !IsSpace(c.encode(r)[0])
    ensures forall r :: NEWLINE !in c.encode(r) && RETURN !in c.encode(r)
    ensures forall r :: c.parse(c.encode(r)) == Row(r) && c.parse(c.encode(r) + [NEWLINE]) == Row(r)
  {
  }

  lemma BracedTornReads(c: Codec<bool>)
    requires c == BracedCodec()
    ensures forall r, k | 0 < k < |c.encode(r)| ::
              c.parse(c.encode(r)[..k]) == if c.decodes(c.encode(r)[..k]) then Malformed else Undecodable
    ensures forall r, s :: c.parse(c.encode(r) + c.encode(s) + [NEWLINE]) == Malformed
    ensures forall r, s, k | 0 < k <= |c.encode(s)| ::
              c.parse(c.encode(r) + c.encode(s)[..k]) ==
              if k == |c.encode(s)| || c.decodes(c.encode(s)[..k]) then Malformed else Undecodable
  {
    forall r, k | 0 < k < |c.encode(r)|
      ensures c.parse(c.encode(r)[..k]) == if c.decodes(c.encode(r)[..k]) then Malformed else Undecodable
    {
      BracedTorn(r, k);
    }
    forall r, s ensures c.parse(c.encode(r) + c.encode(s) + [NEWLINE]) == Malformed { BracedPair(r, s); }
    forall r, s, k | 0 < k <= |c.encode(s)|
      ensures c.parse(c.encode(r) + c.encode(s)[..k]) ==
              if k == |c.encode(s)| || c.decodes(c.encode(s)[..k]) then Malformed else Undecodable
    {
      BracedTornPair(r, s, k);
    }
  }

  /** The guarantees can be met, and by a codec for which a row can be torn inside a character. */
  lemma SoundCodecExists()
    ensures Sound(BracedCodec())
    ensures BracedCodec().parse(BracedCodec().encode(true)[..2]) == Undecodable
  {
    BracedReads(BracedCodec());
    BracedTornReads(BracedCodec());
    BracedTorn(true, 2);
  }
}
