/** Reading changed line numbers out of a unified diff, against a printer of edit scripts. */
module HunkParser {
  import opened Wrappers
  import opened KeyedLists

  // ----- Text

  /** The characters at which str.splitlines() breaks. */
  predicate IsBreak(c: char) {
    || c == '\n' || c == '\r' || c == '\U{0B}' || c == '\U{0C}'
    || '\U{1C}' <= c <= '\U{1E}' || c == '\U{85}' || c == '\U{2028}' || c == '\U{2029}'
  }

  /** The characters str.strip() removes. */
  predicate IsSpace(c: char) {
    || '\U{09}' <= c <= '\U{0D}' || '\U{1C}' <= c <= '\U{20}' || c == '\U{85}' || c == '\U{A0}'
    || c == '\U{1680}' || '\U{2000}' <= c <= '\U{200A}' || c == '\U{2028}' || c == '\U{2029}'
    || c == '\U{202F}' || c == '\U{205F}' || c == '\U{3000}'
  }

  predicate Blank(text: string) {
    forall i | 0 <= i < |text| :: IsSpace(text[i])
  }

  /** How many characters precede the first break. */
  function LineWidth(text: string): (n: nat)
    ensures n <= |text|
  {
    if text == [] || IsBreak(text[0]) then 0 else 1 + LineWidth(text[1..])
  }

  /** How many characters a break takes: a carriage return and the line feed behind it are one. */
  function Skip(text: string, n: nat): (skip: nat)
    requires n < |text|
    ensures 0 < skip && n + skip <= |text|
  {
    if text[n] == '\r' && n + 1 < |text| && text[n + 1] == '\n' then 2 else 1
  }

  /** text.splitlines() */
  function SplitLines(text: string): (lines: seq<string>)
    decreases |text|
  {
    if text == [] then []
    else
      var n := LineWidth(text);
      if n == |text| then [text] else [text[..n]] + SplitLines(text[n + Skip(text, n)..])
  }

  function JoinLines(lines: seq<string>): (text: string) {
    if lines == [] then [] else lines[0] + "\n" + JoinLines(lines[1..])
  }

  predicate Unbroken(line: string) {
    forall i | 0 <= i < |line| :: !IsBreak(line[i])
  }

  lemma {:induction false} WidthOf(line: string, c: char, rest: string)
    requires Unbroken(line) && IsBreak(c)
    ensures LineWidth(line + [c] + rest) == |line|
  {
    if line == [] {
      assert [] + [c] + rest == [c] + rest;
    } else {
      WidthOf(line[1..], c, rest);
      assert (line + [c] + rest)[1..] == line[1..] + [c] + rest;
    }
  }

  /** The line without one carriage return at its end, which together with the line feed behind it is
      one break. */
  function Trim(line: string): (r: string) {
    if line != [] && line[|line| - 1] == '\r' then line[..|line| - 1] else line
  }

  function TrimAll(lines: seq<string>): (r: seq<string>)
    ensures |r| == |lines|
  {
    if lines == [] then [] else [Trim(lines[0])] + TrimAll(lines[1..])
  }

  lemma SplitFirst(line: string, rest: string)
    requires Unbroken(Trim(line))
    ensures SplitLines(line + "\n" + rest) == [Trim(line)] + SplitLines(rest)
  {
    var text, front := line + "\n" + rest, Trim(line);
    if front == line {
      WidthOf(front, '\n', rest);
      assert text == front + ['\n'] + rest && text[..|front|] == front && text[|front| + 1..] == rest;
    } else {
      WidthOf(front, '\r', ['\n'] + rest);
      assert text == front + ['\r'] + (['\n'] + rest);
      assert text[..|front|] == front && text[|front| + 2..] == rest;
    }
  }

  lemma {:induction false} SplitJoin(lines: seq<string>)
    requires forall i | 0 <= i < |lines| :: Unbroken(Trim(lines[i]))
    ensures SplitLines(JoinLines(lines)) == TrimAll(lines)
  {
    if lines == [] {
    } else {
      SplitJoin(lines[1..]);
      SplitFirst(lines[0], JoinLines(lines[1..]));
    }
  }

  // ----- Numbers

  predicate IsDigit(c: char) {
    '0' <= c <= '9'
  }

  function DigitCount(s: string): (n: nat)
    ensures n <= |s|
  {
    if s == [] || !IsDigit(s[0]) then 0 else 1 + DigitCount(s[1..])
  }

  function DigitValue(c: char): (n: nat)
    requires IsDigit(c)
  {
    c as int - '0' as int
  }

  function Number(s: string): (n: nat)
    requires forall i | 0 <= i < |s| :: IsDigit(s[i])
  {
    if s == [] then 0 else 10 * Number(s[..|s| - 1]) + DigitValue(s[|s| - 1])
  }

  function Decimal(n: nat): (s: string)
    ensures s != [] && forall i | 0 <= i < |s| :: IsDigit(s[i])
  {
    if n < 10 then [('0' as int + n) as char] else Decimal(n / 10) + [('0' as int + n % 10) as char]
  }

  lemma {:induction false} NumberDecimal(n: nat)
    ensures Number(Decimal(n)) == n
  {
    if n >= 10 {
      NumberDecimal(n / 10);
      assert Decimal(n)[..|Decimal(n)| - 1] == Decimal(n / 10);
    } else {
      assert Decimal(n)[..0] == [];
    }
  }

  lemma {:induction false} DigitsOf(digits: string, rest: string)
    requires forall i | 0 <= i < |digits| :: IsDigit(digits[i])
    requires rest == [] || !IsDigit(rest[0])
    ensures DigitCount(digits + rest) == |digits|
  {
    if digits == [] {
      assert digits + rest == rest;
    } else {
      DigitsOf(digits[1..], rest);
      assert (digits + rest)[1..] == digits[1..] + rest;
    }
  }

  lemma {:induction false} DigitPrefix(s: string)
    ensures forall i | 0 <= i < DigitCount(s) :: IsDigit(s[i])
  {
    if s == [] || !IsDigit(s[0]) {
    } else {
      DigitPrefix(s[1..]);
      forall i | 0 <= i < DigitCount(s) ensures IsDigit(s[i]) {
        if i > 0 { assert s[i] == s[1..][i - 1]; }
      }
    }
  }

  // ----- Hunk headers

  predicate StartsWith(s: string, prefix: string) {
    |prefix| <= |s| && s[..|prefix|] == prefix
  }

  /** What follows a line range: digits, optionally a comma and more digits. */
  function AfterRange(s: string): (r: Option<string>) {
    var n := DigitCount(s);
    if n == 0 then None
    else if n < |s| && s[n] == ',' then
      var m := DigitCount(s[n + 1..]);
      if m == 0 then None else Some(s[n + 1 + m..])
    else Some(s[n..])
  }

  /** The new-file line a hunk header announces, if the line is one: the pattern
      @@ -a[,b] +c[,d] @@ at the start of the line. */
  function HunkStart(line: string): (r: Option<nat>) {
    if !StartsWith(line, "@@ -") then None
    else
      match AfterRange(line[4..])
      case None => None
      case Some(rest) =>
        if !StartsWith(rest, " +") then None
        else
          match AfterRange(rest[2..])
          case None => None
          case Some(tail) =>
            if !StartsWith(tail, " @@") then None
            else
              DigitPrefix(rest[2..]);
              Some(Number(rest[2..][..DigitCount(rest[2..])]))
  }

  function Range(start: nat, count: nat): (s: string) {
    if count == 1 then Decimal(start) else Decimal(start) + "," + Decimal(count)
  }

  function Header(oldStart: nat, oldCount: nat, newStart: nat, newCount: nat, heading: string): (s: string) {
    "@@ -" + (Range(oldStart, oldCount) + (" +" + (Range(newStart, newCount) + (" @@" + heading))))
  }

  lemma RangeReads(start: nat, count: nat, rest: string)
    requires rest != [] && !IsDigit(rest[0]) && rest[0] != ','
    ensures AfterRange(Range(start, count) + rest) == Some(rest)
    ensures var s := Range(start, count) + rest;
            DigitCount(s) == |Decimal(start)| && s[..|Decimal(start)|] == Decimal(start)
  {
    if count == 1 {
      PlainRange(Decimal(start), rest);
    } else {
      CommaRange(Decimal(start), Decimal(count), rest);
    }
  }

  predicate AllDigits(s: string) {
    s != [] && forall i | 0 <= i < |s| :: IsDigit(s[i])
  }

  lemma PlainRange(a: string, rest: string)
    requires AllDigits(a) && rest != [] && !IsDigit(rest[0]) && rest[0] != ','
    ensures AfterRange(a + rest) == Some(rest)
    ensures DigitCount(a + rest) == |a| && (a + rest)[..|a|] == a
  {
    DigitsOf(a, rest);
    assert (a + rest)[|a|..] == rest;
  }

  lemma CommaSplit(a: string, b: string, rest: string)
    ensures var s := a + "," + b + rest;
            && s == a + ("," + b + rest) && s[..|a|] == a && s[|a|] == ','
            && s[|a| + 1..] == b + rest && s[|a| + 1 + |b|..] == rest
  {
  }

  lemma AfterComma(s: string, n: nat, m: nat)
    requires 0 < n < |s| && s[n] == ',' && DigitCount(s) == n && DigitCount(s[n + 1..]) == m > 0
    ensures AfterRange(s) == Some(s[n + 1 + m..])
  {
  }

  lemma CommaRange(a: string, b: string, rest: string)
    requires AllDigits(a) && AllDigits(b) && rest != [] && !IsDigit(rest[0])
    ensures AfterRange(a + "," + b + rest) == Some(rest)
    ensures DigitCount(a + "," + b + rest) == |a| && (a + "," + b + rest)[..|a|] == a
  {
    CommaSplit(a, b, rest);
    DigitsOf(a, "," + b + rest);
    DigitsOf(b, rest);
    AfterComma(a + "," + b + rest, |a|, |b|);
  }

  /** Reading a printed header gives back its new start. */
  lemma HeaderReads(oldStart: nat, oldCount: nat, newStart: nat, newCount: nat, heading: string)
    ensures HunkStart(Header(oldStart, oldCount, newStart, newCount, heading)) == Some(newStart)
  {
    var tail := " @@" + heading;
    var second := Range(newStart, newCount) + tail;
    var rest := " +" + second;
    var line := Header(oldStart, oldCount, newStart, newCount, heading);
    assert line[..4] == "@@ -" && line[4..] == Range(oldStart, oldCount) + rest;
    RangeReads(oldStart, oldCount, rest);
    assert rest[..2] == " +" && rest[2..] == second;
    RangeReads(newStart, newCount, tail);
    assert tail[..3] == " @@";
    NumberDecimal(newStart);
  }

  // ----- The parser

  /** Lines that are passed over inside a hunk as file headers. */
  predicate IsFileHeader(line: string) {
    StartsWith(line, "diff --git") || StartsWith(line, "---") || StartsWith(line, "+++")
  }

  /** What a line is to the parser: a hunk header, an added line, a context line or neither. */
  datatype Kind = Start(line: nat) | Added(visible: bool) | Context | Other

  function Classify(line: string): (k: Kind) {
    if HunkStart(line).Some? then Start(HunkStart(line).value)
    else if IsFileHeader(line) then Other
    else if StartsWith(line, "+") then Added(!Blank(line[1..]))
    else if StartsWith(line, " ") then Context
    else Other
  }

  function Kinds(lines: seq<string>): (ks: seq<Kind>)
    ensures |ks| == |lines|
  {
    if lines == [] then [] else [Classify(lines[0])] + Kinds(lines[1..])
  }

  /** The line numbers collected, `at` being the next new-file line once inside a hunk. */
  function Collect(kinds: seq<Kind>, at: Option<nat>): (r: seq<nat>) {
    if kinds == [] then []
    else if kinds[0].Start? then Collect(kinds[1..], Some(kinds[0].line))
    else if at.None? then Collect(kinds[1..], None)
    else if kinds[0].Added? then
      (if kinds[0].visible then [at.value] else []) + Collect(kinds[1..], Some(at.value + 1))
    else if kinds[0].Context? then Collect(kinds[1..], Some(at.value + 1))
    else Collect(kinds[1..], at)
  }

  function Changed(diff: string): (r: seq<nat>) {
    Collect(Kinds(SplitLines(diff)), None)
  }

  method ChangedNewLines(diff: string) returns (changed: seq<nat>)
    ensures changed == Changed(diff)
  {
    changed := [];
    var newLineno: Option<nat> := None;
    var lines := SplitLines(diff);
    for i := 0 to |lines|
      invariant changed + Collect(Kinds(lines[i..]), newLineno) == Changed(diff)
    {
      var line := lines[i];
      ghost var rest := Kinds(lines[i + 1..]);
      assert lines[i..][1..] == lines[i + 1..];
      assert Kinds(lines[i..])[1..] == rest;
      var m := HunkStart(line);
      if m.Some? {
        newLineno := m;
        continue;
      }
      if newLineno.None? || IsFileHeader(line) { continue; }
      if StartsWith(line, "+") {
        ghost var more := Collect(rest, Some(newLineno.value + 1));
        assert changed + ([newLineno.value] + more) == changed + [newLineno.value] + more && [] + more == more;
        if !Blank(line[1..]) {
          changed := changed + [newLineno.value];
        }
        newLineno := Some(newLineno.value + 1);
      } else if StartsWith(line, " ") {
        newLineno := Some(newLineno.value + 1);
      }
    }
  }

  // ----- The printer

  datatype Op = Keep(text: string) | Remove(text: string) | Insert(text: string) | NoNewline

  /** A stretch of an edit script: unchanged lines that are not printed, then a hunk. */
  datatype Segment = Segment(
    hidden: seq<string>, oldStart: nat, oldCount: nat, heading: string, ops: seq<Op>)

  /** A line of a printed diff. */
  datatype Line =
    | HunkLine(oldStart: nat, oldCount: nat, newStart: nat, newCount: nat, heading: string)
    | OpLine(op: Op)

  function PrintLine(line: Line): (text: string) {
    match line
    case HunkLine(a, b, c, d, heading) => Header(a, b, c, d, heading)
    case OpLine(Keep(text)) => " " + text
    case OpLine(Remove(text)) => "-" + text
    case OpLine(Insert(text)) => "+" + text
    case OpLine(NoNewline) => "\\ No newline at end of file"
  }

  function PrintLines(lines: seq<Line>): (texts: seq<string>)
    ensures |texts| == |lines|
  {
    if lines == [] then [] else [PrintLine(lines[0])] + PrintLines(lines[1..])
  }

  function OpLines(ops: seq<Op>): (lines: seq<Line>) {
    if ops == [] then [] else [OpLine(ops[0])] + OpLines(ops[1..])
  }

  function NewLine(op: Op): (r: seq<(string, bool)>) {
    match op
    case Keep(text) => [(text, false)]
    case Insert(text) => [(text, true)]
    case _ => []
  }

  /** The lines of the new file an edit leaves, and whether each was inserted. */
  function NewLines(ops: seq<Op>): (r: seq<(string, bool)>) {
    if ops == [] then [] else NewLine(ops[0]) + NewLines(ops[1..])
  }

  function Unchanged(lines: seq<string>): (r: seq<(string, bool)>)
    ensures |r| == |lines| && forall i | 0 <= i < |r| :: !r[i].1
  {
    seq(|lines|, i requires 0 <= i < |lines| => (lines[i], false))
  }

  function NewFile(script: seq<Segment>): (r: seq<(string, bool)>) {
    if script == [] then []
    else Unchanged(script[0].hidden) + (NewLines(script[0].ops) + NewFile(script[1..]))
  }

  /** The new-file line a hunk announces: a hunk that leaves no new line announces the line
      before it. */
  function Announced(s: Segment, pos: nat): (n: nat)
    requires pos >= 1
  {
    pos + |s.hidden| - (if NewLines(s.ops) == [] then 1 else 0)
  }

  /** The diff of a script whose first line is new-file line `pos`. */
  function ScriptLines(script: seq<Segment>, pos: nat): (lines: seq<Line>)
    requires pos >= 1
  {
    if script == [] then []
    else
      var s := script[0];
      var count := |NewLines(s.ops)|;
      [HunkLine(s.oldStart, s.oldCount, Announced(s, pos), count, s.heading)]
      + (OpLines(s.ops) + ScriptLines(script[1..], pos + |s.hidden| + count))
  }

  function Print(script: seq<Segment>): (texts: seq<string>) {
    PrintLines(ScriptLines(script, 1))
  }

  /** What the result should be: the numbers of the inserted non-blank lines of the new file. */
  function Numbers(file: seq<(string, bool)>, first: nat): (r: seq<nat>) {
    if file == [] then []
    else (if file[0].1 && !Blank(file[0].0) then [first] else []) + Numbers(file[1..], first + 1)
  }

  predicate StartsPlusPlus(op: Op) {
    op.Insert? && StartsWith(op.text, "++")
  }

  function PlusPlus(ops: seq<Op>): (n: nat) {
    if ops == [] then 0 else (if StartsPlusPlus(ops[0]) then 1 else 0) + PlusPlus(ops[1..])
  }

  function PlusPlusLines(script: seq<Segment>): (n: nat) {
    if script == [] then 0 else PlusPlus(script[0].ops) + PlusPlusLines(script[1..])
  }

  // ----- Reading printed hunks

  lemma {:induction false} NumbersConcat(a: seq<(string, bool)>, b: seq<(string, bool)>, first: nat)
    ensures Numbers(a + b, first) == Numbers(a, first) + Numbers(b, first + |a|)
  {
    if a == [] {
      assert a + b == b;
    } else {
      NumbersConcat(a[1..], b, first + 1);
      NumbersFirst(a[0], a[1..] + b, first);
      NumbersFirst(a[0], a[1..], first);
      assert a + b == [a[0]] + (a[1..] + b) && a == [a[0]] + a[1..];
      Associative(if a[0].1 && !Blank(a[0].0) then [first] else [],
                  Numbers(a[1..], first + 1), Numbers(b, first + |a|));
    }
  }

  lemma NumbersFirst(line: (string, bool), file: seq<(string, bool)>, first: nat)
    ensures Numbers([line] + file, first) ==
            (if line.1 && !Blank(line.0) then [first] else []) + Numbers(file, first + 1)
  {
    assert ([line] + file)[1..] == file;
  }

  lemma {:induction false} NumbersUnchanged(a: seq<(string, bool)>, first: nat)
    requires forall i | 0 <= i < |a| :: !a[i].1
    ensures Numbers(a, first) == []
  {
    if a == [] {
    } else {
      assert forall i | 0 <= i < |a[1..]| :: a[1..][i] == a[i + 1];
      NumbersUnchanged(a[1..], first + 1);
    }
  }

  function OpKind(op: Op): (k: Kind) {
    match op
    case Keep(_) => Context
    case Insert(text) => if StartsWith(text, "++") then Other else Added(!Blank(text))
    case _ => Other
  }

  function OpKinds(ops: seq<Op>): (ks: seq<Kind>) {
    if ops == [] then [] else [OpKind(ops[0])] + OpKinds(ops[1..])
  }

  function LineKinds(lines: seq<Line>): (ks: seq<Kind>)
    ensures |ks| == |lines|
  {
    if lines == [] then []
    else [if lines[0].OpLine? then OpKind(lines[0].op) else Start(lines[0].newStart)] + LineKinds(lines[1..])
  }

  function ScriptKinds(script: seq<Segment>, pos: nat): (ks: seq<Kind>)
    requires pos >= 1
  {
    if script == [] then []
    else
      var s := script[0];
      [Start(Announced(s, pos))]
      + (OpKinds(s.ops) + ScriptKinds(script[1..], pos + |s.hidden| + |NewLines(s.ops)|))
  }

  lemma DifferentFirst(line: string, prefix: string)
    requires line != [] && prefix != [] && line[0] != prefix[0]
    ensures !StartsWith(line, prefix)
  {
    assert |line| >= |prefix| ==> line[..|prefix|][0] == line[0];
  }

  lemma SameFirst(c: char, text: string, prefix: string)
    ensures StartsWith([c] + text, [c] + prefix) <==> StartsWith(text, prefix)
  {
    if |text| >= |prefix| {
      assert ([c] + text)[..|prefix| + 1] == [c] + text[..|prefix|];
      assert ([c] + prefix)[1..] == prefix;
      assert ([c] + text[..|prefix|])[1..] == text[..|prefix|];
    }
  }

  /** The parser classifies a printed line by what it stands for, except that an inserted line
      starting in ++ passes for a file header. */
  lemma ClassifyOp(op: Op)
    ensures Classify(PrintLine(OpLine(op))) == OpKind(op)
  {
    var line := PrintLine(OpLine(op));
    DifferentFirst(line, "@@ -");
    DifferentFirst(line, "diff --git");
    match op
    case Keep(text) =>
      DifferentFirst(line, "---");
      DifferentFirst(line, "+++");
      DifferentFirst(line, "+");
      SameFirst(' ', text, "");
      assert [' '] + "" == " ";
    case Remove(text) =>
      DifferentFirst(line, "+++");
      DifferentFirst(line, "+");
      DifferentFirst(line, " ");
    case Insert(text) =>
      DifferentFirst(line, "---");
      SameFirst('+', text, "++");
      SameFirst('+', text, "");
      assert ['+'] + "++" == "+++" && ['+'] + "" == "+";
      assert line[1..] == text;
    case NoNewline =>
      DifferentFirst(line, "---");
      DifferentFirst(line, "+++");
      DifferentFirst(line, "+");
      DifferentFirst(line, " ");
  }

  lemma {:induction false} KindsConcat(a: seq<string>, b: seq<string>)
    ensures Kinds(a + b) == Kinds(a) + Kinds(b)
  {
    if a == [] {
      assert a + b == b;
    } else {
      assert (a + b)[1..] == a[1..] + b;
      KindsConcat(a[1..], b);
    }
  }

  lemma {:induction false} ClassifyLines(lines: seq<Line>)
    ensures Kinds(PrintLines(lines)) == LineKinds(lines)
  {
    if lines == [] {
    } else {
      ClassifyLines(lines[1..]);
      var texts := PrintLines(lines);
      assert texts[1..] == PrintLines(lines[1..]);
      match lines[0]
      case OpLine(op) => ClassifyOp(op);
      case HunkLine(a, b, c, d, heading) => HeaderReads(a, b, c, d, heading);
    }
  }

  lemma {:induction false} LineKindsConcat(a: seq<Line>, b: seq<Line>)
    ensures LineKinds(a + b) == LineKinds(a) + LineKinds(b)
  {
    if a == [] {
      assert a + b == b;
    } else {
      assert (a + b)[1..] == a[1..] + b;
      LineKindsConcat(a[1..], b);
    }
  }

  lemma {:induction false} OpLinesKinds(ops: seq<Op>)
    ensures LineKinds(OpLines(ops)) == OpKinds(ops)
  {
    if ops == [] {
    } else {
      OpLinesKinds(ops[1..]);
      assert OpLines(ops)[1..] == OpLines(ops[1..]);
    }
  }

  lemma {:induction false} ScriptLinesKinds(script: seq<Segment>, pos: nat)
    requires pos >= 1
    ensures LineKinds(ScriptLines(script, pos)) == ScriptKinds(script, pos)
    decreases |script|
  {
    if script == [] {
    } else {
      var s := script[0];
      var next := pos + |s.hidden| + |NewLines(s.ops)|;
      var rest := ScriptLines(script[1..], next);
      ScriptLinesKinds(script[1..], next);
      OpLinesKinds(s.ops);
      LineKindsConcat(OpLines(s.ops), rest);
      assert ScriptLines(script, pos)[1..] == OpLines(s.ops) + rest;
    }
  }

  // ----- Collecting from printed hunks

  /** Inside a hunk without inserted lines starting in ++ the parser keeps step with the file. */
  lemma {:induction false} CollectOps(ops: seq<Op>, rest: seq<Kind>, at: nat)
    requires PlusPlus(ops) == 0
    ensures Collect(OpKinds(ops) + rest, Some(at)) ==
            Numbers(NewLines(ops), at) + Collect(rest, Some(at + |NewLines(ops)|))
  {
    if ops == [] {
      assert OpKinds(ops) + rest == rest;
    } else {
      var op, more := ops[0], ops[1..];
      var next := at + |NewLine(op)|;
      CollectOps(more, rest, next);
      assert OpKinds(ops) + rest == [OpKind(op)] + (OpKinds(more) + rest);
      CollectOp(op, OpKinds(more) + rest, at);
      NumbersConcat(NewLine(op), NewLines(more), at);
      Associative(Numbers(NewLine(op), at), Numbers(NewLines(more), next), Collect(rest, Some(at + |NewLines(ops)|)));
    }
  }

  lemma CollectOp(op: Op, rest: seq<Kind>, at: nat)
    requires !StartsPlusPlus(op)
    ensures Collect([OpKind(op)] + rest, Some(at)) ==
            Numbers(NewLine(op), at) + Collect(rest, Some(at + |NewLine(op)|))
  {
    CollectFirst(OpKind(op), rest, at);
    if op.Keep? || op.Insert? {
      assert NewLine(op)[1..] == [];
      assert Numbers([], at + 1) == [];
    }
  }

  lemma CollectFirst(kind: Kind, rest: seq<Kind>, at: nat)
    requires !kind.Start?
    ensures Collect([kind] + rest, Some(at)) ==
            (if kind.Added? && kind.visible then [at] else [])
            + Collect(rest, Some(if kind.Added? || kind.Context? then at + 1 else at))
  {
    assert ([kind] + rest)[1..] == rest;
  }

  lemma NumbersSegment(s: Segment, rest: seq<(string, bool)>, pos: nat)
    ensures Numbers(Unchanged(s.hidden) + (NewLines(s.ops) + rest), pos) ==
            Numbers(NewLines(s.ops), pos + |s.hidden|)
            + Numbers(rest, pos + |s.hidden| + |NewLines(s.ops)|)
  {
    NumbersSkip(Unchanged(s.hidden), NewLines(s.ops), rest, pos);
  }

  lemma NumbersSkip(a: seq<(string, bool)>, b: seq<(string, bool)>, c: seq<(string, bool)>, pos: nat)
    requires forall i | 0 <= i < |a| :: !a[i].1
    ensures Numbers(a + (b + c), pos) == Numbers(b, pos + |a|) + Numbers(c, pos + |a| + |b|)
  {
    NumbersUnchanged(a, pos);
    NumbersConcat(a, b + c, pos);
    NumbersConcat(b, c, pos + |a|);
  }

  lemma CollectSegment(s: Segment, rest: seq<Kind>, file: seq<(string, bool)>, pos: nat, at: Option<nat>)
    requires pos >= 1 && PlusPlus(s.ops) == 0
    requires Collect(rest, Some(Announced(s, pos) + |NewLines(s.ops)|)) ==
             Numbers(file, pos + |s.hidden| + |NewLines(s.ops)|)
    ensures Collect([Start(Announced(s, pos))] + (OpKinds(s.ops) + rest), at) ==
            Numbers(Unchanged(s.hidden) + (NewLines(s.ops) + file), pos)
  {
    var kinds := [Start(Announced(s, pos))] + (OpKinds(s.ops) + rest);
    assert kinds[1..] == OpKinds(s.ops) + rest;
    CollectOps(s.ops, rest, Announced(s, pos));
    NumbersSegment(s, file, pos);
  }

  lemma {:induction false} CollectScript(script: seq<Segment>, pos: nat, at: Option<nat>)
    requires pos >= 1 && PlusPlusLines(script) == 0
    ensures Collect(ScriptKinds(script, pos), at) == Numbers(NewFile(script), pos)
    decreases |script|
  {
    if script == [] {
    } else {
      var s := script[0];
      var count := |NewLines(s.ops)|;
      var next := pos + |s.hidden| + count;
      CollectScript(script[1..], next, Some(Announced(s, pos) + count));
      CollectSegment(s, ScriptKinds(script[1..], next), NewFile(script[1..]), pos, at);
    }
  }

  /** Lines in front of the first hunk are passed over. */
  lemma {:induction false} CollectPreamble(preamble: seq<string>, rest: seq<Kind>)
    requires forall i | 0 <= i < |preamble| :: HunkStart(preamble[i]) == None
    ensures Collect(Kinds(preamble) + rest, None) == Collect(rest, None)
  {
    if preamble == [] {
      assert Kinds(preamble) + rest == rest;
    } else {
      assert (Kinds(preamble) + rest)[1..] == Kinds(preamble[1..]) + rest;
      CollectPreamble(preamble[1..], rest);
    }
  }

  // ----- What ++ lines do

  lemma PlusPlusNotBlank(op: Op)
    requires StartsPlusPlus(op)
    ensures !Blank(op.text)
  {
    assert op.text[0] == op.text[..2][0] == '+';
  }

  lemma {:induction false} CountOps(ops: seq<Op>, rest: seq<Kind>, at: nat) returns (end: nat)
    ensures |Collect(OpKinds(ops) + rest, Some(at))| + PlusPlus(ops) ==
            |Numbers(NewLines(ops), at)| + |Collect(rest, Some(end))|
  {
    if ops == [] {
      assert OpKinds(ops) + rest == rest;
      end := at;
    } else {
      var op, more := ops[0], ops[1..];
      var kinds := OpKinds(ops) + rest;
      assert kinds[0] == OpKind(op) && kinds[1..] == OpKinds(more) + rest;
      end := CountOps(more, rest, if op.Keep? || (op.Insert? && !StartsPlusPlus(op)) then at + 1 else at);
      NumbersShift(NewLines(more), at, at + 1);
      if StartsPlusPlus(op) { PlusPlusNotBlank(op); }
      if op.Keep? || op.Insert? {
        assert NewLines(ops)[1..] == NewLines(more);
      } else {
        assert NewLines(ops) == NewLines(more);
      }
    }
  }

  lemma {:induction false} NumbersShift(file: seq<(string, bool)>, a: nat, b: nat)
    ensures |Numbers(file, a)| == |Numbers(file, b)|
  {
    if file == [] {
    } else {
      NumbersShift(file[1..], a + 1, b + 1);
    }
  }

  /** Every inserted line starting in ++ costs the result one entry. */
  lemma {:induction false} CountScript(script: seq<Segment>, pos: nat, at: Option<nat>)
    requires pos >= 1
    ensures |Collect(ScriptKinds(script, pos), at)| + PlusPlusLines(script) == |Numbers(NewFile(script), pos)|
    decreases |script|
  {
    if script == [] {
    } else {
      var s := script[0];
      var next := pos + |s.hidden| + |NewLines(s.ops)|;
      var rest := ScriptKinds(script[1..], next);
      assert ScriptKinds(script, pos)[1..] == OpKinds(s.ops) + rest;
      var end := CountOps(s.ops, rest, Announced(s, pos));
      CountScript(script[1..], next, Some(end));
      NumbersSegment(s, NewFile(script[1..]), pos);
      NumbersShift(NewLines(s.ops), pos + |s.hidden|, Announced(s, pos));
    }
  }

  // ----- Carriage returns

  function TrimOp(op: Op): (r: Op) {
    match op
    case Keep(text) => Keep(Trim(text))
    case Remove(text) => Remove(Trim(text))
    case Insert(text) => Insert(Trim(text))
    case NoNewline => op
  }

  function TrimLine(line: Line): (r: Line) {
    match line
    case HunkLine(a, b, c, d, heading) => HunkLine(a, b, c, d, Trim(heading))
    case OpLine(op) => OpLine(TrimOp(op))
  }

  function TrimLines(lines: seq<Line>): (r: seq<Line>)
    ensures |r| == |lines|
  {
    if lines == [] then [] else [TrimLine(lines[0])] + TrimLines(lines[1..])
  }

  lemma TrimBehind(front: string, text: string)
    requires front != [] && front[|front| - 1] != '\r'
    ensures Trim(front + text) == front + Trim(text)
  {
    if text == [] {
      assert front + text == front;
    } else {
      assert (front + text)[|front + text| - 1] == text[|text| - 1];
      assert (front + text)[..|front + text| - 1] == front + text[..|text| - 1];
    }
  }

  /** Trimming a printed line is printing the trimmed line. */
  lemma TrimPrints(line: Line)
    ensures Trim(PrintLine(line)) == PrintLine(TrimLine(line))
  {
    match line
    case HunkLine(a, b, c, d, heading) =>
      TrimBehind(Header(a, b, c, d, []), heading);
      HeaderHeading(a, b, c, d, heading);
      HeaderHeading(a, b, c, d, Trim(heading));
    case OpLine(op) =>
      if op.Keep? {
        TrimBehind(" ", op.text);
      } else if op.Remove? {
        TrimBehind("-", op.text);
      } else if op.Insert? {
        TrimBehind("+", op.text);
      }
  }

  lemma HeaderHeading(a: nat, b: nat, c: nat, d: nat, heading: string)
    ensures Header(a, b, c, d, heading) == Header(a, b, c, d, []) + heading
    ensures Header(a, b, c, d, []) != [] && Header(a, b, c, d, [])[|Header(a, b, c, d, [])| - 1] == '@'
  {
    var front := "@@ -" + (Range(a, b) + (" +" + Range(c, d)));
    assert Header(a, b, c, d, heading) == front + " @@" + heading;
    assert Header(a, b, c, d, []) == front + " @@";
  }

  lemma {:induction false} TrimPrintsAll(lines: seq<Line>)
    ensures TrimAll(PrintLines(lines)) == PrintLines(TrimLines(lines))
  {
    if lines == [] {
    } else {
      TrimPrints(lines[0]);
      TrimPrintsAll(lines[1..]);
      assert PrintLines(lines)[1..] == PrintLines(lines[1..]);
      assert TrimLines(lines)[1..] == TrimLines(lines[1..]);
    }
  }

  lemma TrimKeepsKind(op: Op)
    ensures OpKind(TrimOp(op)) == OpKind(op)
  {
    if op.Insert? {
      var text, short := op.text, Trim(op.text);
      if short != text {
        assert text == short + ['\r'];
        PlusReturn(short);
        BlankReturn(short);
      }
    }
  }

  lemma PlusReturn(text: string)
    ensures StartsWith(text + ['\r'], "++") <==> StartsWith(text, "++")
  {
    var long := text + ['\r'];
    if |long| >= 2 && long[..2] == "++" { assert long[1] == long[..2][1] == '+'; }
    if |text| >= 2 { assert long[..2] == text[..2]; }
  }

  lemma BlankReturn(text: string)
    ensures Blank(text + ['\r']) <==> Blank(text)
  {
    var long := text + ['\r'];
    if Blank(long) {
      forall i | 0 <= i < |text| ensures IsSpace(text[i]) { assert long[i] == text[i]; }
    }
  }

  lemma {:induction false} TrimKeepsKinds(lines: seq<Line>)
    ensures LineKinds(TrimLines(lines)) == LineKinds(lines)
  {
    if lines == [] {
    } else {
      TrimKeepsKinds(lines[1..]);
      assert TrimLines(lines)[1..] == TrimLines(lines[1..]);
      if lines[0].OpLine? { TrimKeepsKind(lines[0].op); }
    }
  }

  lemma {:induction false} TrimAllConcat(a: seq<string>, b: seq<string>)
    ensures TrimAll(a + b) == TrimAll(a) + TrimAll(b)
  {
    if a == [] {
      assert a + b == b;
    } else {
      assert (a + b)[1..] == a[1..] + b;
      TrimAllConcat(a[1..], b);
    }
  }

  lemma {:induction false} TrimAllAt(lines: seq<string>, i: nat)
    requires i < |lines|
    ensures TrimAll(lines)[i] == Trim(lines[i])
  {
    if i == 0 {
    } else {
      TrimAllAt(lines[1..], i - 1);
    }
  }

  // ----- Main results

  /** But for one carriage return at its end no line contains a line separator, and the lines in front
      of the first hunk are no hunk headers. */
  ghost predicate Printable(preamble: seq<string>, script: seq<Segment>) {
    && (forall i | 0 <= i < |preamble| :: Unbroken(Trim(preamble[i])) && HunkStart(Trim(preamble[i])) == None)
    && (forall i | 0 <= i < |Print(script)| :: Unbroken(Trim(Print(script)[i])))
  }

  /** For every printed edit script, of files with either line ending, the parser returns exactly the
      new-file numbers of the inserted non-blank lines if and only if no inserted line starts in ++. */
  lemma ParserInvertsPrinterIff(preamble: seq<string>, script: seq<Segment>)
    requires Printable(preamble, script)
    ensures Changed(JoinLines(preamble + Print(script))) == Numbers(NewFile(script), 1)
            <==> PlusPlusLines(script) == 0
  {
    ScriptKindsRead(script);
    SplitJoin(preamble + Print(script));
    TrimAllConcat(preamble, Print(script));
    KindsConcat(TrimAll(preamble), TrimAll(Print(script)));
    forall i | 0 <= i < |preamble| ensures HunkStart(TrimAll(preamble)[i]) == None { TrimAllAt(preamble, i); }
    CollectPreamble(TrimAll(preamble), ScriptKinds(script, 1));
    CountScript(script, 1, None);
    if PlusPlusLines(script) == 0 { CollectScript(script, 1, None); }
  }

  lemma ScriptKindsRead(script: seq<Segment>)
    ensures Kinds(TrimAll(Print(script))) == ScriptKinds(script, 1)
  {
    var lines := ScriptLines(script, 1);
    TrimPrintsAll(lines);
    ClassifyLines(TrimLines(lines));
    TrimKeepsKinds(lines);
    ScriptLinesKinds(script, 1);
  }

  predicate Ascending(ns: seq<nat>) {
    forall i, j | 0 <= i < j < |ns| :: ns[i] < ns[j]
  }

  lemma AscendingBehind(first: nat, ns: seq<nat>)
    requires Ascending(ns) && forall n | n in ns :: first < n
    ensures Ascending([first] + ns)
  {
    forall i, j | 0 <= i < j < |ns| + 1 ensures ([first] + ns)[i] < ([first] + ns)[j] {
      assert ns[j - 1] in ns;
    }
  }

  /** The numbers of the marked places. */
  function Places(marked: seq<bool>, first: nat): (r: seq<nat>) {
    if marked == [] then [] else (if marked[0] then [first] else []) + Places(marked[1..], first + 1)
  }

  function Counted(file: seq<(string, bool)>): (marked: seq<bool>)
    ensures |marked| == |file|
  {
    if file == [] then [] else [file[0].1 && !Blank(file[0].0)] + Counted(file[1..])
  }

  lemma {:induction false} CountedAt(file: seq<(string, bool)>, i: nat)
    requires i < |file|
    ensures Counted(file)[i] == (file[i].1 && !Blank(file[i].0))
  {
    if i == 0 {
    } else {
      CountedAt(file[1..], i - 1);
    }
  }

  lemma {:induction false} NumbersArePlaces(file: seq<(string, bool)>, first: nat)
    ensures Numbers(file, first) == Places(Counted(file), first)
  {
    if file == [] {
    } else {
      NumbersArePlaces(file[1..], first + 1);
    }
  }

  lemma {:induction false} PlaceIff(marked: seq<bool>, first: nat, n: nat)
    ensures n in Places(marked, first) <==> first <= n < first + |marked| && marked[n - first]
  {
    if marked == [] {
    } else {
      PlaceIff(marked[1..], first + 1, n);
    }
  }

  lemma {:induction false} PlacesAscend(marked: seq<bool>, first: nat)
    ensures Ascending(Places(marked, first))
  {
    if marked == [] {
    } else {
      var rest := Places(marked[1..], first + 1);
      PlacesAscend(marked[1..], first + 1);
      forall n | n in rest ensures first < n { PlaceIff(marked[1..], first + 1, n); }
      AscendingBehind(first, rest);
      assert [] + rest == rest;
    }
  }

  /** The expected numbers are increasing and are exactly the places of inserted non-blank lines. */
  lemma NumbersMeaning(file: seq<(string, bool)>, first: nat)
    ensures forall i, j | 0 <= i < j < |Numbers(file, first)| :: Numbers(file, first)[i] < Numbers(file, first)[j]
    ensures forall n: nat :: n in Numbers(file, first) <==>
              first <= n < first + |file| && file[n - first].1 && !Blank(file[n - first].0)
  {
    NumbersArePlaces(file, first);
    PlacesAscend(Counted(file), first);
    forall n: nat
      ensures n in Numbers(file, first) <==>
              first <= n < first + |file| && file[n - first].1 && !Blank(file[n - first].0)
    {
      PlaceIff(Counted(file), first, n);
      if first <= n < first + |file| { CountedAt(file, n - first); }
    }
  }
}
