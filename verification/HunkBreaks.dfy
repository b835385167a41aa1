/** Diffs whose lines hold separators at which str.splitlines breaks and git does not, such as form
    feeds: when the parser still reads a printed line for what it is. */
module HunkBreaks {
  import opened Wrappers
  import opened KeyedLists
  import opened HunkParser

  // ----- Splitting printed lines

  /** The parts the parser sees of one printed line. */
  function Parts(line: string): (parts: seq<string>) {
    SplitLines(line + "\n")
  }

  function PartsAll(lines: seq<string>): (parts: seq<string>) {
    if lines == [] then [] else Parts(lines[0]) + PartsAll(lines[1..])
  }

  lemma {:induction false} FrontUnbroken(line: string)
    ensures Unbroken(line[..LineWidth(line)]) && (LineWidth(line) < |line| ==> IsBreak(line[LineWidth(line)]))
  {
    if line == [] || IsBreak(line[0]) {
    } else {
      FrontUnbroken(line[1..]);
      assert line[..LineWidth(line)] == [line[0]] + line[1..][..LineWidth(line[1..])];
    }
  }

  lemma SplitPiece(front: string, c: char, rest: string)
    requires Unbroken(front) && IsBreak(c) && !(c == '\r' && rest != [] && rest[0] == '\n')
    ensures SplitLines(front + [c] + rest) == [front] + SplitLines(rest)
  {
    var text := front + [c] + rest;
    WidthOf(front, c, rest);
    assert text[..|front|] == front && text[|front| + 1..] == rest;
  }

  lemma TrimReturn(front: string)
    requires Unbroken(front)
    ensures Trim(front + ['\r']) == front
  {
    assert (front + ['\r'])[..|front|] == front;
  }

  /** The first break of the line is not the one at its end. */
  predicate Broken(line: string) {
    var n := LineWidth(line);
    n < |line| && !(line[n] == '\r' && n + 1 == |line|)
  }

  function Behind(line: string): (more: string)
    requires Broken(line)
    ensures |more| < |line|
  {
    line[LineWidth(line) + Skip(line, LineWidth(line))..]
  }

  lemma Peel(line: string, rest: string)
    requires Broken(line)
    ensures SplitLines(line + "\n" + rest) == [line[..LineWidth(line)]] + SplitLines(Behind(line) + "\n" + rest)
  {
    var n := LineWidth(line);
    var front, c, more := line[..n], line[n], Behind(line);
    var tail := more + "\n" + rest;
    FrontUnbroken(line);
    if Skip(line, n) == 2 {
      assert line == (front + ['\r']) + "\n" + more;
      assert line + "\n" + rest == (front + ['\r']) + "\n" + tail;
      TrimReturn(front);
      SplitFirst(front + ['\r'], tail);
    } else {
      assert line == front + [c] + more;
      assert line + "\n" + rest == front + [c] + tail;
      assert tail[0] == if more == [] then '\n' else line[n + 1];
      SplitPiece(front, c, tail);
    }
  }

  lemma Ending(line: string, rest: string)
    requires !Broken(line)
    ensures SplitLines(line + "\n" + rest) == [line[..LineWidth(line)]] + SplitLines(rest)
  {
    var n := LineWidth(line);
    var front := line[..n];
    FrontUnbroken(line);
    if n == |line| {
      assert front == line && line + "\n" + rest == front + ['\n'] + rest;
      SplitPiece(front, '\n', rest);
    } else {
      assert line == front + ['\r'];
      TrimReturn(front);
      SplitFirst(line, rest);
    }
  }

  lemma PartsAre(line: string)
    ensures Parts(line) == SplitLines(line + "\n" + "")
  {
    assert line + "\n" + "" == line + "\n";
  }

  /** A line feed ends a line whatever stands in front of it. */
  lemma {:induction false} SplitAppend(line: string, rest: string)
    ensures SplitLines(line + "\n" + rest) == Parts(line) + SplitLines(rest)
    decreases |line|
  {
    var first := [line[..LineWidth(line)]];
    PartsAre(line);
    if Broken(line) {
      var more := Behind(line);
      Peel(line, rest);
      Peel(line, "");
      PartsAre(more);
      SplitAppend(more, rest);
      Associative(first, Parts(more), SplitLines(rest));
    } else {
      Ending(line, rest);
      Ending(line, "");
      assert first + [] == first;
    }
  }

  lemma {:induction false} SplitJoined(lines: seq<string>)
    ensures SplitLines(JoinLines(lines)) == PartsAll(lines)
  {
    if lines == [] {
    } else {
      SplitJoined(lines[1..]);
      SplitAppend(lines[0], JoinLines(lines[1..]));
    }
  }

  lemma {:induction false} PartsConcat(a: seq<string>, b: seq<string>)
    ensures PartsAll(a + b) == PartsAll(a) + PartsAll(b)
  {
    if a == [] {
      assert a + b == b;
    } else {
      assert (a + b)[1..] == a[1..] + b;
      PartsConcat(a[1..], b);
      Associative(Parts(a[0]), PartsAll(a[1..]), PartsAll(b));
    }
  }

  // ----- What parts do to the parser

  predicate NoStart(kinds: seq<Kind>) {
    forall i | 0 <= i < |kinds| :: !kinds[i].Start?
  }

  /** For every part that takes a line number, whether the number is collected. */
  function Effects(kinds: seq<Kind>): (es: seq<bool>) {
    if kinds == [] then []
    else if kinds[0].Added? then [kinds[0].visible] + Effects(kinds[1..])
    else if kinds[0].Context? then [false] + Effects(kinds[1..])
    else Effects(kinds[1..])
  }

  function Places(es: seq<bool>, at: nat): (r: seq<nat>) {
    if es == [] then [] else (if es[0] then [at] else []) + Places(es[1..], at + 1)
  }

  /** The counter behind the parts. */
  function Ends(kinds: seq<Kind>, at: nat): (end: nat) {
    if kinds == [] then at
    else if kinds[0].Start? then Ends(kinds[1..], kinds[0].line)
    else Ends(kinds[1..], if kinds[0].Added? || kinds[0].Context? then at + 1 else at)
  }

  lemma {:induction false} CollectThrough(kinds: seq<Kind>, rest: seq<Kind>, at: nat)
    ensures Collect(kinds + rest, Some(at)) == Collect(kinds, Some(at)) + Collect(rest, Some(Ends(kinds, at)))
  {
    if kinds == [] {
      assert kinds + rest == rest;
    } else {
      var k, more := kinds[0], kinds[1..];
      assert (kinds + rest)[1..] == more + rest;
      var next := if k.Start? then k.line else if k.Added? || k.Context? then at + 1 else at;
      CollectThrough(more, rest, next);
      var here := if k.Added? && k.visible then [at] else [];
      assert Collect(kinds + rest, Some(at)) == here + Collect(more + rest, Some(next));
      assert Collect(kinds, Some(at)) == here + Collect(more, Some(next));
      Associative(here, Collect(more, Some(next)), Collect(rest, Some(Ends(kinds, at))));
    }
  }

  lemma {:induction false} CollectEffects(kinds: seq<Kind>, at: nat)
    requires NoStart(kinds)
    ensures Collect(kinds, Some(at)) == Places(Effects(kinds), at) && Ends(kinds, at) == at + |Effects(kinds)|
  {
    if kinds == [] {
    } else {
      var k, more := kinds[0], kinds[1..];
      assert forall i | 0 <= i < |more| :: more[i] == kinds[i + 1];
      if k.Added? || k.Context? {
        CollectEffects(more, at + 1);
        assert Effects(kinds)[1..] == Effects(more);
      } else {
        CollectEffects(more, at);
      }
    }
  }

  /** A hunk header among the parts makes the counter forget where it was. */
  lemma {:induction false} StartForgets(kinds: seq<Kind>, a: nat, b: nat)
    requires !NoStart(kinds)
    ensures Ends(kinds, a) == Ends(kinds, b)
  {
    var k, more := kinds[0], kinds[1..];
    if k.Start? {
    } else {
      var i :| 0 <= i < |kinds| && kinds[i].Start?;
      assert more[i - 1] == kinds[i];
      var step := if k.Added? || k.Context? then 1 else 0;
      StartForgets(more, a + step, b + step);
    }
  }

  lemma {:induction false} PlacesDecide(a: seq<bool>, b: seq<bool>, at: nat)
    requires |a| == |b| && Places(a, at) == Places(b, at)
    ensures a == b
  {
    if a == [] {
    } else {
      PlacesFrom(a[1..], at + 1);
      PlacesFrom(b[1..], at + 1);
      var x, y := Places(a[1..], at + 1), Places(b[1..], at + 1);
      FirstPlace(a[0], x, b[0], y, at);
      PlacesDecide(a[1..], b[1..], at + 1);
      assert a == [a[0]] + a[1..] && b == [b[0]] + b[1..];
    }
  }

  lemma FirstPlace(a: bool, x: seq<nat>, b: bool, y: seq<nat>, at: nat)
    requires (if a then [at] else []) + x == (if b then [at] else []) + y
    requires (forall i | 0 <= i < |x| :: x[i] > at) && (forall i | 0 <= i < |y| :: y[i] > at)
    ensures a == b && x == y
  {
    assert [] + x == x && [] + y == y;
    assert ([at] + x)[0] == at && ([at] + y)[0] == at && ([at] + x)[1..] == x && ([at] + y)[1..] == y;
  }

  lemma {:induction false} PlacesFrom(es: seq<bool>, at: nat)
    ensures forall i | 0 <= i < |Places(es, at)| :: Places(es, at)[i] >= at
  {
    if es == [] {
    } else {
      PlacesFrom(es[1..], at + 1);
    }
  }

  // ----- One line

  function OpEffect(op: Op): (es: seq<bool>) {
    match op
    case Keep(_) => [false]
    case Insert(text) => [!Blank(text)]
    case _ => []
  }

  lemma OpPlaces(op: Op, at: nat)
    ensures Places(OpEffect(op), at) == Numbers(NewLine(op), at) && |OpEffect(op)| == |NewLine(op)|
  {
    assert forall b: bool :: [b][1..] == [];
    if op.Keep? || op.Insert? { assert NewLine(op)[1..] == []; }
  }

  /** Behind the parts the parser has collected what the operation asks and stands where it should. */
  ghost predicate Reads(kinds: seq<Kind>, op: Op, at: nat, rest: seq<Kind>) {
    Collect(kinds + rest, Some(at)) == Numbers(NewLine(op), at) + Collect(rest, Some(at + |NewLine(op)|))
  }

  /** At every place of a hunk and before every continuation. */
  ghost predicate ReadRight(kinds: seq<Kind>, op: Op) {
    forall at: nat, rest :: Reads(kinds, op, at, rest)
  }

  /** No part is a hunk header, and the parts that take a number do what the line should. */
  predicate Faithful(kinds: seq<Kind>, op: Op) {
    NoStart(kinds) && Effects(kinds) == OpEffect(op)
  }

  lemma FaithfulReads(kinds: seq<Kind>, op: Op, at: nat, rest: seq<Kind>)
    requires Faithful(kinds, op)
    ensures Reads(kinds, op, at, rest)
  {
    CollectThrough(kinds, rest, at);
    CollectEffects(kinds, at);
    OpPlaces(op, at);
  }

  lemma OneMore(at: nat)
    ensures Collect([Added(true)], Some(at)) == [at]
  {
    assert [Added(true)][1..] == [];
  }

  lemma EndsRight(kinds: seq<Kind>, op: Op, at: nat)
    requires ReadRight(kinds, op)
    ensures Ends(kinds, at) == at + |NewLine(op)| && Collect(kinds, Some(at)) == Numbers(NewLine(op), at)
  {
    var rest := [Added(true)];
    assert Reads(kinds, op, at, rest);
    CollectThrough(kinds, rest, at);
    OneMore(Ends(kinds, at));
    OneMore(at + |NewLine(op)|);
    LastOf(Collect(kinds, Some(at)), Ends(kinds, at), Numbers(NewLine(op), at), at + |NewLine(op)|);
  }

  lemma LastOf(a: seq<nat>, x: nat, b: seq<nat>, y: nat)
    requires a + [x] == b + [y]
    ensures a == b && x == y
  {
    assert (a + [x])[|a|] == x && (b + [y])[|b|] == y;
    assert (a + [x])[..|a|] == a && (b + [y])[..|b|] == b;
  }

  lemma KindsFaithfulIff(kinds: seq<Kind>, op: Op)
    ensures ReadRight(kinds, op) <==> Faithful(kinds, op)
  {
    if Faithful(kinds, op) {
      forall at: nat, rest ensures Reads(kinds, op, at, rest) { FaithfulReads(kinds, op, at, rest); }
    }
    if ReadRight(kinds, op) {
      EndsRight(kinds, op, 0);
      EndsRight(kinds, op, 1);
      if !NoStart(kinds) {
        StartForgets(kinds, 0, 1);
      } else {
        CollectEffects(kinds, 0);
        OpPlaces(op, 0);
        PlacesDecide(Effects(kinds), OpEffect(op), 0);
      }
    }
  }

  /** What the parser sees of a printed line. */
  function LineParts(line: Line): (kinds: seq<Kind>) {
    Kinds(Parts(PrintLine(line)))
  }

  /** Whatever separators a line holds, the parser reads its parts right, at every place of a hunk and
      before every continuation, if and only if none of them is a hunk header and those that take a
      line number are one for a kept or inserted line, collected exactly for an inserted line that is
      not blank, and none for any other. */
  lemma FaithfulIff(op: Op)
    ensures ReadRight(LineParts(OpLine(op)), op) <==> Faithful(LineParts(OpLine(op)), op)
  {
    KindsFaithfulIff(LineParts(OpLine(op)), op);
  }

  lemma OneKind(op: Op)
    ensures Faithful([OpKind(op)], op) <==> !StartsPlusPlus(op)
  {
    var kinds := [OpKind(op)];
    assert kinds[1..] == [] && Effects(kinds[1..]) == [];
  }

  /** A line without separators but one carriage return at its end is read right if and only if it is
      no inserted line starting in ++. */
  lemma UnbrokenFaithfulIff(op: Op)
    requires Unbroken(Trim(PrintLine(OpLine(op))))
    ensures Faithful(LineParts(OpLine(op)), op) <==> !StartsPlusPlus(op)
  {
    OnePart(PrintLine(OpLine(op)));
    TrimPrints(OpLine(op));
    ClassifyOp(TrimOp(op));
    TrimKeepsKind(op);
    OneKind(op);
  }

  lemma OnePart(line: string)
    requires Unbroken(Trim(line))
    ensures Parts(line) == [Trim(line)] && Kinds(Parts(line)) == [Classify(Trim(line))]
  {
    SplitFirst(line, "");
    assert line + "\n" + "" == line + "\n";
    assert [Trim(line)][1..] == [];
  }

  lemma TwoParts(a: string, c: char, b: string)
    requires Unbroken(a) && Unbroken(b) && IsBreak(c) && c != '\r' && a == Trim(a) && b == Trim(b)
    ensures Parts(a + [c] + b) == [a, b]
  {
    assert a + [c] + b + "\n" == a + [c] + (b + "\n");
    SplitPiece(a, c, b + "\n");
    OnePart(b);
  }

  /** An inserted line that holds a form feed followed by a plus sign counts for two. */
  lemma FormFeedCountsTwice(x: string, y: string)
    requires Unbroken(x) && Unbroken(y) && !StartsPlusPlus(Insert(x)) && !StartsPlusPlus(Insert(y))
    ensures var op := Insert(x + ['\U{0C}'] + ("+" + y));
            Effects(LineParts(OpLine(op))) == [!Blank(x), !Blank(y)] && !Faithful(LineParts(OpLine(op)), op)
  {
    var op, a, b := Insert(x + ['\U{0C}'] + ("+" + y)), "+" + x, "+" + y;
    assert PrintLine(OpLine(op)) == a + ['\U{0C}'] + b;
    PlusUnbroken(x);
    PlusUnbroken(y);
    TwoParts(a, '\U{0C}', b);
    ClassifyOp(Insert(x));
    ClassifyOp(Insert(y));
    assert Kinds([a, b]) == [Classify(a), Classify(b)] by { assert [a, b][1..] == [b] && [b][1..] == []; }
    TwoKinds(Classify(a), Classify(b));
  }

  lemma PlusUnbroken(x: string)
    requires Unbroken(x)
    ensures Unbroken("+" + x) && Trim("+" + x) == "+" + x
  {
    var a := "+" + x;
    assert a[|a| - 1] == if x == [] then '+' else x[|x| - 1];
  }

  lemma TwoKinds(a: Kind, b: Kind)
    requires a.Added? && b.Added?
    ensures Effects([a, b]) == [a.visible, b.visible]
  {
    assert [b][1..] == [] && Effects([b][1..]) == [];
    assert [a, b][1..] == [b] && Effects([b]) == [b.visible];
  }

  // ----- Whole diffs

  /** The parts of all lines, for any reading f of a line. */
  function AllParts(f: Line -> seq<Kind>, lines: seq<Line>): (kinds: seq<Kind>) {
    if lines == [] then [] else f(lines[0]) + AllParts(f, lines[1..])
  }

  lemma {:induction false} PartsOfLines(lines: seq<Line>)
    ensures Kinds(PartsAll(PrintLines(lines))) == AllParts(LineParts, lines)
  {
    if lines == [] {
    } else {
      PartsOfLines(lines[1..]);
      KindsConcat(Parts(PrintLine(lines[0])), PartsAll(PrintLines(lines[1..])));
      assert PrintLines(lines)[1..] == PrintLines(lines[1..]);
    }
  }

  lemma {:induction false} AllPartsConcat(f: Line -> seq<Kind>, a: seq<Line>, b: seq<Line>)
    ensures AllParts(f, a + b) == AllParts(f, a) + AllParts(f, b)
  {
    if a == [] {
      assert a + b == b;
    } else {
      assert (a + b)[1..] == a[1..] + b;
      AllPartsConcat(f, a[1..], b);
      Associative(f(a[0]), AllParts(f, a[1..]), AllParts(f, b));
    }
  }

  /** Of a hunk header the parser sees the header, and what follows it in its line does nothing. */
  predicate Quiet(kinds: seq<Kind>, start: nat) {
    kinds != [] && kinds[0] == Start(start) && NoStart(kinds[1..]) && Effects(kinds[1..]) == []
  }

  predicate FaithfulOps(f: Line -> seq<Kind>, ops: seq<Op>) {
    ops == [] || (Faithful(f(OpLine(ops[0])), ops[0]) && FaithfulOps(f, ops[1..]))
  }

  function OpsParts(f: Line -> seq<Kind>, ops: seq<Op>): (kinds: seq<Kind>) {
    if ops == [] then [] else f(OpLine(ops[0])) + OpsParts(f, ops[1..])
  }

  lemma {:induction false} OpsPartsAre(f: Line -> seq<Kind>, ops: seq<Op>)
    ensures AllParts(f, OpLines(ops)) == OpsParts(f, ops)
  {
    if ops == [] {
    } else {
      OpsPartsAre(f, ops[1..]);
      assert OpLines(ops)[1..] == OpLines(ops[1..]);
    }
  }

  predicate FaithfulScript(f: Line -> seq<Kind>, script: seq<Segment>, pos: nat)
    requires pos >= 1
    decreases |script|
  {
    script == [] ||
    var s := script[0];
    var count := |NewLines(s.ops)|;
    && Quiet(f(HunkLine(s.oldStart, s.oldCount, Announced(s, pos), count, s.heading)), Announced(s, pos))
    && FaithfulOps(f, s.ops)
    && FaithfulScript(f, script[1..], pos + |s.hidden| + count)
  }

  lemma {:induction false} CollectFaithful(f: Line -> seq<Kind>, ops: seq<Op>, rest: seq<Kind>, at: nat)
    requires FaithfulOps(f, ops)
    ensures Collect(OpsParts(f, ops) + rest, Some(at)) ==
            Numbers(NewLines(ops), at) + Collect(rest, Some(at + |NewLines(ops)|))
  {
    if ops == [] {
      assert OpsParts(f, ops) + rest == rest;
    } else {
      var op, more := ops[0], ops[1..];
      var first, kinds, file := f(OpLine(op)), OpsParts(f, more), NewLines(more);
      assert OpsParts(f, ops) == first + kinds && NewLines(ops) == NewLine(op) + file;
      var next := at + |NewLine(op)|;
      assert next + |file| == at + |NewLines(ops)|;
      CollectFaithful(f, more, rest, next);
      CollectOne(first, op, kinds, rest, at, file, Collect(rest, Some(next + |file|)));
    }
  }

  lemma CollectOne(first: seq<Kind>, op: Op, kinds: seq<Kind>, rest: seq<Kind>, at: nat,
                   file: seq<(string, bool)>, tail: seq<nat>)
    requires Faithful(first, op)
    requires Collect(kinds + rest, Some(at + |NewLine(op)|)) == Numbers(file, at + |NewLine(op)|) + tail
    ensures Collect(first + kinds + rest, Some(at)) == Numbers(NewLine(op) + file, at) + tail
  {
    Associative(first, kinds, rest);
    FaithfulReads(first, op, at, kinds + rest);
    NumbersConcat(NewLine(op), file, at);
    Associative(Numbers(NewLine(op), at), Numbers(file, at + |NewLine(op)|), tail);
  }

  lemma QuietStart(kinds: seq<Kind>, start: nat, rest: seq<Kind>, at: Option<nat>)
    requires Quiet(kinds, start)
    ensures Collect(kinds + rest, at) == Collect(rest, Some(start))
  {
    assert (kinds + rest)[1..] == kinds[1..] + rest;
    CollectThrough(kinds[1..], rest, start);
    CollectEffects(kinds[1..], start);
  }

  lemma FaithfulHunk(f: Line -> seq<Kind>, ops: seq<Op>, header: seq<Kind>, start: nat, rest: seq<Kind>,
                     file: seq<(string, bool)>, first: nat, at: Option<nat>)
    requires Quiet(header, start) && FaithfulOps(f, ops) && (NewLines(ops) != [] ==> start == first)
    requires Collect(rest, Some(start + |NewLines(ops)|)) == Numbers(file, first + |NewLines(ops)|)
    ensures Collect(header + (OpsParts(f, ops) + rest), at) ==
            Numbers(NewLines(ops), first) + Numbers(file, first + |NewLines(ops)|)
  {
    QuietStart(header, start, OpsParts(f, ops) + rest, at);
    CollectFaithful(f, ops, rest, start);
  }

  lemma FaithfulSegment(f: Line -> seq<Kind>, s: Segment, header: seq<Kind>, start: nat, rest: seq<Kind>,
                        file: seq<(string, bool)>, pos: nat, at: Option<nat>)
    requires Quiet(header, start) && FaithfulOps(f, s.ops)
    requires NewLines(s.ops) != [] ==> start == pos + |s.hidden|
    requires Collect(rest, Some(start + |NewLines(s.ops)|)) == Numbers(file, pos + |s.hidden| + |NewLines(s.ops)|)
    ensures Collect(header + (OpsParts(f, s.ops) + rest), at) ==
            Numbers(Unchanged(s.hidden) + (NewLines(s.ops) + file), pos)
  {
    NumbersSegment(s, file, pos);
    FaithfulHunk(f, s.ops, header, start, rest, file, pos + |s.hidden|, at);
  }

  lemma ScriptParts(f: Line -> seq<Kind>, script: seq<Segment>, pos: nat)
    requires script != [] && pos >= 1
    ensures var s := script[0];
            var count := |NewLines(s.ops)|;
            AllParts(f, ScriptLines(script, pos)) ==
            f(HunkLine(s.oldStart, s.oldCount, Announced(s, pos), count, s.heading))
            + (OpsParts(f, s.ops) + AllParts(f, ScriptLines(script[1..], pos + |s.hidden| + count)))
  {
    var s := script[0];
    var rest := ScriptLines(script[1..], pos + |s.hidden| + |NewLines(s.ops)|);
    assert ScriptLines(script, pos)[1..] == OpLines(s.ops) + rest;
    AllPartsConcat(f, OpLines(s.ops), rest);
    OpsPartsAre(f, s.ops);
  }

  lemma {:induction false} FaithfulCollects(f: Line -> seq<Kind>, script: seq<Segment>, pos: nat, at: Option<nat>)
    requires pos >= 1 && FaithfulScript(f, script, pos)
    ensures Collect(AllParts(f, ScriptLines(script, pos)), at) == Numbers(NewFile(script), pos)
    decreases |script|
  {
    if script == [] {
    } else {
      var s := script[0];
      var count := |NewLines(s.ops)|;
      var next := pos + |s.hidden| + count;
      var header := HunkLine(s.oldStart, s.oldCount, Announced(s, pos), count, s.heading);
      var kinds, file := AllParts(f, ScriptLines(script[1..], next)), NewFile(script[1..]);
      FaithfulCollects(f, script[1..], next, Some(Announced(s, pos) + count));
      ScriptParts(f, script, pos);
      assert NewFile(script) == Unchanged(s.hidden) + (NewLines(s.ops) + file);
      FaithfulSegment(f, s, f(header), Announced(s, pos), kinds, file, pos, at);
    }
  }

  /** Whatever separators its lines hold, the parser returns the numbers of the inserted non-blank
      lines of a printed edit script whose lines it reads right. */
  lemma FaithfulInverts(preamble: seq<string>, script: seq<Segment>)
    requires forall i | 0 <= i < |PartsAll(preamble)| :: HunkStart(PartsAll(preamble)[i]) == None
    requires FaithfulScript(LineParts, script, 1)
    ensures Changed(JoinLines(preamble + Print(script))) == Numbers(NewFile(script), 1)
  {
    SplitJoined(preamble + Print(script));
    PartsConcat(preamble, Print(script));
    KindsConcat(PartsAll(preamble), PartsAll(Print(script)));
    PartsOfLines(ScriptLines(script, 1));
    CollectPreamble(PartsAll(preamble), AllParts(LineParts, ScriptLines(script, 1)));
    FaithfulCollects(LineParts, script, 1, None);
  }
}
