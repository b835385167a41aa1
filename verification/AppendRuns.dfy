/** Whole runs of the line log: appends, and appends torn by a crash after which the program starts
    again and repairs the file. */
module AppendRuns {
  import opened Wrappers
  import opened Bytes
  import opened AppendLog

  /** A complete append, or the first k bytes of one followed by a restart. */
  datatype Event<+R> = Append(row: R) | Crash(row: R, k: nat)

  ghost predicate Fits<R>(c: Codec<R>, e: Event<R>) {
    e.Crash? ==> e.k <= |Line(c, e.row)|
  }

  /** The file after an event; None once a restart has raised. */
  ghost function Step<R>(c: Codec<R>, file: Option<seq<byte>>, e: Event<R>): (r: Option<seq<byte>>)
    requires Fits(c, e)
  {
    if file.None? then None
    else
      match e
      case Append(row) => Some(file.value + Line(c, row))
      case Crash(row, k) =>
        var torn := file.value + Torn(c, row, k);
        match Reopened(c.parse, torn)
        case Err(_) => None
        case Ok((_, n)) => if n <= |torn| then Some(torn[..n]) else None
  }

  ghost function File<R>(c: Codec<R>, es: seq<Event<R>>): (r: Option<seq<byte>>)
    requires forall i | 0 <= i < |es| :: Fits(c, es[i])
  {
    if es == [] then Some([]) else Step(c, File(c, es[..|es| - 1]), es[|es| - 1])
  }

  ghost predicate Complete<R>(c: Codec<R>, e: Event<R>) {
    e.Append? || e.k >= |c.encode(e.row)|
  }

  /** The rows whose object was written completely, in order. */
  ghost function CompleteRows<R>(c: Codec<R>, es: seq<Event<R>>): (rows: seq<R>) {
    if es == [] then []
    else CompleteRows(c, es[..|es| - 1]) + if Complete(c, es[|es| - 1]) then [es[|es| - 1].row] else []
  }

  predicate Writes<R>(e: Event<R>) {
    e.Append? || e.k > 0
  }

  /** The last bytes written were an object without its newline. */
  ghost predicate LineOpen<R>(c: Codec<R>, es: seq<Event<R>>) {
    es != [] &&
    var e := es[|es| - 1];
    if Writes(e) then e.Crash? && e.k == |c.encode(e.row)| else LineOpen(c, es[..|es| - 1])
  }

  /** No crash falls inside a character, and nothing is written behind an object whose newline was
      lost. */
  ghost predicate Undisturbed<R>(c: Codec<R>, es: seq<Event<R>>) {
    es == [] ||
    var front, e := es[..|es| - 1], es[|es| - 1];
    && Undisturbed(c, front)
    && (e.Crash? && 0 < e.k < |c.encode(e.row)| ==> c.decodes(c.encode(e.row)[..e.k]))
    && (LineOpen(c, front) ==> !Writes(e))
  }

  // ----- The shapes a file can have

  datatype Log<+R> =
    | Clean(rows: seq<R>)
    | Open(rows: seq<R>, last: R)
    | Spoiled(rows: seq<R>, first: R, second: R, more: seq<R>)
    | Stopped

  ghost function Shape<R>(c: Codec<R>, log: Log<R>): (b: seq<byte>)
    requires !log.Stopped?
  {
    match log
    case Clean(rows) => Written(c, rows)
    case Open(rows, r) => Written(c, rows) + c.encode(r)
    case Spoiled(rows, r, s, more) => Written(c, rows) + (c.encode(r) + Line(c, s) + Written(c, more))
  }

  ghost function Next<R>(c: Codec<R>, log: Log<R>, e: Event<R>): (r: Log<R>) {
    match e
    case Append(s) =>
      (match log
       case Clean(rows) => Clean(rows + [s])
       case Open(rows, r) => Spoiled(rows, r, s, [])
       case Spoiled(rows, r, t, more) => Spoiled(rows, r, t, more + [s])
       case Stopped => Stopped)
    case Crash(s, k) =>
      var width := |c.encode(s)|;
      var readable := k >= width || k == 0 || c.decodes(c.encode(s)[..k]);
      (match log
       case Clean(rows) =>
         if k > width then Clean(rows + [s])
         else if k == width then Open(rows, s)
         else if readable then Clean(rows) else Stopped
       case Open(rows, r) => if k == 0 then log else if readable then Clean(rows) else Stopped
       case Spoiled(rows, _, _, more) => if k == 0 && more == [] then Clean(rows) else Stopped
       case Stopped => Stopped)
  }

  // ----- Reading what follows the complete lines

  lemma ReadNothing<R>(parse: seq<byte> -> Parsed<R>)
    ensures Reopened(parse, []) == Ok(([], 0))
  {
    assert SplitLines([]) == [];
  }

  lemma ReadTwoObjects<R(!new)>(c: Codec<R>, r: R, s: R, k: nat)
    requires Sound(c) && 0 < k <= |c.encode(s)|
    ensures Reopened(c.parse, c.encode(r) + c.encode(s)[..k]) ==
            if k == |c.encode(s)| || c.decodes(c.encode(s)[..k]) then Ok(([], 0)) else Err(DecodeFailure)
  {
    var line := c.encode(r) + c.encode(s)[..k];
    OnlyLine(line);
    assert line[0] == c.encode(r)[0];
    ReadOne(c.parse, line);
  }

  lemma ReadSpoiled<R(!new)>(c: Codec<R>, r: R, s: R, rest: seq<byte>)
    requires Sound(c) && rest != []
    ensures Reopened(c.parse, c.encode(r) + Line(c, s) + rest) == Err(MalformedInside)
  {
    var both := c.encode(r) + c.encode(s);
    var data := c.encode(r) + Line(c, s) + rest;
    assert data == both + [NEWLINE] + rest;
    FirstLine(both, rest);
    var lines := SplitLines(data);
    assert data[..|both| + 1] == both + [NEWLINE] && data[|both| + 1..] == rest;
    assert lines[0] == both + [NEWLINE] && lines[1..] == SplitLines(rest) != [];
    assert !Blank(lines[0]) by { assert lines[0][0] == c.encode(r)[0]; }
  }

  /** A restart keeps the complete lines and what reading the rest keeps of it. */
  lemma Restart<R(!new)>(c: Codec<R>, rows: seq<R>, tail: seq<byte>, e: Event<R>, file: seq<byte>)
    requires Sound(c) && e.Crash? && Fits(c, e) && file + Torn(c, e.row, e.k) == Written(c, rows) + tail
    requires Reopened(c.parse, tail).Ok? ==> Reopened(c.parse, tail).value.1 <= |tail|
    ensures Step(c, Some(file), e) ==
            match Reopened(c.parse, tail)
            case Err(_) => None
            case Ok((_, n)) => Some(Written(c, rows) + tail[..n])
  {
    ReadWritten(c, rows, tail);
    var torn := file + Torn(c, e.row, e.k);
    if Reopened(c.parse, tail).Ok? {
      var n := Reopened(c.parse, tail).value.1;
      assert torn[..|Written(c, rows)| + n] == Written(c, rows) + tail[..n];
    }
  }

  lemma CrashClean<R(!new)>(c: Codec<R>, rows: seq<R>, e: Event<R>)
    requires Sound(c) && e.Crash? && Fits(c, e)
    ensures var next := Next(c, Clean(rows), e);
            Step(c, Some(Written(c, rows)), e) == if next.Stopped? then None else Some(Shape(c, next))
  {
    var torn := Torn(c, e.row, e.k);
    ReadTorn(c, e.row, e.k);
    Restart(c, rows, torn, e, Written(c, rows));
    assert |torn| == e.k && torn[..0] == [] && torn[..|torn|] == torn;
    assert Written(c, rows) + [] == Written(c, rows);
    if e.k == |c.encode(e.row)| {
      assert torn == c.encode(e.row);
    } else if e.k > |c.encode(e.row)| {
      assert torn == Line(c, e.row);
      WrittenAppend(c, rows, e.row);
    } else if e.k > 0 {
      assert torn == c.encode(e.row)[..e.k];
    }
  }

  lemma CrashOpen<R(!new)>(c: Codec<R>, rows: seq<R>, r: R, e: Event<R>)
    requires Sound(c) && e.Crash? && Fits(c, e)
    ensures var next := Next(c, Open(rows, r), e);
            Step(c, Some(Written(c, rows) + c.encode(r)), e) == if next.Stopped? then None else Some(Shape(c, next))
  {
    var file, torn := Written(c, rows) + c.encode(r), Torn(c, e.row, e.k);
    var tail := c.encode(r) + torn;
    assert file + torn == Written(c, rows) + tail;
    assert tail[..0] == [] && Written(c, rows) + [] == Written(c, rows);
    if e.k == 0 {
      assert tail == Torn(c, r, |c.encode(r)|) == c.encode(r);
      ReadTorn(c, r, |c.encode(r)|);
      assert tail[..|tail|] == tail;
    } else if e.k <= |c.encode(e.row)| {
      assert torn == c.encode(e.row)[..e.k];
      ReadTwoObjects(c, r, e.row, e.k);
    } else {
      assert torn == Line(c, e.row);
      assert tail == c.encode(r) + c.encode(e.row) + [NEWLINE];
      TwoOnOneLine(c, r, e.row);
    }
    Restart(c, rows, tail, e, file);
  }

  lemma CrashSpoiled<R(!new)>(c: Codec<R>, rows: seq<R>, r: R, s: R, more: seq<R>, e: Event<R>)
    requires Sound(c) && e.Crash? && Fits(c, e)
    ensures var log := Spoiled(rows, r, s, more);
            var next := Next(c, log, e);
            Step(c, Some(Shape(c, log)), e) == if next.Stopped? then None else Some(Shape(c, next))
  {
    var torn := Torn(c, e.row, e.k);
    var front, rest := c.encode(r) + Line(c, s), Written(c, more) + torn;
    var file := Written(c, rows) + (front + Written(c, more));
    assert file + torn == Written(c, rows) + (front + rest);
    NothingLeft(c, more, e);
    ReadTail(c, r, s, rest);
    Restart(c, rows, front + rest, e, file);
    assert (front + rest)[..0] == [] && Written(c, rows) + [] == Written(c, rows);
  }

  lemma NothingLeft<R>(c: Codec<R>, more: seq<R>, e: Event<R>)
    requires e.Crash? && Fits(c, e)
    ensures Written(c, more) + Torn(c, e.row, e.k) == [] <==> e.k == 0 && more == []
  {
    assert |Torn(c, e.row, e.k)| == e.k;
    assert more == [] <==> |Written(c, more)| == 0;
  }

  lemma ReadTail<R(!new)>(c: Codec<R>, r: R, s: R, rest: seq<byte>)
    requires Sound(c)
    ensures Reopened(c.parse, c.encode(r) + Line(c, s) + rest) == if rest == [] then Ok(([], 0)) else Err(MalformedInside)
  {
    if rest == [] {
      assert c.encode(r) + Line(c, s) + rest == c.encode(r) + c.encode(s) + [NEWLINE];
      TwoOnOneLine(c, r, s);
    } else {
      ReadSpoiled(c, r, s, rest);
    }
  }

  lemma AppendShape<R(!new)>(c: Codec<R>, log: Log<R>, s: R)
    requires !log.Stopped?
    ensures !Next(c, log, Append(s)).Stopped? && Shape(c, Next(c, log, Append(s))) == Shape(c, log) + Line(c, s)
  {
    match log
    case Clean(rows) => WrittenAppend(c, rows, s);
    case Open(rows, r) =>
      assert Written(c, []) == [];
      assert c.encode(r) + Line(c, s) + [] == c.encode(r) + Line(c, s);
    case Spoiled(rows, r, t, more) => WrittenAppend(c, more, s);
  }

  lemma StepShape<R(!new)>(c: Codec<R>, log: Log<R>, e: Event<R>)
    requires Sound(c) && Fits(c, e) && !log.Stopped?
    ensures var next := Next(c, log, e);
            Step(c, Some(Shape(c, log)), e) == if next.Stopped? then None else Some(Shape(c, next))
  {
    if e.Append? {
      AppendShape(c, log, e.row);
    } else if log.Clean? {
      CrashClean(c, log.rows, e);
    } else if log.Open? {
      CrashOpen(c, log.rows, log.last, e);
    } else {
      CrashSpoiled(c, log.rows, log.first, log.second, log.more, e);
    }
  }

  ghost function LogOf<R>(c: Codec<R>, es: seq<Event<R>>): (log: Log<R>) {
    if es == [] then Clean([]) else Next(c, LogOf(c, es[..|es| - 1]), es[|es| - 1])
  }

  /** Every reachable file has one of the shapes. */
  lemma {:induction false} FileShape<R(!new)>(c: Codec<R>, es: seq<Event<R>>)
    requires Sound(c) && forall i | 0 <= i < |es| :: Fits(c, es[i])
    ensures File(c, es) == if LogOf(c, es).Stopped? then None else Some(Shape(c, LogOf(c, es)))
  {
    if es == [] {
      assert Written(c, []) == [];
    } else {
      var front, e := es[..|es| - 1], es[|es| - 1];
      FileShape(c, front);
      if !LogOf(c, front).Stopped? { StepShape(c, LogOf(c, front), e); }
    }
  }

  // ----- What is kept

  /** The log holds exactly these rows, open at the end or not. */
  ghost predicate Holds<R>(log: Log<R>, rows: seq<R>, open: bool) {
    if open then log.Open? && rows == log.rows + [log.last] else log == Clean(rows)
  }

  /** The log has lost some of n rows. */
  ghost predicate Lacks<R>(log: Log<R>, n: nat) {
    match log
    case Clean(rows) => |rows| < n
    case Open(rows, _) => |rows| + 1 < n
    case Spoiled(rows, _, _, more) => |rows| + |more| + 2 <= n
    case Stopped => true
  }

  lemma LacksStays<R>(c: Codec<R>, log: Log<R>, n: nat, e: Event<R>)
    requires Lacks(log, n) && c.encode(e.row) != []
    ensures Lacks(Next(c, log, e), n + if Complete(c, e) then 1 else 0)
  {
  }

  lemma HoldsNext<R>(c: Codec<R>, log: Log<R>, rows: seq<R>, open: bool, e: Event<R>)
    requires Holds(log, rows, open) && c.encode(e.row) != []
    requires e.Crash? && 0 < e.k < |c.encode(e.row)| ==> c.decodes(c.encode(e.row)[..e.k])
    requires open ==> !Writes(e)
    ensures Holds(Next(c, log, e), rows + (if Complete(c, e) then [e.row] else []),
                  if Writes(e) then e.Crash? && e.k == |c.encode(e.row)| else open)
  {
    assert rows + [] == rows;
  }

  lemma HoldsBreaks<R>(c: Codec<R>, log: Log<R>, rows: seq<R>, open: bool, e: Event<R>)
    requires Holds(log, rows, open) && c.encode(e.row) != []
    requires (open && Writes(e)) ||
             (e.Crash? && 0 < e.k < |c.encode(e.row)| && !c.decodes(c.encode(e.row)[..e.k]))
    ensures Lacks(Next(c, log, e), |rows| + if Complete(c, e) then 1 else 0)
  {
  }

  lemma {:induction false} RunHolds<R(!new)>(c: Codec<R>, es: seq<Event<R>>)
    requires Sound(c)
    ensures Undisturbed(c, es) ==> Holds(LogOf(c, es), CompleteRows(c, es), LineOpen(c, es))
    ensures !Undisturbed(c, es) ==> Lacks(LogOf(c, es), |CompleteRows(c, es)|)
  {
    if es == [] {
    } else {
      var front, e := es[..|es| - 1], es[|es| - 1];
      RunHolds(c, front);
      var log, rows := LogOf(c, front), CompleteRows(c, front);
      if Undisturbed(c, es) {
        HoldsNext(c, log, rows, LineOpen(c, front), e);
      } else if Undisturbed(c, front) {
        HoldsBreaks(c, log, rows, LineOpen(c, front), e);
      } else {
        LacksStays(c, log, |rows|, e);
      }
    }
  }

  /** Reopening the file returns exactly these rows and keeps every byte. */
  ghost predicate Loads<R>(c: Codec<R>, file: Option<seq<byte>>, rows: seq<R>) {
    file.Some? && Reopened(c.parse, file.value) == Ok((rows, |file.value|))
  }

  lemma ShapeLoads<R(!new)>(c: Codec<R>, log: Log<R>, rows: seq<R>, open: bool)
    requires Sound(c) && Holds(log, rows, open)
    ensures Loads(c, Some(Shape(c, log)), rows)
  {
    if open {
      TornAppendRecovery(c, log.rows, log.last, |c.encode(log.last)|);
      assert Torn(c, log.last, |c.encode(log.last)|) == c.encode(log.last);
    } else {
      ReadWritten(c, rows, []);
      ReadNothing(c.parse);
      assert Written(c, rows) + [] == Written(c, rows) && rows + [] == rows;
    }
  }

  lemma LackingLoads<R(!new)>(c: Codec<R>, log: Log<R>, rows: seq<R>)
    requires Sound(c) && !log.Stopped? && Lacks(log, |rows|)
    ensures !Loads(c, Some(Shape(c, log)), rows)
  {
    match log
    case Clean(kept) => ShapeLoads(c, log, kept, false);
    case Open(kept, last) => ShapeLoads(c, log, kept + [last], true);
    case Spoiled(kept, r, s, more) =>
      ReadWritten(c, kept, c.encode(r) + Line(c, s) + Written(c, more));
      ReadTail(c, r, s, Written(c, more));
  }

  /** After any run of appends, crashes and restarts the file holds exactly the rows whose object was
      written completely, in order, if and only if no crash fell inside a character and nothing was
      written behind an object whose newline was lost. */
  lemma RunKeepsRowsIff<R(!new)>(c: Codec<R>, es: seq<Event<R>>)
    requires Sound(c) && forall i | 0 <= i < |es| :: Fits(c, es[i])
    ensures Loads(c, File(c, es), CompleteRows(c, es)) <==> Undisturbed(c, es)
  {
    FileShape(c, es);
    RunHolds(c, es);
    if Undisturbed(c, es) {
      ShapeLoads(c, LogOf(c, es), CompleteRows(c, es), LineOpen(c, es));
    } else if !LogOf(c, es).Stopped? {
      LackingLoads(c, LogOf(c, es), CompleteRows(c, es));
    }
  }
}
