/** The driver's identity against the Microsoft PE Format specification: where the fields lie, which files
    are accepted, and which bytes the canonical form keeps, in offsets of the file. */
module PeFormat {
  import opened Bytes
  import opened Wrappers
  import opened PeCanonical

  // ----- The layout of the format

  function Width(fields: seq<nat>): (n: nat) {
    if fields == [] then 0 else Width(fields[..|fields| - 1]) + fields[|fields| - 1]
  }

  /** Signature, machine, number of sections, time stamp, symbol table pointer and count, size of the
      optional header, characteristics. */
  const COFF: seq<nat> := [4, 2, 2, 4, 4, 4, 2, 2]

  /** The optional header up to the data directories.  A 64-bit image has no base of data, and image base,
      stack and heap sizes of eight bytes. */
  function OptionalFields(plus: bool): (fields: seq<nat>) {
    Standard(plus) + Versions() + [4, 2, 2] + Reserves(plus) + [4, 4]
  }

  /** Magic, linker version, three section sizes, entry point, base of code, base of data, image base. */
  function Standard(plus: bool): (fields: seq<nat>) {
    [2, 1, 1, 4, 4, 4, 4, 4] + if plus then [8] else [4, 4]
  }

  /** Two alignments, three versions in two halves, a reserved word, image size, header size. */
  function Versions(): (fields: seq<nat>) {
    [4, 4, 2, 2, 2, 2, 2, 2, 4, 4, 4]
  }

  function Reserves(plus: bool): (fields: seq<nat>) {
    if plus then [8, 8, 8, 8] else [4, 4, 4, 4]
  }

  lemma {:induction false} WidthConcat(a: seq<nat>, b: seq<nat>)
    ensures Width(a + b) == Width(a) + Width(b)
  {
    if b == [] {
      assert a + b == a;
    } else {
      var n := |b| - 1;
      WidthConcat(a, b[..n]);
      assert (a + b)[..|a + b| - 1] == a + b[..n];
    }
  }

  lemma WidthFour(a: nat, b: nat, c: nat, d: nat)
    ensures Width([a]) == a && Width([a, b]) == a + b
    ensures Width([a, b, c]) == a + b + c && Width([a, b, c, d]) == a + b + c + d
  {
    assert [a][..0] == [] && [a, b][..1] == [a];
    assert [a, b, c][..2] == [a, b] && [a, b, c, d][..3] == [a, b, c];
  }

  lemma CoffWidths()
    ensures Width(COFF) == 24 && Width(COFF[..1]) == 4 && Width(COFF[..6]) == 20
  {
    assert COFF[..1] == [4] && COFF[..6] == [4, 2, 2, 4] + [4, 4] && COFF == [4, 2, 2, 4] + [4, 4, 2, 2];
    WidthConcat([4, 2, 2, 4], [4, 4]);
    WidthConcat([4, 2, 2, 4], [4, 4, 2, 2]);
    WidthFour(4, 2, 2, 4);
    WidthFour(4, 4, 2, 2);
  }

  lemma StandardWidths(plus: bool)
    ensures Width(Standard(plus)) == 32
  {
    var last := if plus then [8] else [4, 4];
    assert Standard(plus) == [2, 1, 1, 4] + [4, 4, 4, 4] + last;
    WidthConcat([2, 1, 1, 4] + [4, 4, 4, 4], last);
    WidthConcat([2, 1, 1, 4], [4, 4, 4, 4]);
    WidthFour(2, 1, 1, 4);
    WidthFour(4, 4, 4, 4);
    WidthFour(8, 0, 0, 0);
  }

  lemma VersionWidths()
    ensures Width(Versions()) == 32
  {
    assert Versions() == [4, 4, 2, 2] + [2, 2, 2, 2] + [4, 4, 4];
    WidthConcat([4, 4, 2, 2] + [2, 2, 2, 2], [4, 4, 4]);
    WidthConcat([4, 4, 2, 2], [2, 2, 2, 2]);
    WidthFour(4, 4, 2, 2);
    WidthFour(2, 2, 2, 2);
    WidthFour(4, 4, 4, 0);
  }

  lemma ReserveWidths(plus: bool)
    ensures Width(Reserves(plus)) == if plus then 32 else 16
  {
    WidthFour(8, 8, 8, 8);
    WidthFour(4, 4, 4, 4);
  }

  /** The checksum is the field behind the versions and sizes, and the certificate table is the fifth data
      directory of eight bytes: the offsets the code uses are those of the format. */
  lemma FieldsAreAt(raw: seq<byte>, h: Header)
    requires Parse(raw) == Ok(h)
    ensures var plus := h.magic == 0x20B;
            && h.Optional() == h.peOffset + Width(COFF)
            && h.ChecksumAt() == h.peOffset + Width(COFF) + Width(Standard(plus) + Versions())
            && h.SecurityAt() == h.peOffset + Width(COFF) + Width(OptionalFields(plus)) + 4 * 8
    ensures h.ChecksumAt() == h.peOffset + 88
    ensures h.SecurityAt() == h.peOffset + if h.magic == 0x20B then 168 else 152
  {
    var plus := h.magic == 0x20B;
    ParsedWithin(raw);
    CoffWidths();
    StandardWidths(plus);
    VersionWidths();
    ReserveWidths(plus);
    WidthFour(4, 2, 2, 0);
    WidthFour(4, 4, 0, 0);
    WidthConcat(Standard(plus), Versions());
    WidthConcat(Standard(plus) + Versions(), [4, 2, 2]);
    WidthConcat(Standard(plus) + Versions() + [4, 2, 2], Reserves(plus));
    WidthConcat(Standard(plus) + Versions() + [4, 2, 2] + Reserves(plus), [4, 4]);
  }

  // ----- Numbers and acceptance

  /** Numbers are stored with the lowest byte first. */
  lemma NumbersRead(raw: seq<byte>, at: nat)
    requires at + 4 <= |raw|
    ensures U16(raw, at) == raw[at] as int + 256 * raw[at + 1] as int
    ensures U32(raw, at) ==
            raw[at] as int + 256 * raw[at + 1] as int + 0x1_0000 * raw[at + 2] as int + 0x100_0000 * raw[at + 3] as int
  {
  }

  /** Where the security entry of a file with its header at pe lies. */
  function EntryOffset(raw: seq<byte>, pe: nat): (at: nat)
    requires pe + 26 <= |raw|
  {
    pe + if U16(raw, pe + 24) == 0x20B then 168 else 152
  }

  /** A file is accepted exactly when it starts with MZ, has the signature PE\0\0 at the offset in 0x3C,
      its optional header lies within it and has one of the two magics and room for five directories,
      and its table, if it has one, lies within it and not at its start. */
  lemma AcceptedIff(raw: seq<byte>)
    ensures Parse(raw).Ok? <==>
            && |raw| >= 64 && raw[0] == 77 && raw[1] == 90
            && var pe := U32(raw, 60);
               && pe + 26 <= |raw| && raw[pe] == 80 && raw[pe + 1] == 69 && raw[pe + 2] == 0 && raw[pe + 3] == 0
               && var size, at := U16(raw, pe + 20), EntryOffset(raw, pe);
                  && pe + 24 + size <= |raw| && at + 8 <= pe + 24 + size
                  && (U16(raw, pe + 24) == 0x20B || U16(raw, pe + 24) == 0x10B)
                  && var offset, length := U32(raw, at), U32(raw, at + 4);
                     if length == 0 then offset == 0 else offset > 0 && offset + length <= |raw|
  {
    if |raw| >= 64 {
      var pe := U32(raw, 60);
      if pe + 24 <= |raw| { Signature(raw, pe); }
    }
  }

  lemma Signature(raw: seq<byte>, pe: nat)
    requires pe + 24 <= |raw|
    ensures raw[pe..pe + 4] == [0x50, 0x45, 0, 0] <==>
            raw[pe] == 80 && raw[pe + 1] == 69 && raw[pe + 2] == 0 && raw[pe + 3] == 0
  {
    var s := raw[pe..pe + 4];
    assert s[0] == raw[pe] && s[1] == raw[pe + 1] && s[2] == raw[pe + 2] && s[3] == raw[pe + 3];
  }

  /** What the identity reports of the header. */
  lemma HeaderReads(raw: seq<byte>)
    requires Parse(raw).Ok?
    ensures var h := Parse(raw).value;
            && h.peOffset == U32(raw, 60) && h.peOffset + 26 <= |raw|
            && h.machine == U16(raw, h.peOffset + 4) && h.magic == U16(raw, h.peOffset + 24)
            && EntryOffset(raw, h.peOffset) + 8 <= |raw|
            && h.certificateOffset == U32(raw, EntryOffset(raw, h.peOffset))
            && h.certificateSize == U32(raw, EntryOffset(raw, h.peOffset) + 4)
  {
    ParsedWithin(raw);
  }

  // ----- Canonical bytes

  /** The offset lies in the checksum or the security entry. */
  predicate Zeroed(raw: seq<byte>, i: nat) {
    && |raw| >= 64
    && var pe := U32(raw, 60);
       && pe + 26 <= |raw|
       && (pe + 88 <= i < pe + 92 || EntryOffset(raw, pe) <= i < EntryOffset(raw, pe) + 8)
  }

  lemma ZeroedIs(raw: seq<byte>, i: nat)
    requires Parse(raw).Ok?
    ensures Zeroed(raw, i) <==> InFields(Parse(raw).value, i)
  {
    FieldsAreAt(raw, Parse(raw).value);
    HeaderReads(raw);
  }

  /** Stripping removes trailing NULs, as many as there are up to seven. */
  lemma StrippedMeans(s: seq<byte>)
    ensures |Stripped(s)| <= |s| <= |Stripped(s)| + 7
    ensures forall i | 0 <= i < |Stripped(s)| :: Stripped(s)[i] == s[i]
    ensures forall i | |Stripped(s)| <= i < |s| :: s[i] == 0
    ensures |s| < |Stripped(s)| + 7 ==> Stripped(s) == [] || Stripped(s)[|Stripped(s)| - 1] != 0
  {
    CanonicalExtends(s);
    if TrailingZeros(s) < 7 { LastKept(s); }
  }

  lemma {:induction false} LastKept(s: seq<byte>)
    ensures TrailingZeros(s) == |s| || s[|s| - 1 - TrailingZeros(s)] != 0
  {
    if s == [] || s[|s| - 1] != 0 {
    } else {
      LastKept(s[..|s| - 1]);
    }
  }

  /** The place a byte of the file has once the table is cut out. */
  function Place(h: Header, i: nat): (k: int) {
    if i < h.certificateOffset + h.certificateSize then i else i - h.certificateSize
  }

  /** The canonical bytes are the file without its table, the checksum and the security entry zero, and
      without its last NULs, at most seven: every byte outside the table is at its place, and every byte
      that is not kept is a NUL at the end. */
  lemma CanonicalMeans(raw: seq<byte>, i: nat)
    requires Parse(raw).Ok? && i < |raw|
    requires var h := Parse(raw).value; !(h.certificateOffset <= i < h.certificateOffset + h.certificateSize)
    ensures var h, c := Parse(raw).value, Canonical(raw);
            var k, b := Place(h, i), if Zeroed(raw, i) then 0 else raw[i];
            && 0 <= k < |raw| - h.certificateSize
            && (if k < |c| then c[k] == b else b == 0)
            && |c| <= |raw| - h.certificateSize <= |c| + 7
            && (|raw| - h.certificateSize < |c| + 7 ==> c == [] || c[|c| - 1] != 0)
  {
    var h := Parse(raw).value;
    ZeroedIs(raw, i);
    CanonicalIs(raw, h);
    CanonicalAt(raw, h, i);
  }

  lemma CanonicalIs(raw: seq<byte>, h: Header)
    requires Parse(raw) == Ok(h)
    ensures Within(h, |raw|) && Canonical(raw) == CanonicalFor(raw, h)
  {
    ParsedWithin(raw);
  }

  lemma CanonicalAt(raw: seq<byte>, h: Header, i: nat)
    requires Within(h, |raw|) && i < |raw| && !(h.certificateOffset <= i < h.certificateOffset + h.certificateSize)
    ensures var c, k, b := CanonicalFor(raw, h), Place(h, i), if InFields(h, i) then 0 else raw[i];
            && 0 <= k < |raw| - h.certificateSize
            && (if k < |c| then c[k] == b else b == 0)
            && |c| <= |raw| - h.certificateSize <= |c| + 7
            && (|raw| - h.certificateSize < |c| + 7 ==> c == [] || c[|c| - 1] != 0)
  {
    StrippedMeans(Payload(Blanked(raw, h), h));
    BlankedAt(raw, h, i);
  }

  lemma BlankedAt(raw: seq<byte>, h: Header, i: nat)
    requires Within(h, |raw|) && i < |raw| && !(h.certificateOffset <= i < h.certificateOffset + h.certificateSize)
    ensures var p := Payload(Blanked(raw, h), h);
            && 0 <= Place(h, i) < |p| == |raw| - h.certificateSize
            && p[Place(h, i)] == if InFields(h, i) then 0 else raw[i]
  {
  }

  /** Two accepted files without a table and of one length have the same canonical bytes if and only if
      they agree outside the four bytes at pe + 88 and the eight of the security entry. */
  lemma CanonicalEqualIff(x: seq<byte>, y: seq<byte>)
    requires Parse(x).Ok? && Parse(y).Ok? && |x| == |y|
    requires Parse(x).value.certificateSize == 0 && Parse(y).value.certificateSize == 0
    ensures Canonical(x) == Canonical(y) <==> forall i | 0 <= i < |x| && !Zeroed(x, i) :: x[i] == y[i]
  {
    var h, g := Parse(x).value, Parse(y).value;
    CanonicalIs(x, h);
    CanonicalIs(y, g);
    forall i: nat ensures Zeroed(x, i) <==> InFields(h, i) { ZeroedIs(x, i); }
    if Canonical(x) == Canonical(y) { EqualForward(x, h, y, g); }
    if forall i | 0 <= i < |x| && !Zeroed(x, i) :: x[i] == y[i] { EqualBackward(x, h, y, g); }
  }

  lemma BlankedIs(raw: seq<byte>, h: Header, i: nat)
    requires Within(h, |raw|) && i < |raw|
    ensures Blanked(raw, h)[i] == if InFields(h, i) then 0 else raw[i]
  {
  }

  lemma BlankedAlike(x: seq<byte>, h: Header, y: seq<byte>, g: Header)
    requires Within(h, |x|) && Within(g, |y|) && h.certificateSize == 0 && g.certificateSize == 0
    requires |x| == |y| && CanonicalFor(x, h) == CanonicalFor(y, g)
    ensures Blanked(x, h) == Blanked(y, g)
  {
    var a, b := Blanked(x, h), Blanked(y, g);
    assert Payload(a, h) == a && Payload(b, g) == b;
    SameStripped(a, b);
  }

  lemma EqualForward(x: seq<byte>, h: Header, y: seq<byte>, g: Header)
    requires Parse(x) == Ok(h) && Parse(y) == Ok(g) && Within(h, |x|) && Within(g, |y|) && |x| == |y|
    requires h.certificateSize == 0 && g.certificateSize == 0 && CanonicalFor(x, h) == CanonicalFor(y, g)
    ensures forall i | 0 <= i < |x| && !InFields(h, i) :: x[i] == y[i]
  {
    BlankedAlike(x, h, y, g);
    forall i | 0 <= i < h.ChecksumAt() && i < g.ChecksumAt() ensures x[i] == y[i] {
      BlankedIs(x, h, i);
      BlankedIs(y, g, i);
    }
    HeadersAgree(x, y);
    forall i | 0 <= i < |x| && !InFields(h, i) ensures x[i] == y[i] {
      BlankedIs(x, h, i);
      BlankedIs(y, g, i);
    }
  }

  lemma EqualBackward(x: seq<byte>, h: Header, y: seq<byte>, g: Header)
    requires Parse(x) == Ok(h) && Parse(y) == Ok(g) && Within(h, |x|) && Within(g, |y|) && |x| == |y|
    requires h.certificateSize == 0 && g.certificateSize == 0
    requires forall i | 0 <= i < |x| && !InFields(h, i) :: x[i] == y[i]
    ensures CanonicalFor(x, h) == CanonicalFor(y, g)
  {
    forall i | 0 <= i < h.ChecksumAt() && i < g.ChecksumAt() ensures x[i] == y[i] { assert !InFields(h, i); }
    HeadersAgree(x, y);
    SameBlanked(x, y, h);
  }

  lemma SameBlanked(x: seq<byte>, y: seq<byte>, h: Header)
    requires Within(h, |x|) && |x| == |y| && forall i | 0 <= i < |x| && !InFields(h, i) :: x[i] == y[i]
    ensures Blanked(x, h) == Blanked(y, h)
  {
    forall i | 0 <= i < |x| ensures Blanked(x, h)[i] == Blanked(y, h)[i] {
      BlankedIs(x, h, i);
      BlankedIs(y, h, i);
    }
  }

  /** A file that differs from an accepted one in its checksum alone is accepted, with the same header
      and the same canonical bytes. */
  lemma ChecksumIgnored(x: seq<byte>, y: seq<byte>)
    requires Parse(x).Ok? && |x| == |y|
    requires forall i | 0 <= i < |x| && !(U32(x, 60) + 88 <= i < U32(x, 60) + 92) :: x[i] == y[i]
    ensures Parse(y) == Parse(x) && Canonical(y) == Canonical(x)
  {
    var h := Parse(x).value;
    HeaderReads(x);
    FieldsAreAt(x, h);
    CanonicalIs(x, h);
    SameButChecksum(x, y, h);
    CanonicalIs(y, h);
  }

  lemma SameButChecksum(x: seq<byte>, y: seq<byte>, h: Header)
    requires Parse(x) == Ok(h) && Within(h, |x|) && |x| == |y|
    requires forall i | 0 <= i < |x| && !(h.ChecksumAt() <= i < h.ChecksumAt() + 4) :: x[i] == y[i]
    ensures Parse(y) == Ok(h) && CanonicalFor(y, h) == CanonicalFor(x, h)
  {
    SameParse(x, y, h);
    SameBlanked(x, y, h);
  }

  lemma SameParse(x: seq<byte>, y: seq<byte>, h: Header)
    requires Parse(x) == Ok(h) && Within(h, |x|) && |x| == |y|
    requires forall i | 0 <= i < h.ChecksumAt() || h.SecurityAt() <= i < h.SecurityAt() + 8 :: x[i] == y[i]
    ensures Parse(y) == Ok(h)
  {
    ParseDependsOn(x, y);
    SameEntry(x, y, h);
    SameDirectories(x, y, h);
    ParseDependsOn(x, x);
  }

  lemma SameDirectories(x: seq<byte>, y: seq<byte>, h: Header)
    requires Within(h, |x|) && |x| == |y|
    requires U32(x, h.SecurityAt()) == U32(y, h.SecurityAt())
    requires U32(x, h.SecurityAt() + 4) == U32(y, h.SecurityAt() + 4)
    ensures ParseDirectories(x, h.peOffset, h.machine, h.optionalSize, h.magic) ==
            ParseDirectories(y, h.peOffset, h.machine, h.optionalSize, h.magic)
  {
  }

  lemma SameEntry(x: seq<byte>, y: seq<byte>, h: Header)
    requires Within(h, |x|) && |x| == |y|
    requires forall i | h.SecurityAt() <= i < h.SecurityAt() + 8 :: x[i] == y[i]
    ensures U32(x, h.SecurityAt()) == U32(y, h.SecurityAt()) && U32(x, h.SecurityAt() + 4) == U32(y, h.SecurityAt() + 4)
  {
  }
}
