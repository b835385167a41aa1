/** Augmenting an SPDX document with a release's files and locked packages, and verifying it. */
module Spdx {
  import opened Wrappers
  import opened Bytes
  import opened KeyedLists
  import Sorting

  // ----- Documents

  datatype Checksum = Checksum(algorithm: string, value: string)

  /** A field that is absent reads as its empty value; `extra` holds the fields nothing here reads. */
  datatype Package = Package(
    id: string, name: string, version: string, comment: string, filesAnalyzed: bool, code: string,
    checksums: seq<Checksum>, extra: map<string, string>)

  datatype FileEntry = FileEntry(
    id: string, fileName: string, checksums: seq<Checksum>, fileTypes: seq<string>, comment: string,
    extra: map<string, string>)

  datatype Relationship = Relationship(origin: string, kind: string, related: string, comment: string)

  datatype Header = Header(
    version: string, id: string, license: string, namespace: string, creators: seq<string>)

  datatype Document = Document(
    header: Header, packages: seq<Package>, files: seq<FileEntry>, relationships: seq<Relationship>,
    describes: seq<string>)

  // ----- Inputs

  datatype Content = Regular(bytes: seq<byte>) | Link(target: string)

  datatype DistFile = DistFile(relative: string, content: Content)

  datatype LockEntry = LockEntry(
    name: string, version: string, source: Option<string>, checksum: Option<string>)

  /** Fixed text that augmenting writes and verifying does not read: the parts of the release
      package's comment, the note on locked packages, and the license and supplier fields. */
  datatype Wording = Wording(
    lead: string, middle: string, tail: string, lockNote: string,
    rootExtra: map<string, string>, packageExtra: map<string, string>, fileExtra: map<string, string>)

  /** The digests: SHA-1 and SHA-256 of bytes, SHA-1 of a text, the operating system's encoding of
      a link target, and the 24 digits identifying a file name or a locked package. */
  datatype Settings = Settings(
    sha1: seq<byte> -> string, sha256: seq<byte> -> string, textSha1: string -> string,
    encode: string -> seq<byte>, fileDigits: string -> string,
    packageDigits: (string, string, string) -> string, wording: Wording)

  /** No two names, packages or contents share a digest. */
  ghost predicate Injective(h: Settings) {
    && (forall a, b :: h.fileDigits(a) == h.fileDigits(b) ==> a == b)
    && (forall a, b, c, d, e, f ::
          h.packageDigits(a, b, c) == h.packageDigits(d, e, f) ==> a == d && b == e && c == f)
    && (forall a, b :: h.sha256(a) == h.sha256(b) ==> a == b)
  }

  const RELEASE := "SPDXRef-Package-greppy-release"

  function FileId(h: Settings, relative: string): (id: string) {
    "SPDXRef-ReleaseFile-" + h.fileDigits(relative)
  }

  function Source(p: LockEntry): (source: string) {
    if p.source.Some? then p.source.value else "workspace"
  }

  function CargoId(h: Settings, p: LockEntry): (id: string) {
    "SPDXRef-CargoLock-" + h.packageDigits(p.name, p.version, Source(p))
  }

  function ReleaseBytes(h: Settings, content: Content): (bytes: seq<byte>) {
    match content
    case Regular(bytes) => bytes
    case Link(target) => [115, 121, 109, 108, 105, 110, 107, 0] + h.encode(target)
  }

  predicate HeaderOk(header: Header) {
    && header.version in ["SPDX-2.2", "SPDX-2.3"]
    && header.id == "SPDXRef-DOCUMENT"
    && header.license == "CC0-1.0"
    && ("https://" <= header.namespace || "http://" <= header.namespace)
    && header.creators != []
  }

  predicate LockOk(lock: seq<LockEntry>) {
    lock != [] && forall p | p in lock :: p.name != "" && p.version != ""
  }

  /** The versions of the workspace's own greppy package. */
  function OwnVersions(lock: seq<LockEntry>): (versions: seq<string>) {
    if lock == [] then []
    else
      (if lock[0].name == "greppy" && lock[0].source.None? then [lock[0].version] else [])
      + OwnVersions(lock[1..])
  }

  predicate ChecksumOk(p: LockEntry) {
    p.checksum.Some? ==>
      |p.checksum.value| == 64 && forall c | c in p.checksum.value :: '0' <= c <= '9' || 'a' <= c <= 'f'
  }

  // ----- What augmenting writes

  function LinkComment(target: string): (comment: string) {
    "Symbolic link target: " + target
  }

  function Qualified(before: string, after: string): (comment: string) {
    before + "do not assert" + after
  }

  function RootComment(w: Wording, target: string): (comment: string) {
    Qualified(w.lead + target + w.middle, w.tail)
  }

  function LockComment(source: string): (comment: string) {
    "Cargo.lock source: " + source
  }

  function Concat(texts: seq<string>): (text: string) {
    if texts == [] then "" else texts[0] + Concat(texts[1..])
  }

  function Sha1Of(h: Settings): (f: DistFile -> string) {
    (f: DistFile) => h.sha1(ReleaseBytes(h, f.content))
  }

  /** The package verification code of SPDX 2.3, clause 7.9. */
  function Code(h: Settings, dist: seq<DistFile>): (code: string) {
    h.textSha1(Concat(Sorting.Sort(Sorting.ByText(), Map(dist, Sha1Of(h)))))
  }

  function Root(h: Settings, dist: seq<DistFile>, version: string, target: string): (p: Package) {
    Package(RELEASE, "greppy", version, RootComment(h.wording, target), true, Code(h, dist), [],
            h.wording.rootExtra)
  }

  function LockPackage(h: Settings, p: LockEntry): (e: Package) {
    Package(CargoId(h, p), p.name, p.version, LockComment(Source(p)), false, "",
            if p.checksum.Some? then [Checksum("SHA256", p.checksum.value)] else [],
            h.wording.packageExtra)
  }

  function ReleaseFile(h: Settings, f: DistFile): (e: FileEntry) {
    var bytes := ReleaseBytes(h, f.content);
    FileEntry(FileId(h, f.relative), "./" + f.relative,
              [Checksum("SHA1", h.sha1(bytes)), Checksum("SHA256", h.sha256(bytes))],
              if f.content.Link? then ["OTHER"] else [],
              if f.content.Link? then LinkComment(f.content.target) else "",
              h.wording.fileExtra)
  }

  function Contains(h: Settings, f: DistFile): (r: Relationship) {
    Relationship(RELEASE, "CONTAINS", FileId(h, f.relative), "")
  }

  function Locks(h: Settings, p: LockEntry): (r: Relationship) {
    Relationship(RELEASE, "OTHER", CargoId(h, p), h.wording.lockNote)
  }

  function PackageKey(): (key: Package -> string) { (p: Package) => p.id }

  function FileKey(): (key: FileEntry -> string) { (e: FileEntry) => e.id }

  function ToPackage(h: Settings): (f: LockEntry -> Package) { p => LockPackage(h, p) }

  function ToLocks(h: Settings): (f: LockEntry -> Relationship) { p => Locks(h, p) }

  function ToCargoId(h: Settings): (f: LockEntry -> string) { p => CargoId(h, p) }

  function ToFile(h: Settings): (f: DistFile -> FileEntry) { f => ReleaseFile(h, f) }

  function ToContains(h: Settings): (f: DistFile -> Relationship) { f => Contains(h, f) }

  function ToFileId(h: Settings): (f: DistFile -> string) { (f: DistFile) => FileId(h, f.relative) }

  /** The identifiers an augmentation owns. */
  function Generated(h: Settings, dist: seq<DistFile>, lock: seq<LockEntry>): (ids: set<string>) {
    {RELEASE} + CargoIds(h, lock) + FileIds(h, dist)
  }

  function KeepPackage(gone: set<string>): (keep: Package -> bool) { (p: Package) => p.id !in gone }

  function KeepFile(gone: set<string>): (keep: FileEntry -> bool) { (e: FileEntry) => e.id !in gone }

  function KeepRelationship(gone: set<string>): (keep: Relationship -> bool) {
    (r: Relationship) => r.origin !in gone && r.related !in gone
  }

  function KeepId(gone: set<string>): (keep: string -> bool) { id => id !in gone }

  predicate CanAugment(doc: Document, dist: seq<DistFile>, lock: seq<LockEntry>) {
    && HeaderOk(doc.header) && LockOk(lock) && dist != [] && |OwnVersions(lock)| == 1
    && forall p | p in lock :: ChecksumOk(p)
  }

  /** The document an augmentation writes. */
  function Augmented(h: Settings, doc: Document, dist: seq<DistFile>, lock: seq<LockEntry>, target: string)
    : (r: Document)
    requires |OwnVersions(lock)| == 1
  {
    var gone := Generated(h, dist, lock);
    Document(
      doc.header,
      Filter(doc.packages, KeepPackage(gone)) + [Root(h, dist, OwnVersions(lock)[0], target)]
      + Map(lock, ToPackage(h)),
      Filter(doc.files, KeepFile(gone)) + Map(dist, ToFile(h)),
      Filter(doc.relationships, KeepRelationship(gone)) + Map(dist, ToContains(h)) + Map(lock, ToLocks(h)),
      Filter(doc.describes, KeepId(gone)) + [RELEASE])
  }

  // ----- What verifying demands

  predicate FoundAt(part: string, whole: string, i: nat) {
    i + |part| <= |whole| && whole[i..i + |part|] == part
  }

  predicate Infix(part: string, whole: string) {
    exists i | 0 <= i <= |whole| :: FoundAt(part, whole, i)
  }

  /** The checksum a dictionary of the list holds: the last one for the algorithm. */
  function ChecksumOf(checksums: seq<Checksum>, algorithm: string): (value: Option<string>) {
    if checksums == [] then None
    else if checksums[|checksums| - 1].algorithm == algorithm then Some(checksums[|checksums| - 1].value)
    else ChecksumOf(checksums[..|checksums| - 1], algorithm)
  }

  function Identifiers(doc: Document): (ids: seq<string>) {
    Map(doc.packages, PackageKey()) + Map(doc.files, FileKey())
  }

  ghost predicate GoodIds(ids: seq<string>) {
    "" !in ids && Distinct(ids)
  }

  predicate RootMatches(
    h: Settings, root: Package, dist: seq<DistFile>, lock: seq<LockEntry>, target: string)
  {
    && root.name == "greppy" && OwnVersions(lock) == [root.version]
    && Infix(target, root.comment) && Infix("do not assert", root.comment)
    && root.filesAnalyzed && root.code == Code(h, dist)
  }

  predicate FileMatches(h: Settings, e: FileEntry, f: DistFile) {
    var bytes := ReleaseBytes(h, f.content);
    && e.fileName == "./" + f.relative
    && ChecksumOf(e.checksums, "SHA1") == Some(h.sha1(bytes))
    && ChecksumOf(e.checksums, "SHA256") == Some(h.sha256(bytes))
    && (if f.content.Link? then e.fileTypes == ["OTHER"] && e.comment == LinkComment(f.content.target)
        else !(e.fileTypes == ["OTHER"] && LinkComment("") <= e.comment))
  }

  predicate PackageMatches(e: Package, p: LockEntry) {
    && e.name == p.name && e.version == p.version && e.comment == LockComment(Source(p))
    && (p.checksum.Some? ==> ChecksumOf(e.checksums, "SHA256") == p.checksum)
  }

  function Related(relationships: seq<Relationship>, kind: string): (ids: set<string>) {
    set r | r in relationships && r.origin == RELEASE && r.kind == kind :: r.related
  }

  ghost predicate HasRoot(
    h: Settings, packages: seq<Package>, dist: seq<DistFile>, lock: seq<LockEntry>, target: string)
  {
    exists root | root in packages :: root.id == RELEASE && RootMatches(h, root, dist, lock, target)
  }

  ghost predicate HasFile(h: Settings, files: seq<FileEntry>, f: DistFile) {
    exists e | e in files :: e.id == FileId(h, f.relative) && FileMatches(h, e, f)
  }

  ghost predicate HasPackage(h: Settings, packages: seq<Package>, p: LockEntry) {
    exists e | e in packages :: e.id == CargoId(h, p) && PackageMatches(e, p)
  }

  function FileIds(h: Settings, dist: seq<DistFile>): (ids: set<string>) {
    set f | f in dist :: FileId(h, f.relative)
  }

  function CargoIds(h: Settings, lock: seq<LockEntry>): (ids: set<string>) {
    set p | p in lock :: CargoId(h, p)
  }

  /** The document describes this release: its root package, exactly its files, all its packages. */
  ghost predicate DescribesRelease(
    h: Settings, doc: Document, dist: seq<DistFile>, lock: seq<LockEntry>, target: string)
  {
    && HasRoot(h, doc.packages, dist, lock, target)
    && RELEASE in doc.describes
    && Related(doc.relationships, "CONTAINS") == FileIds(h, dist)
    && (forall f | f in dist :: HasFile(h, doc.files, f))
    && (forall p | p in lock :: HasPackage(h, doc.packages, p))
    && CargoIds(h, lock) <= Related(doc.relationships, "OTHER")
  }

  ghost predicate Accepts(
    h: Settings, doc: Document, dist: seq<DistFile>, lock: seq<LockEntry>, target: string)
  {
    && HeaderOk(doc.header) && LockOk(lock) && dist != []
    && GoodIds(Identifiers(doc))
    && DescribesRelease(h, doc, dist, lock, target)
  }

  // ----- Looking entries up by identifier

  lemma RootLookup(h: Settings, packages: seq<Package>, dist: seq<DistFile>, lock: seq<LockEntry>, target: string)
    requires Distinct(Map(packages, PackageKey()))
    ensures var m := ById(packages, PackageKey());
            HasRoot(h, packages, dist, lock, target) <==>
            RELEASE in m && RootMatches(h, m[RELEASE], dist, lock, target)
  {
    ByIdMembers(packages, PackageKey());
    var m := ById(packages, PackageKey());
    forall e | e in packages && e.id == RELEASE ensures RELEASE in m && m[RELEASE] == e {
      assert PackageKey()(e) in m;
      KeyDetermines(packages, PackageKey(), e, m[RELEASE]);
    }
  }

  lemma FileLookup(h: Settings, files: seq<FileEntry>, f: DistFile)
    requires Distinct(Map(files, FileKey()))
    ensures var m, id := ById(files, FileKey()), FileId(h, f.relative);
            HasFile(h, files, f) <==> id in m && FileMatches(h, m[id], f)
  {
    ByIdMembers(files, FileKey());
    var m, id := ById(files, FileKey()), FileId(h, f.relative);
    forall e | e in files && e.id == id ensures id in m && m[id] == e {
      assert FileKey()(e) in m;
      KeyDetermines(files, FileKey(), e, m[id]);
    }
  }

  lemma PackageLookup(h: Settings, packages: seq<Package>, p: LockEntry)
    requires Distinct(Map(packages, PackageKey()))
    ensures var m, id := ById(packages, PackageKey()), CargoId(h, p);
            HasPackage(h, packages, p) <==> id in m && PackageMatches(m[id], p)
  {
    ByIdMembers(packages, PackageKey());
    var m, id := ById(packages, PackageKey()), CargoId(h, p);
    forall e | e in packages && e.id == id ensures id in m && m[id] == e {
      assert PackageKey()(e) in m;
      KeyDetermines(packages, PackageKey(), e, m[id]);
    }
  }

  // ----- Every augmented document describes its release

  lemma InfixAt(before: string, part: string, after: string)
    ensures Infix(part, before + part + after)
  {
    var whole := before + part + after;
    assert FoundAt(part, whole, |before|);
  }

  lemma RootCommentSays(w: Wording, target: string)
    ensures Infix(target, RootComment(w, target)) && Infix("do not assert", RootComment(w, target))
  {
    var before := w.lead + target + w.middle;
    InfixAt(before, "do not assert", w.tail);
    InfixAt(w.lead, target, w.middle + "do not assert" + w.tail);
    assert Qualified(before, w.tail) == w.lead + target + (w.middle + "do not assert" + w.tail);
  }

  lemma ReleaseFileMatches(h: Settings, f: DistFile)
    ensures FileMatches(h, ReleaseFile(h, f), f)
  {
    var e := ReleaseFile(h, f);
    assert e.checksums[..1] == [Checksum("SHA1", h.sha1(ReleaseBytes(h, f.content)))];
  }

  lemma MapMembers<S(!new), T(!new)>(s: seq<S>, f: S -> T)
    ensures forall x | x in s :: f(x) in Map(s, f)
    ensures forall y | y in Map(s, f) :: exists x | x in s :: f(x) == y
  {
    forall x | x in s ensures f(x) in Map(s, f) {
      var i :| 0 <= i < |s| && s[i] == x;
      assert Map(s, f)[i] == f(x);
    }
    forall y | y in Map(s, f) ensures exists x | x in s :: f(x) == y {
      var i :| 0 <= i < |s| && Map(s, f)[i] == y;
      assert s[i] in s && f(s[i]) == y;
    }
  }

  lemma AugmentedRoot(h: Settings, kept: seq<Package>, dist: seq<DistFile>, lock: seq<LockEntry>, target: string,
                      more: seq<Package>)
    requires |OwnVersions(lock)| == 1
    ensures HasRoot(h, kept + [Root(h, dist, OwnVersions(lock)[0], target)] + more, dist, lock, target)
  {
    var root := Root(h, dist, OwnVersions(lock)[0], target);
    RootCommentSays(h.wording, target);
    assert RootMatches(h, root, dist, lock, target);
    assert root in kept + [root] + more;
  }

  lemma AugmentedFiles(h: Settings, kept: seq<FileEntry>, dist: seq<DistFile>)
    ensures forall f | f in dist :: HasFile(h, kept + Map(dist, ToFile(h)), f)
  {
    MapMembers(dist, ToFile(h));
    forall f | f in dist ensures HasFile(h, kept + Map(dist, ToFile(h)), f) {
      ReleaseFileMatches(h, f);
      assert ToFile(h)(f) == ReleaseFile(h, f);
      assert ReleaseFile(h, f) in kept + Map(dist, ToFile(h));
    }
  }

  lemma AugmentedPackages(h: Settings, kept: seq<Package>, lock: seq<LockEntry>)
    ensures forall p | p in lock :: HasPackage(h, kept + Map(lock, ToPackage(h)), p)
  {
    MapMembers(lock, ToPackage(h));
    forall p | p in lock ensures HasPackage(h, kept + Map(lock, ToPackage(h)), p) {
      assert ToPackage(h)(p) == LockPackage(h, p);
      assert LockPackage(h, p) in kept + Map(lock, ToPackage(h));
    }
  }

  lemma RelatedConcat(a: seq<Relationship>, b: seq<Relationship>, kind: string)
    ensures Related(a + b, kind) == Related(a, kind) + Related(b, kind)
  {
  }

  lemma RelatedFiles(h: Settings, dist: seq<DistFile>, kind: string)
    ensures Related(Map(dist, ToContains(h)), kind) == if kind == "CONTAINS" then FileIds(h, dist) else {}
  {
    MapMembers(dist, ToContains(h));
    forall f | f in dist ensures Contains(h, f) in Map(dist, ToContains(h)) {
      assert ToContains(h)(f) == Contains(h, f);
    }
  }

  lemma RelatedPackages(h: Settings, lock: seq<LockEntry>, kind: string)
    ensures Related(Map(lock, ToLocks(h)), kind) == if kind == "OTHER" then CargoIds(h, lock) else {}
  {
    MapMembers(lock, ToLocks(h));
    forall p | p in lock ensures Locks(h, p) in Map(lock, ToLocks(h)) {
      assert ToLocks(h)(p) == Locks(h, p);
    }
  }

  /** After augmenting, the release package contains exactly the files and locks exactly the
      packages of this release. */
  lemma AugmentedRelated(h: Settings, relationships: seq<Relationship>, gone: set<string>,
                         dist: seq<DistFile>, lock: seq<LockEntry>)
    requires RELEASE in gone
    ensures var r := Filter(relationships, KeepRelationship(gone)) + Map(dist, ToContains(h)) + Map(lock, ToLocks(h));
            Related(r, "CONTAINS") == FileIds(h, dist) && Related(r, "OTHER") == CargoIds(h, lock)
  {
    var kept := Filter(relationships, KeepRelationship(gone));
    FilterMembers(relationships, KeepRelationship(gone));
    var contains, locks := Map(dist, ToContains(h)), Map(lock, ToLocks(h));
    forall kind | kind in ["CONTAINS", "OTHER"]
      ensures Related(kept + contains + locks, kind) == Related(contains, kind) + Related(locks, kind)
    {
      RelatedConcat(kept + contains, locks, kind);
      RelatedConcat(kept, contains, kind);
    }
    RelatedFiles(h, dist, "CONTAINS");
    RelatedFiles(h, dist, "OTHER");
    RelatedPackages(h, lock, "CONTAINS");
    RelatedPackages(h, lock, "OTHER");
  }

  lemma AugmentedDescribes(h: Settings, doc: Document, dist: seq<DistFile>, lock: seq<LockEntry>, target: string)
    requires |OwnVersions(lock)| == 1
    ensures DescribesRelease(h, Augmented(h, doc, dist, lock, target), dist, lock, target)
  {
    var gone := Generated(h, dist, lock);
    var kept := Filter(doc.packages, KeepPackage(gone));
    AugmentedRoot(h, kept, dist, lock, target, Map(lock, ToPackage(h)));
    AugmentedPackages(h, kept + [Root(h, dist, OwnVersions(lock)[0], target)], lock);
    AugmentedFiles(h, Filter(doc.files, KeepFile(gone)), dist);
    AugmentedRelated(h, doc.relationships, gone, dist, lock);
  }

  // ----- Identifiers after augmenting

  /** The identifiers of the entries an augmentation keeps. */
  function Survivors(h: Settings, doc: Document, dist: seq<DistFile>, lock: seq<LockEntry>): (ids: seq<string>) {
    var gone := Generated(h, dist, lock);
    Map(Filter(doc.packages, KeepPackage(gone)), PackageKey()) + Map(Filter(doc.files, KeepFile(gone)), FileKey())
  }

  /** No two locked packages share name, version and source, a missing source being "workspace". */
  ghost predicate LockDistinct(lock: seq<LockEntry>) {
    forall i, j | 0 <= i < j < |lock| ::
      !(lock[i].name == lock[j].name && lock[i].version == lock[j].version && Source(lock[i]) == Source(lock[j]))
  }

  ghost predicate NamesDistinct(dist: seq<DistFile>) {
    forall i, j | 0 <= i < j < |dist| :: dist[i].relative != dist[j].relative
  }

  lemma Families(h: Settings, relative: string, p: LockEntry)
    ensures FileId(h, relative) != "" && CargoId(h, p) != ""
    ensures FileId(h, relative) != RELEASE && CargoId(h, p) != RELEASE && FileId(h, relative) != CargoId(h, p)
  {
    assert FileId(h, relative)[8] == 'R' && CargoId(h, p)[8] == 'C' && RELEASE[8] == 'P';
  }

  lemma SameFile(h: Settings, a: string, b: string)
    requires Injective(h) && FileId(h, a) == FileId(h, b)
    ensures a == b
  {
    var n := |"SPDXRef-ReleaseFile-"|;
    assert FileId(h, a)[n..] == h.fileDigits(a) && FileId(h, b)[n..] == h.fileDigits(b);
  }

  lemma SamePackage(h: Settings, a: LockEntry, b: LockEntry)
    requires Injective(h) && CargoId(h, a) == CargoId(h, b)
    ensures a.name == b.name && a.version == b.version && Source(a) == Source(b)
  {
    var n := |"SPDXRef-CargoLock-"|;
    assert CargoId(h, a)[n..] == h.packageDigits(a.name, a.version, Source(a));
    assert CargoId(h, b)[n..] == h.packageDigits(b.name, b.version, Source(b));
  }

  lemma FileIdsDistinct(h: Settings, dist: seq<DistFile>)
    requires Injective(h) && NamesDistinct(dist)
    ensures Distinct(Map(dist, ToFileId(h)))
  {
    forall i, j | 0 <= i < j < |dist| ensures FileId(h, dist[i].relative) != FileId(h, dist[j].relative) {
      if FileId(h, dist[i].relative) == FileId(h, dist[j].relative) {
        SameFile(h, dist[i].relative, dist[j].relative);
        assert false;
      }
    }
  }

  lemma CargoIdsDistinctIff(h: Settings, lock: seq<LockEntry>)
    requires Injective(h)
    ensures Distinct(Map(lock, ToCargoId(h))) <==> LockDistinct(lock)
  {
    var ids := Map(lock, ToCargoId(h));
    forall i, j | 0 <= i < j < |lock|
      ensures ids[i] == ids[j] <==>
              lock[i].name == lock[j].name && lock[i].version == lock[j].version && Source(lock[i]) == Source(lock[j])
    {
      if ids[i] == ids[j] { SamePackage(h, lock[i], lock[j]); }
    }
  }

  /** Appending identifiers of which none was there leaves the rest to be good on its own. */
  lemma GoodWithAdded(kept: seq<string>, more: seq<string>, r: string, cargo: seq<string>, files: seq<string>)
    requires r != "" && "" !in cargo && "" !in files && Distinct(files)
    requires r !in cargo && r !in files && forall x | x in cargo :: x !in files
    requires forall x | x in kept + more :: x != r && x !in cargo && x !in files
    ensures GoodIds((kept + ([r] + cargo)) + (more + files)) <==> GoodIds(kept + more) && Distinct(cargo)
  {
    var packages, entries := kept + ([r] + cargo), more + files;
    DistinctConcat(packages, entries);
    DistinctConcat(kept, [r] + cargo);
    DistinctConcat([r], cargo);
    DistinctConcat(more, files);
    DistinctConcat(kept, more);
    assert forall x | x in kept :: x in kept + more;
    assert forall x | x in more :: x in kept + more;
    assert forall x | x in kept :: x in packages;
    assert forall x | x in more :: x in entries;
    assert forall x :: x in packages <==> x in kept || x == r || x in cargo;
    assert forall x :: x in entries <==> x in more || x in files;
  }

  lemma AugmentedIdentifiers(
    h: Settings, doc: Document, dist: seq<DistFile>, lock: seq<LockEntry>, target: string)
    requires |OwnVersions(lock)| == 1
    ensures var gone := Generated(h, dist, lock);
            var kept := Map(Filter(doc.packages, KeepPackage(gone)), PackageKey());
            var more := Map(Filter(doc.files, KeepFile(gone)), FileKey());
            Identifiers(Augmented(h, doc, dist, lock, target)) ==
            (kept + ([RELEASE] + Map(lock, ToCargoId(h)))) + (more + Map(dist, ToFileId(h)))
  {
    var gone := Generated(h, dist, lock);
    PackageIds(h, Filter(doc.packages, KeepPackage(gone)), Root(h, dist, OwnVersions(lock)[0], target), lock);
    EntryIds(h, Filter(doc.files, KeepFile(gone)), dist);
  }

  lemma PackageIds(h: Settings, kept: seq<Package>, root: Package, lock: seq<LockEntry>)
    requires root.id == RELEASE
    ensures Map(kept + [root] + Map(lock, ToPackage(h)), PackageKey()) ==
            Map(kept, PackageKey()) + ([RELEASE] + Map(lock, ToCargoId(h)))
  {
  }

  lemma EntryIds(h: Settings, kept: seq<FileEntry>, dist: seq<DistFile>)
    ensures Map(kept + Map(dist, ToFile(h)), FileKey()) == Map(kept, FileKey()) + Map(dist, ToFileId(h))
  {
  }

  lemma SurvivorsOutside(h: Settings, doc: Document, dist: seq<DistFile>, lock: seq<LockEntry>)
    ensures forall x | x in Survivors(h, doc, dist, lock) :: x !in Generated(h, dist, lock)
  {
    var gone := Generated(h, dist, lock);
    FilterMembers(doc.packages, KeepPackage(gone));
    FilterMembers(doc.files, KeepFile(gone));
    MapMembers(Filter(doc.packages, KeepPackage(gone)), PackageKey());
    MapMembers(Filter(doc.files, KeepFile(gone)), FileKey());
  }

  lemma GeneratedLists(h: Settings, dist: seq<DistFile>, lock: seq<LockEntry>)
    ensures forall x | x in Map(lock, ToCargoId(h)) :: x in CargoIds(h, lock) && x != "" && x != RELEASE
    ensures forall x | x in Map(dist, ToFileId(h)) :: x in FileIds(h, dist) && x != "" && x != RELEASE
    ensures forall x | x in Map(lock, ToCargoId(h)) :: x !in Map(dist, ToFileId(h))
  {
    forall x | x in Map(lock, ToCargoId(h))
      ensures x in CargoIds(h, lock) && x != "" && x != RELEASE && x !in Map(dist, ToFileId(h))
    {
      var i :| 0 <= i < |lock| && Map(lock, ToCargoId(h))[i] == x;
      Families(h, "", lock[i]);
      assert lock[i] in lock && x == CargoId(h, lock[i]);
      forall j | 0 <= j < |dist| ensures Map(dist, ToFileId(h))[j] != x { Families(h, dist[j].relative, lock[i]); }
    }
    forall x | x in Map(dist, ToFileId(h)) ensures x in FileIds(h, dist) && x != "" && x != RELEASE {
      var i :| 0 <= i < |dist| && Map(dist, ToFileId(h))[i] == x;
      Families(h, dist[i].relative, LockEntry("", "", None, None));
      assert dist[i] in dist && x == FileId(h, dist[i].relative);
    }
  }

  // ----- Main results

  /** What augmenting writes is accepted by verifying if and only if the identifiers it keeps are
      present and distinct and no locked package is listed twice. */
  lemma AugmentedAcceptedIff(
    h: Settings, doc: Document, dist: seq<DistFile>, lock: seq<LockEntry>, target: string)
    requires Injective(h) && NamesDistinct(dist) && CanAugment(doc, dist, lock)
    ensures Accepts(h, Augmented(h, doc, dist, lock, target), dist, lock, target) <==>
            GoodIds(Survivors(h, doc, dist, lock)) && LockDistinct(lock)
  {
    AugmentedDescribes(h, doc, dist, lock, target);
    AugmentedIdentifiers(h, doc, dist, lock, target);
    SurvivorsOutside(h, doc, dist, lock);
    GeneratedLists(h, dist, lock);
    FileIdsDistinct(h, dist);
    CargoIdsDistinctIff(h, lock);
    var gone := Generated(h, dist, lock);
    GoodWithAdded(
      Map(Filter(doc.packages, KeepPackage(gone)), PackageKey()), Map(Filter(doc.files, KeepFile(gone)), FileKey()),
      RELEASE, Map(lock, ToCargoId(h)), Map(dist, ToFileId(h)));
  }

  /** Augmenting twice with the same release writes the same lists, entry for entry. */
  lemma AugmentIdempotent(
    h: Settings, doc: Document, dist: seq<DistFile>, lock: seq<LockEntry>, target: string)
    requires |OwnVersions(lock)| == 1
    ensures var once := Augmented(h, doc, dist, lock, target);
            Augmented(h, once, dist, lock, target) == once
  {
    var gone := Generated(h, dist, lock);
    PackagesAgain(h, doc.packages, gone, Root(h, dist, OwnVersions(lock)[0], target), lock);
    FilesAgain(h, doc.files, gone, dist);
    RelationshipsAgain(h, doc.relationships, gone, dist, lock);
    FilterAgain(doc.describes, [RELEASE], KeepId(gone));
  }

  lemma PackagesAgain(h: Settings, packages: seq<Package>, gone: set<string>, root: Package, lock: seq<LockEntry>)
    requires root.id in gone && CargoIds(h, lock) <= gone
    ensures var kept := Filter(packages, KeepPackage(gone));
            Filter(kept + [root] + Map(lock, ToPackage(h)), KeepPackage(gone)) == kept
  {
    var kept, added := Filter(packages, KeepPackage(gone)), [root] + Map(lock, ToPackage(h));
    forall i | 0 <= i < |lock| ensures CargoId(h, lock[i]) in gone { assert lock[i] in lock; }
    FilterAgain(packages, added, KeepPackage(gone));
    Associative(kept, [root], Map(lock, ToPackage(h)));
  }

  lemma FilesAgain(h: Settings, files: seq<FileEntry>, gone: set<string>, dist: seq<DistFile>)
    requires FileIds(h, dist) <= gone
    ensures var kept := Filter(files, KeepFile(gone));
            Filter(kept + Map(dist, ToFile(h)), KeepFile(gone)) == kept
  {
    forall i | 0 <= i < |dist| ensures FileId(h, dist[i].relative) in gone { assert dist[i] in dist; }
    FilterAgain(files, Map(dist, ToFile(h)), KeepFile(gone));
  }

  lemma RelationshipsAgain(h: Settings, relationships: seq<Relationship>, gone: set<string>,
                           dist: seq<DistFile>, lock: seq<LockEntry>)
    requires RELEASE in gone
    ensures var kept := Filter(relationships, KeepRelationship(gone));
            Filter(kept + Map(dist, ToContains(h)) + Map(lock, ToLocks(h)), KeepRelationship(gone)) == kept
  {
    var kept, added := Filter(relationships, KeepRelationship(gone)), Map(dist, ToContains(h)) + Map(lock, ToLocks(h));
    FilterAgain(relationships, added, KeepRelationship(gone));
    assert kept + Map(dist, ToContains(h)) + Map(lock, ToLocks(h)) == kept + added;
  }

  lemma SurvivorsGood(h: Settings, doc: Document, dist: seq<DistFile>, lock: seq<LockEntry>)
    requires GoodIds(Identifiers(doc))
    ensures GoodIds(Survivors(h, doc, dist, lock))
  {
    var gone := Generated(h, dist, lock);
    var packages, files := Map(doc.packages, PackageKey()), Map(doc.files, FileKey());
    DistinctConcat(packages, files);
    FilterDistinct(doc.packages, KeepPackage(gone), PackageKey());
    FilterDistinct(doc.files, KeepFile(gone), FileKey());
    var kept := Map(Filter(doc.packages, KeepPackage(gone)), PackageKey());
    var more := Map(Filter(doc.files, KeepFile(gone)), FileKey());
    FilteredIds(doc.packages, KeepPackage(gone), PackageKey());
    FilteredIds(doc.files, KeepFile(gone), FileKey());
    DistinctConcat(kept, more);
  }

  lemma FilteredIds<T(!new)>(s: seq<T>, keep: T -> bool, key: T -> string)
    ensures forall id | id in Map(Filter(s, keep), key) :: id in Map(s, key)
  {
    FilterMembers(s, keep);
    MapMembers(s, key);
    MapMembers(Filter(s, keep), key);
  }

  /** A document that was accepted for one release can be augmented for any other and is accepted
      for that one; what only the old release had stays listed but is no longer contained. */
  lemma AugmentAgain(
    h: Settings, doc: Document, dist: seq<DistFile>, lock: seq<LockEntry>, target: string,
    newDist: seq<DistFile>, newLock: seq<LockEntry>, newTarget: string)
    requires Injective(h) && Accepts(h, doc, dist, lock, target)
    requires NamesDistinct(newDist) && CanAugment(doc, newDist, newLock) && LockDistinct(newLock)
    ensures var again := Augmented(h, doc, newDist, newLock, newTarget);
            && Accepts(h, again, newDist, newLock, newTarget)
            && (forall e | e in doc.files && e.id !in Generated(h, newDist, newLock) ::
                  e in again.files && e.id !in Related(again.relationships, "CONTAINS"))
            && (forall e | e in doc.packages && e.id !in Generated(h, newDist, newLock) ::
                  e in again.packages && e.id !in Related(again.relationships, "OTHER"))
  {
    SurvivorsGood(h, doc, newDist, newLock);
    AugmentedAcceptedIff(h, doc, newDist, newLock, newTarget);
    var gone := Generated(h, newDist, newLock);
    AugmentedRelated(h, doc.relationships, gone, newDist, newLock);
    FilterMembers(doc.files, KeepFile(gone));
    FilterMembers(doc.packages, KeepPackage(gone));
  }

  /** The verification code does not depend on the order of the files. */
  lemma CodeOrderFree(h: Settings, a: seq<DistFile>, b: seq<DistFile>)
    requires multiset(a) == multiset(b)
    ensures Code(h, a) == Code(h, b)
  {
    MapRearranged(a, b, Sha1Of(h));
    Sorting.ByTextIsTotalOrder();
    Sorting.SortOrderFree(Sorting.ByText(), Map(a, Sha1Of(h)), Map(b, Sha1Of(h)));
  }

  /** Nor does acceptance. */
  lemma AcceptsOrderFree(
    h: Settings, doc: Document, a: seq<DistFile>, b: seq<DistFile>, lock: seq<LockEntry>, target: string)
    requires multiset(a) == multiset(b)
    ensures Accepts(h, doc, a, lock, target) <==> Accepts(h, doc, b, lock, target)
  {
    CodeOrderFree(h, a, b);
    Sorting.SameElements(a, b);
    assert FileIds(h, a) == FileIds(h, b);
  }

  lemma SameContent(h: Settings, e: FileEntry, f: DistFile, g: DistFile)
    requires Injective(h) && FileMatches(h, e, f) && FileMatches(h, e, g)
    ensures f.content == g.content
  {
    LinkIff(h, e, f);
    LinkIff(h, e, g);
    if f.content.Link? {
      assert LinkComment(f.content.target)[|LinkComment("")|..] == f.content.target;
      assert LinkComment(g.content.target)[|LinkComment("")|..] == g.content.target;
    }
  }

  lemma LinkIff(h: Settings, e: FileEntry, f: DistFile)
    requires FileMatches(h, e, f)
    ensures f.content.Link? <==> e.fileTypes == ["OTHER"] && LinkComment("") <= e.comment
  {
    if f.content.Link? { assert LinkComment("") <= LinkComment(f.content.target); }
  }

  /** A document pins down the files: accepted for two file sets, names and contents agree, and
      links are told from files. */
  lemma AcceptedFilesUnique(
    h: Settings, doc: Document, a: seq<DistFile>, b: seq<DistFile>, lockA: seq<LockEntry>, lockB: seq<LockEntry>,
    targetA: string, targetB: string)
    requires Injective(h) && Accepts(h, doc, a, lockA, targetA) && Accepts(h, doc, b, lockB, targetB)
    ensures forall f | f in a :: f in b
  {
    DistinctConcat(Map(doc.packages, PackageKey()), Map(doc.files, FileKey()));
    forall f | f in a ensures f in b {
      assert FileId(h, f.relative) in FileIds(h, b);
      var g :| g in b && FileId(h, g.relative) == FileId(h, f.relative);
      SameFile(h, f.relative, g.relative);
      FileLookup(h, doc.files, f);
      FileLookup(h, doc.files, g);
      SameContent(h, ById(doc.files, FileKey())[FileId(h, f.relative)], f, g);
    }
  }

  // ----- What a document says about the lock

  lemma OtherLock(
    h: Settings, doc: Document, dist: seq<DistFile>, lock: seq<LockEntry>, target: string, other: seq<LockEntry>)
    requires Accepts(h, doc, dist, lock, target) && LockOk(other)
    ensures Accepts(h, doc, dist, other, target) <==>
            && OwnVersions(other) == OwnVersions(lock)
            && (forall p | p in other ::
                  HasPackage(h, doc.packages, p) && CargoId(h, p) in Related(doc.relationships, "OTHER"))
  {
    DistinctConcat(Map(doc.packages, PackageKey()), Map(doc.files, FileKey()));
    RootLookup(h, doc.packages, dist, lock, target);
    RootLookup(h, doc.packages, dist, other, target);
    if CargoIds(h, other) <= Related(doc.relationships, "OTHER") {
      forall p | p in other ensures CargoId(h, p) in Related(doc.relationships, "OTHER") {
        assert CargoId(h, p) in CargoIds(h, other);
      }
    }
  }

  /** A lock lists this package, and its checksum where one is given. */
  ghost predicate Covered(p: LockEntry, lock: seq<LockEntry>) {
    exists q | q in lock ::
      && q.name == p.name && q.version == p.version && Source(q) == Source(p)
      && (p.checksum.Some? ==> q.checksum == p.checksum)
  }

  lemma LockPackageMatches(h: Settings, q: LockEntry, p: LockEntry)
    requires q.name == p.name && q.version == p.version && Source(q) == Source(p)
    ensures PackageMatches(LockPackage(h, q), p) <==> (p.checksum.Some? ==> q.checksum == p.checksum)
  {
    if q.checksum.Some? {
      assert LockPackage(h, q).checksums == [Checksum("SHA256", q.checksum.value)];
    }
  }

  /** An augmented document has an entry and a relationship for a package if and only if the lock
      it was made from covers the package. */
  lemma EntryIffCovered(h: Settings, kept: seq<Package>, root: Package, lock: seq<LockEntry>, p: LockEntry)
    requires Injective(h) && root.id == RELEASE
    requires forall e | e in kept :: e.id !in CargoIds(h, lock)
    ensures HasPackage(h, kept + [root] + Map(lock, ToPackage(h)), p) && CargoId(h, p) in CargoIds(h, lock)
            <==> Covered(p, lock)
  {
    var packages := kept + [root] + Map(lock, ToPackage(h));
    MapMembers(lock, ToPackage(h));
    if Covered(p, lock) {
      var q :| q in lock && q.name == p.name && q.version == p.version && Source(q) == Source(p)
               && (p.checksum.Some? ==> q.checksum == p.checksum);
      LockPackageMatches(h, q, p);
      assert CargoId(h, q) == CargoId(h, p);
      assert ToPackage(h)(q) == LockPackage(h, q);
      assert LockPackage(h, q) in packages;
    }
    if HasPackage(h, packages, p) && CargoId(h, p) in CargoIds(h, lock) {
      var e :| e in packages && e.id == CargoId(h, p) && PackageMatches(e, p);
      Families(h, "", p);
      assert e in Map(lock, ToPackage(h));
      var q :| q in lock && ToPackage(h)(q) == e;
      SamePackage(h, q, p);
      LockPackageMatches(h, q, p);
    }
  }

  /** A document made for one lock is accepted for another if and only if the other has the same
      workspace version and lists nothing the first does not cover. */
  lemma AcceptedLockIff(
    h: Settings, doc: Document, dist: seq<DistFile>, lock: seq<LockEntry>, target: string, other: seq<LockEntry>)
    requires Injective(h) && |OwnVersions(lock)| == 1 && LockOk(other)
    requires Accepts(h, Augmented(h, doc, dist, lock, target), dist, lock, target)
    ensures Accepts(h, Augmented(h, doc, dist, lock, target), dist, other, target) <==>
            OwnVersions(other) == OwnVersions(lock) && forall p | p in other :: Covered(p, lock)
  {
    var gone, made := Generated(h, dist, lock), Augmented(h, doc, dist, lock, target);
    OtherLock(h, made, dist, lock, target, other);
    AugmentedRelated(h, doc.relationships, gone, dist, lock);
    FilterMembers(doc.packages, KeepPackage(gone));
    forall p | p in other
      ensures HasPackage(h, made.packages, p) && CargoId(h, p) in Related(made.relationships, "OTHER")
              <==> Covered(p, lock)
    {
      EntryIffCovered(h, Filter(doc.packages, KeepPackage(gone)), Root(h, dist, OwnVersions(lock)[0], target), lock, p);
    }
  }

  lemma {:induction false} OwnVersionsConcat(a: seq<LockEntry>, b: seq<LockEntry>)
    ensures OwnVersions(a + b) == OwnVersions(a) + OwnVersions(b)
  {
    if a == [] {
      assert a + b == b;
    } else {
      assert (a + b)[1..] == a[1..] + b;
      OwnVersionsConcat(a[1..], b);
      Associative(if a[0].name == "greppy" && a[0].source.None? then [a[0].version] else [],
                  OwnVersions(a[1..]), OwnVersions(b));
    }
  }

  /** Such a document does not pin down the lock: it is as good for the lock without a dependency,
      or without the checksum of one. */
  lemma DroppedDependencyAccepted(
    h: Settings, doc: Document, dist: seq<DistFile>, front: seq<LockEntry>, p: LockEntry, back: seq<LockEntry>,
    target: string)
    requires Injective(h) && p.source.Some? && |OwnVersions(front + [p] + back)| == 1
    requires var made := Augmented(h, doc, dist, front + [p] + back, target);
             Accepts(h, made, dist, front + [p] + back, target)
    ensures var made := Augmented(h, doc, dist, front + [p] + back, target);
            && Accepts(h, made, dist, front + back, target)
            && Accepts(h, made, dist, front + [p.(checksum := None)] + back, target)
  {
    var lock, bare := front + [p] + back, p.(checksum := None);
    ForeignVersion(front, p, back);
    ForeignVersion(front, bare, back);
    Members(front, p, bare, back);
    SmallerAccepted(h, doc, dist, lock, target, front + back);
    SmallerAccepted(h, doc, dist, lock, target, front + [bare] + back);
  }

  lemma ForeignVersion(front: seq<LockEntry>, p: LockEntry, back: seq<LockEntry>)
    requires p.source.Some?
    ensures OwnVersions(front + [p] + back) == OwnVersions(front + back)
  {
    OwnVersionsConcat(front + [p], back);
    OwnVersionsConcat(front, [p]);
    OwnVersionsConcat(front, back);
    assert OwnVersions([p]) == [];
  }

  lemma Members(front: seq<LockEntry>, p: LockEntry, bare: LockEntry, back: seq<LockEntry>)
    ensures p in front + [p] + back
    ensures forall q | q in front + back :: q in front + [p] + back
    ensures forall q | q in front + [bare] + back :: q == bare || q in front + [p] + back
  {
  }

  lemma SmallerAccepted(
    h: Settings, doc: Document, dist: seq<DistFile>, lock: seq<LockEntry>, target: string, other: seq<LockEntry>)
    requires Injective(h) && |OwnVersions(lock)| == 1 && OwnVersions(other) == OwnVersions(lock)
    requires Accepts(h, Augmented(h, doc, dist, lock, target), dist, lock, target)
    requires forall p | p in other :: p in lock || exists q | q in lock :: p == q.(checksum := None)
    ensures Accepts(h, Augmented(h, doc, dist, lock, target), dist, other, target)
  {
    SmallerLock(lock, other);
    AcceptedLockIff(h, doc, dist, lock, target, other);
  }

  lemma SmallerLock(lock: seq<LockEntry>, other: seq<LockEntry>)
    requires LockOk(lock) && |OwnVersions(other)| == 1
    requires forall p | p in other :: p in lock || exists q | q in lock :: p == q.(checksum := None)
    ensures LockOk(other) && forall p | p in other :: Covered(p, lock)
  {
    forall p | p in other ensures Covered(p, lock) && p.name != "" && p.version != "" {
      if p in lock {
      } else {
        var q :| q in lock && p == q.(checksum := None);
      }
    }
  }

  // ----- Any run of augmentations

  datatype Release = Release(dist: seq<DistFile>, lock: seq<LockEntry>, target: string)

  ghost predicate Fit(r: Release) {
    && r.dist != [] && NamesDistinct(r.dist)
    && LockOk(r.lock) && LockDistinct(r.lock) && |OwnVersions(r.lock)| == 1
    && forall p | p in r.lock :: ChecksumOk(p)
  }

  ghost function AugmentAll(h: Settings, doc: Document, releases: seq<Release>): (r: Document)
    requires forall i | 0 <= i < |releases| :: Fit(releases[i])
  {
    if releases == [] then doc
    else
      var last := releases[|releases| - 1];
      assert Fit(last);
      Augmented(h, AugmentAll(h, doc, releases[..|releases| - 1]), last.dist, last.lock, last.target)
  }

  /** From a document with good identifiers every run of augmentations ends in one that is
      accepted for its last release. */
  lemma {:induction false} RunAccepted(h: Settings, doc: Document, releases: seq<Release>)
    requires Injective(h) && HeaderOk(doc.header) && GoodIds(Identifiers(doc))
    requires forall i | 0 <= i < |releases| :: Fit(releases[i])
    ensures var end := AugmentAll(h, doc, releases);
            && HeaderOk(end.header) && GoodIds(Identifiers(end))
            && (releases != [] ==>
                  var last := releases[|releases| - 1]; Accepts(h, end, last.dist, last.lock, last.target))
  {
    if releases == [] {
    } else {
      var init, last := releases[..|releases| - 1], releases[|releases| - 1];
      RunAccepted(h, doc, init);
      var before := AugmentAll(h, doc, init);
      SurvivorsGood(h, before, last.dist, last.lock);
      AugmentedAcceptedIff(h, before, last.dist, last.lock, last.target);
    }
  }

  /** No run loses a package that none of its releases generates. */
  lemma {:induction false} RunKeepsForeign(h: Settings, doc: Document, releases: seq<Release>, e: Package)
    requires forall i | 0 <= i < |releases| :: Fit(releases[i])
    requires e in doc.packages
    requires forall i | 0 <= i < |releases| :: e.id !in Generated(h, releases[i].dist, releases[i].lock)
    ensures e in AugmentAll(h, doc, releases).packages
  {
    if releases == [] {
    } else {
      var init, last := releases[..|releases| - 1], releases[|releases| - 1];
      RunKeepsForeign(h, doc, init, e);
      FilterMembers(AugmentAll(h, doc, init).packages, KeepPackage(Generated(h, last.dist, last.lock)));
    }
  }
}
