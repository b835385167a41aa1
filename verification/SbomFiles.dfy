/** The SPDX file on disk: verifying it against a release, and augmenting it in place. */
module SbomFiles {
  import opened Wrappers
  import opened KeyedLists
  import opened Spdx
  import Sorting

  datatype Refusal =
    | BadInput
    | BadIdentifiers
    | NoReleasePackage
    | WrongReleasePackage
    | NotDescribed
    | WrongContents
    | WrongFile(relative: string)
    | WrongCode
    | WrongPackage(id: string)
    | BadChecksum(name: string)

  /** _checksum_map(entry).get(algorithm) */
  method ChecksumMap(checksums: seq<Checksum>) returns (m: map<string, string>)
    ensures forall a: string :: (if a in m then Some(m[a]) else None) == ChecksumOf(checksums, a)
  {
    m := map[];
    assert checksums[..0] == [];
    for i := 0 to |checksums|
      invariant forall a: string :: (if a in m then Some(m[a]) else None) == ChecksumOf(checksums[..i], a)
    {
      assert checksums[..i + 1][..i] == checksums[..i];
      m := m[checksums[i].algorithm := checksums[i].value];
    }
    assert checksums[..|checksums|] == checksums;
  }

  /** Whether the entry found for a release file agrees with it. */
  method CheckFile(h: Settings, e: FileEntry, f: DistFile) returns (ok: bool)
    ensures ok <==> FileMatches(h, e, f)
  {
    if e.fileName != "./" + f.relative { return false; }
    var checksums := ChecksumMap(e.checksums);
    var bytes := ReleaseBytes(h, f.content);
    assert forall a: string :: a in checksums ==> ChecksumOf(e.checksums, a) == Some(checksums[a]);
    assert ("SHA1" in checksums) == ChecksumOf(e.checksums, "SHA1").Some?;
    assert ("SHA256" in checksums) == ChecksumOf(e.checksums, "SHA256").Some?;
    if "SHA1" !in checksums || checksums["SHA1"] != h.sha1(bytes) { return false; }
    if "SHA256" !in checksums || checksums["SHA256"] != h.sha256(bytes) { return false; }
    if f.content.Regular? {
      if e.fileTypes == ["OTHER"] && LinkComment("") <= e.comment { return false; }
    } else if e.fileTypes != ["OTHER"] || e.comment != LinkComment(f.content.target) {
      return false;
    }
    return true;
  }

  /** Whether the entry found for a locked package agrees with it. */
  method CheckPackage(e: Package, p: LockEntry) returns (ok: bool)
    ensures ok <==> PackageMatches(e, p)
  {
    if e.name != p.name || e.version != p.version { return false; }
    if e.comment != LockComment(Source(p)) { return false; }
    if p.checksum.Some? {
      var checksums := ChecksumMap(e.checksums);
      assert ("SHA256" in checksums) == ChecksumOf(e.checksums, "SHA256").Some?;
      if "SHA256" !in checksums || checksums["SHA256"] != p.checksum.value { return false; }
    }
    return true;
  }

  /** The file loop: every release file has its entry, and the digests are gathered in order. */
  method CheckFiles(h: Settings, files: seq<FileEntry>, dist: seq<DistFile>)
    returns (wrong: Option<string>, digests: seq<string>)
    requires Distinct(Map(files, FileKey()))
    ensures wrong.None? <==> forall f | f in dist :: HasFile(h, files, f)
    ensures wrong.None? ==> digests == Map(dist, Sha1Of(h))
  {
    var fileById := ById(files, FileKey());
    digests := [];
    for i := 0 to |dist|
      invariant forall f | f in dist[..i] :: HasFile(h, files, f)
      invariant digests == Map(dist[..i], Sha1Of(h))
    {
      var f := dist[i];
      var id := FileId(h, f.relative);
      FileLookup(h, files, f);
      assert f in dist;
      if id !in fileById { return Some(f.relative), digests; }
      var ok := CheckFile(h, fileById[id], f);
      if !ok { return Some(f.relative), digests; }
      digests := digests + [h.sha1(ReleaseBytes(h, f.content))];
      assert dist[..i + 1] == dist[..i] + [f];
    }
    assert dist[..|dist|] == dist;
    return None, digests;
  }

  /** The lock loop: every locked package has its entry and its qualified relationship. */
  method CheckLock(h: Settings, doc: Document, lock: seq<LockEntry>, qualified: bool) returns (wrong: Option<string>)
    requires Distinct(Map(doc.packages, PackageKey()))
    ensures wrong.None? <==> forall p | p in lock ::
              HasPackage(h, doc.packages, p) && CargoId(h, p) in Related(doc.relationships, "OTHER") && qualified
  {
    var packageById := ById(doc.packages, PackageKey());
    var locked := Related(doc.relationships, "OTHER");
    for i := 0 to |lock|
      invariant forall p | p in lock[..i] :: HasPackage(h, doc.packages, p) && CargoId(h, p) in locked && qualified
    {
      var p := lock[i];
      var id := CargoId(h, p);
      PackageLookup(h, doc.packages, p);
      assert p in lock;
      if id !in packageById { return Some(id); }
      var ok := CheckPackage(packageById[id], p);
      if !ok || id !in locked || !qualified { return Some(id); }
      assert lock[..i + 1] == lock[..i] + [p];
    }
    assert lock[..|lock|] == lock;
    return None;
  }

  method VerifySpdx(h: Settings, doc: Document, dist: seq<DistFile>, lock: seq<LockEntry>, target: string)
    returns (r: Result<(), Refusal>)
    ensures r.Ok? <==> Accepts(h, doc, dist, lock, target)
  {
    if !HeaderOk(doc.header) || !LockOk(lock) || dist == [] { return Err(BadInput); }
    var ids := Identifiers(doc);
    DistinctIff(ids);
    if "" in ids || |ids| != |set x | x in ids| { return Err(BadIdentifiers); }
    DistinctConcat(Map(doc.packages, PackageKey()), Map(doc.files, FileKey()));
    RootLookup(h, doc.packages, dist, lock, target);
    var packageById := ById(doc.packages, PackageKey());
    if RELEASE !in packageById { return Err(NoReleasePackage); }
    var root := packageById[RELEASE];
    if root.name != "greppy" || OwnVersions(lock) != [root.version] { return Err(WrongReleasePackage); }
    if !Infix(target, root.comment) || !root.filesAnalyzed { return Err(WrongReleasePackage); }
    if RELEASE !in doc.describes { return Err(NotDescribed); }
    if Related(doc.relationships, "CONTAINS") != FileIds(h, dist) { return Err(WrongContents); }
    var file, digests := CheckFiles(h, doc.files, dist);
    if file.Some? { return Err(WrongFile(file.value)); }
    var code := h.textSha1(Concat(Sorting.Sort(Sorting.ByText(), digests)));
    if root.code != code { return Err(WrongCode); }
    var package := CheckLock(h, doc, lock, Infix("do not assert", root.comment));
    LockChecked(h, doc, lock, Infix("do not assert", root.comment));
    if package.Some? { return Err(WrongPackage(package.value)); }
    return Ok(());
  }

  lemma LockChecked(h: Settings, doc: Document, lock: seq<LockEntry>, qualified: bool)
    requires lock != []
    ensures (forall p | p in lock ::
               HasPackage(h, doc.packages, p) && CargoId(h, p) in Related(doc.relationships, "OTHER") && qualified)
            <==>
            && (forall p | p in lock :: HasPackage(h, doc.packages, p))
            && CargoIds(h, lock) <= Related(doc.relationships, "OTHER") && qualified
  {
    assert lock[0] in lock;
    if CargoIds(h, lock) <= Related(doc.relationships, "OTHER") {
      forall p | p in lock ensures CargoId(h, p) in Related(doc.relationships, "OTHER") {
        assert CargoId(h, p) in CargoIds(h, lock);
      }
    }
  }

  class SbomFile {
    var document: Document

    constructor (document: Document)
      ensures this.document == document
    {
      this.document := document;
    }

    /** Rewrites the file for a release.  Refused inputs leave it alone; once written, it is
        verified, and a refusal then leaves the written document behind. */
    method AugmentSpdx(h: Settings, dist: seq<DistFile>, lock: seq<LockEntry>, target: string)
      returns (r: Result<(), Refusal>)
      modifies this
      ensures !CanAugment(old(document), dist, lock) ==> r.Err? && document == old(document)
      ensures CanAugment(old(document), dist, lock) ==>
                && document == Augmented(h, old(document), dist, lock, target)
                && (r.Ok? <==> Accepts(h, document, dist, lock, target))
    {
      if !HeaderOk(document.header) || !LockOk(lock) || dist == [] { return Err(BadInput); }
      var gone := Generated(h, dist, lock);
      var packages := Filter(document.packages, KeepPackage(gone));
      var files := Filter(document.files, KeepFile(gone));
      var relationships := Filter(document.relationships, KeepRelationship(gone));
      var describes := Filter(document.describes, KeepId(gone)) + [RELEASE];
      if |OwnVersions(lock)| != 1 { return Err(BadInput); }
      packages := packages + [Root(h, dist, OwnVersions(lock)[0], target)];
      files, relationships := AddFiles(h, dist, files, relationships);
      var bad;
      bad, packages, relationships := AddPackages(h, lock, packages, relationships);
      if bad.Some? { return Err(BadChecksum(bad.value)); }
      document := Document(document.header, packages, files, relationships, describes);
      r := VerifySpdx(h, document, dist, lock, target);
    }
  }

  method AddFiles(h: Settings, dist: seq<DistFile>, files0: seq<FileEntry>, relationships0: seq<Relationship>)
    returns (files: seq<FileEntry>, relationships: seq<Relationship>)
    ensures files == files0 + Map(dist, ToFile(h))
    ensures relationships == relationships0 + Map(dist, ToContains(h))
  {
    files, relationships := files0, relationships0;
    for i := 0 to |dist|
      invariant files == files0 + Map(dist[..i], ToFile(h))
      invariant relationships == relationships0 + Map(dist[..i], ToContains(h))
    {
      files := files + [ReleaseFile(h, dist[i])];
      relationships := relationships + [Contains(h, dist[i])];
    }
    assert dist[..|dist|] == dist;
  }

  method AddPackages(h: Settings, lock: seq<LockEntry>, packages0: seq<Package>, relationships0: seq<Relationship>)
    returns (bad: Option<string>, packages: seq<Package>, relationships: seq<Relationship>)
    ensures bad.None? <==> forall p | p in lock :: ChecksumOk(p)
    ensures bad.None? ==> packages == packages0 + Map(lock, ToPackage(h))
    ensures bad.None? ==> relationships == relationships0 + Map(lock, ToLocks(h))
  {
    packages, relationships := packages0, relationships0;
    for i := 0 to |lock|
      invariant forall p | p in lock[..i] :: ChecksumOk(p)
      invariant packages == packages0 + Map(lock[..i], ToPackage(h))
      invariant relationships == relationships0 + Map(lock[..i], ToLocks(h))
    {
      assert lock[i] in lock;
      if !ChecksumOk(lock[i]) { return Some(lock[i].name), packages, relationships; }
      packages := packages + [LockPackage(h, lock[i])];
      relationships := relationships + [Locks(h, lock[i])];
      assert lock[..i + 1] == lock[..i] + [lock[i]];
    }
    assert lock[..|lock|] == lock;
    bad := None;
  }
}
