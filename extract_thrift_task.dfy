/**
 * The extract task: every dependency artifact is classified by what it is
 * and by the end of its path, and the schema files it holds are copied
 * into one output directory, later artifacts overwriting earlier ones.
 */
module ExtractThriftTask {
  import opened Seqs
  import opened Strings
  import opened Paths

  type Content = seq<bv8>

  /** A file inside a directory or an archive, by its path relative to the root. */
  datatype Entry = Entry(relativePath: Path, content: Content)

  /**
   * A dependency artifact as the file system shows it: its path, whether it
   * is a directory, its bytes when it is a plain file, and the files it
   * holds when read as a directory, a zip tree or a tar tree.
   */
  datatype Artifact = Artifact(path: Path, isDirectory: bool, content: Content, tree: seq<Entry>)

  datatype ArtifactKind = DirectoryKind | ThriftFileKind | ZipKind | TarKind | UnsupportedKind

  /** Paths opened as zip trees. */
  predicate IsZipPath(p: Path) {
    EndsWith(p, ".jar") || EndsWith(p, ".zip")
  }

  /** Paths opened as tar trees, compressed or not. */
  predicate IsTarPath(p: Path) {
    EndsWith(p, ".tar") || EndsWith(p, ".tar.gz") || EndsWith(p, ".tar.bz2") || EndsWith(p, ".tgz")
  }

  /** A `.thrift` path ends in `t`, which no zip or tar ending does. */
  lemma ThriftExcludesArchives(p: Path)
    ensures MatchesThriftPattern(p) ==> !IsZipPath(p) && !IsTarPath(p)
  {
    EndsWithAt(p, ThriftSuffix, 0);
    EndsWithAt(p, ".jar", 0);
    EndsWithAt(p, ".zip", 0);
    EndsWithAt(p, ".tar", 0);
    EndsWithAt(p, ".tar.gz", 0);
    EndsWithAt(p, ".tar.bz2", 0);
    EndsWithAt(p, ".tgz", 0);
  }

  /** The zip endings and the tar endings differ in their last character, or for `.jar` and `.tar` in the third from last. */
  lemma ZipExcludesTar(p: Path)
    ensures IsZipPath(p) ==> !IsTarPath(p)
  {
    EndsWithAt(p, ".jar", 0);
    EndsWithAt(p, ".zip", 0);
    EndsWithAt(p, ".tar", 0);
    EndsWithAt(p, ".tar.gz", 0);
    EndsWithAt(p, ".tar.bz2", 0);
    EndsWithAt(p, ".tgz", 0);
    EndsWithAt(p, ".jar", 2);
    EndsWithAt(p, ".tar", 2);
  }

  /** The `.thrift`, zip and tar endings exclude one another, so the order they are tried in does not matter. */
  lemma HandlerEndingsExclusive(p: Path)
    ensures MatchesThriftPattern(p) ==> !IsZipPath(p) && !IsTarPath(p)
    ensures IsZipPath(p) ==> !IsTarPath(p)
  {
    ThriftExcludesArchives(p);
    ZipExcludesTar(p);
  }

  /**
   * The handler for an artifact. Tried in order: directory, `.thrift`,
   * zip, tar; anything else is unsupported. A directory is a directory
   * whatever its name, and since the endings exclude one another each
   * other kind is decided by its own endings alone.
   */
  function Classify(a: Artifact): (k: ArtifactKind)
    ensures a.isDirectory ==> k == DirectoryKind
    ensures !a.isDirectory ==> (k == ThriftFileKind <==> MatchesThriftPattern(a.path))
    ensures !a.isDirectory ==> (k == ZipKind <==> IsZipPath(a.path))
    ensures !a.isDirectory ==> (k == TarKind <==> IsTarPath(a.path))
    ensures k == UnsupportedKind <==>
      !a.isDirectory && !MatchesThriftPattern(a.path) && !IsZipPath(a.path) && !IsTarPath(a.path)
  {
    HandlerEndingsExclusive(a.path);
    if a.isDirectory then DirectoryKind
    else if EndsWith(a.path, ".thrift") then ThriftFileKind
    else if EndsWith(a.path, ".jar") || EndsWith(a.path, ".zip") then ZipKind
    else if EndsWith(a.path, ".tar") || EndsWith(a.path, ".tar.gz") || EndsWith(a.path, ".tar.bz2") || EndsWith(a.path, ".tgz") then TarKind
    else UnsupportedKind
  }

  /** Files and warnings produced so far. */
  datatype Extraction = Extraction(files: map<Path, Content>, warnings: seq<string>)

  const UnsupportedPrefix := "Skipping unsupported file type '"
  const UnsupportedSuffix := "'; handles only jar, tar, tar.gz, tar.bz2 & tgz"

  function UnsupportedWarning(path: Path): string {
    UnsupportedPrefix + path + UnsupportedSuffix
  }

  predicate IsThriftEntry(e: Entry) {
    MatchesThriftPattern(e.relativePath)
  }

  /** The entries of a tree that the schema include pattern selects. */
  function ThriftEntries(tree: seq<Entry>): seq<Entry> {
    Filter(tree, IsThriftEntry)
  }

  /** Copies `entries` into `outDir` keeping their relative paths; a later entry overwrites an earlier one. */
  function CopyEntries(files: map<Path, Content>, outDir: Path, entries: seq<Entry>): (r: map<Path, Content>)
    ensures forall k :: k in r <==> k in files || exists e :: e in entries && Resolve(outDir, e.relativePath) == k
    ensures forall k :: k in files && (forall e :: e in entries ==> Resolve(outDir, e.relativePath) != k) ==> r[k] == files[k]
    decreases |entries|
  {
    if |entries| == 0 then files
    else
      var e := entries[0];
      assert forall x :: x in entries[1..] ==> x in entries;
      CopyEntries(files[Resolve(outDir, e.relativePath) := e.content], outDir, entries[1..])
  }

  /**
   * What one artifact adds to the output directory and to the warnings: a
   * directory, zip or tar tree has its schema entries copied, a schema
   * file is copied under its own name, anything else only warns.
   */
  function ExtractOne(x: Extraction, outDir: Path, a: Artifact): (r: Extraction)
    ensures Grows(x, r)
    ensures |r.warnings| <= |x.warnings| + 1
  {
    match Classify(a)
    case ThriftFileKind => Extraction(x.files[Resolve(outDir, FileName(a.path)) := a.content], x.warnings)
    case UnsupportedKind => Extraction(x.files, x.warnings + [UnsupportedWarning(a.path)])
    case DirectoryKind | ZipKind | TarKind => Extraction(CopyEntries(x.files, outDir, ThriftEntries(a.tree)), x.warnings)
  }

  /** The artifacts processed one after another, in order. */
  function ExtractAll(x: Extraction, outDir: Path, artifacts: seq<Artifact>): (r: Extraction)
    ensures Grows(x, r)
  {
    GrowsPreorder();
    FoldLeftGrows(x, (y, a) => ExtractOne(y, outDir, a), artifacts, Grows);
    FoldLeft(x, (y, a) => ExtractOne(y, outDir, a), artifacts)
  }

  /** No file is removed and no warning is taken back. */
  predicate Grows(x: Extraction, y: Extraction) {
    x.files.Keys <= y.files.Keys && x.warnings <= y.warnings
  }

  lemma GrowsPreorder()
    ensures forall x :: Grows(x, x)
    ensures forall x, y, z :: Grows(x, y) && Grows(y, z) ==> Grows(x, z)
  {
  }

  /**
   * The task action: process the input artifacts in order into the output
   * directory, whose earlier contents `existing` are left in place unless
   * overwritten.
   */
  method Extract(inputFiles: seq<Artifact>, outputDirectory: Path, existing: map<Path, Content>)
    returns (files: map<Path, Content>, warnings: seq<string>)
    ensures Extraction(files, warnings) == ExtractAll(Extraction(existing, []), outputDirectory, inputFiles)
    ensures forall k :: k in files ==> k in existing || (IsUnder(outputDirectory, k) && MatchesThriftPattern(k))
    ensures existing.Keys <= files.Keys
  {
    files, warnings := existing, [];
    for i := 0 to |inputFiles|
      invariant Extraction(files, warnings) == ExtractAll(Extraction(existing, []), outputDirectory, inputFiles[..i])
    {
      assert inputFiles[..i + 1][..i] == inputFiles[..i];
      var a := inputFiles[i];
      if a.isDirectory {
        files := CopyEntries(files, outputDirectory, ThriftEntries(a.tree));
      } else if EndsWith(a.path, ".thrift") {
        files := files[Resolve(outputDirectory, FileName(a.path)) := a.content];
      } else if EndsWith(a.path, ".jar") || EndsWith(a.path, ".zip") {
        files := CopyEntries(files, outputDirectory, ThriftEntries(a.tree));
      } else if EndsWith(a.path, ".tar") || EndsWith(a.path, ".tar.gz") || EndsWith(a.path, ".tar.bz2") || EndsWith(a.path, ".tgz") {
        files := CopyEntries(files, outputDirectory, ThriftEntries(a.tree));
      } else {
        warnings := warnings + [UnsupportedWarning(a.path)];
      }
    }
    assert inputFiles[..|inputFiles|] == inputFiles;
    ExtractWritesThriftFilesIntoOutput(Extraction(existing, []), outputDirectory, inputFiles);
  }

  /** `p` lies directly or indirectly inside directory `dir`. */
  predicate IsUnder(dir: Path, p: Path) {
    |dir| + 1 <= |p| && p[..|dir| + 1] == dir + "/"
  }

  /** Every file one artifact writes is a `.thrift` file inside the output directory; nothing is deleted. */
  lemma ExtractOneWritesThriftFiles(x: Extraction, outDir: Path, a: Artifact)
    ensures var y := ExtractOne(x, outDir, a);
      && x.files.Keys <= y.files.Keys
      && forall k :: k in y.files ==> k in x.files || (IsUnder(outDir, k) && MatchesThriftPattern(k))
  {
    var y := ExtractOne(x, outDir, a);
    match Classify(a)
    case ThriftFileKind =>
      FileNameKeepsThriftPattern(a.path);
      ResolveKeepsThriftPattern(outDir, FileName(a.path));
    case UnsupportedKind =>
    case _ =>
      forall k | k in y.files && k !in x.files
        ensures IsUnder(outDir, k) && MatchesThriftPattern(k)
      {
        var e :| e in ThriftEntries(a.tree) && Resolve(outDir, e.relativePath) == k;
        ResolveKeepsThriftPattern(outDir, e.relativePath);
      }
  }

  lemma {:induction false} ExtractWritesThriftFilesIntoOutput(x: Extraction, outDir: Path, artifacts: seq<Artifact>)
    ensures var y := ExtractAll(x, outDir, artifacts);
      && x.files.Keys <= y.files.Keys
      && forall k :: k in y.files ==> k in x.files || (IsUnder(outDir, k) && MatchesThriftPattern(k))
  {
    if |artifacts| > 0 {
      var n := |artifacts| - 1;
      ExtractWritesThriftFilesIntoOutput(x, outDir, artifacts[..n]);
      ExtractOneWritesThriftFiles(ExtractAll(x, outDir, artifacts[..n]), outDir, artifacts[n]);
    }
  }

  /** A directory, zip or tar artifact adds exactly the paths of its `.thrift` entries. */
  lemma TreeArtifactAddsItsThriftEntries(x: Extraction, outDir: Path, a: Artifact)
    requires Classify(a) in {DirectoryKind, ZipKind, TarKind}
    ensures var y := ExtractOne(x, outDir, a);
      && y.warnings == x.warnings
      && forall k :: k in y.files <==>
           k in x.files || exists e :: e in a.tree && MatchesThriftPattern(e.relativePath) && Resolve(outDir, e.relativePath) == k
  {
  }

  /** A `.thrift` file artifact is copied as-is under its own name. */
  lemma ThriftFileCopiedAsIs(x: Extraction, outDir: Path, a: Artifact)
    requires !a.isDirectory && MatchesThriftPattern(a.path)
    ensures var y := ExtractOne(x, outDir, a);
      && y.warnings == x.warnings
      && y.files == x.files[Resolve(outDir, FileName(a.path)) := a.content]
  {
  }

  /** Anything unsupported writes nothing and adds one warning naming it. */
  lemma UnsupportedArtifactOnlyWarns(x: Extraction, outDir: Path, a: Artifact)
    requires Classify(a) == UnsupportedKind
    ensures ExtractOne(x, outDir, a) == Extraction(x.files, x.warnings + [UnsupportedWarning(a.path)])
  {
  }

  /** With distinct relative paths, every copied entry keeps its own content. */
  lemma {:induction false} CopyEntriesKeepsContents(files: map<Path, Content>, outDir: Path, entries: seq<Entry>)
    requires forall i, j :: 0 <= i < j < |entries| ==> entries[i].relativePath != entries[j].relativePath
    ensures forall e :: e in entries ==> CopyEntries(files, outDir, entries)[Resolve(outDir, e.relativePath)] == e.content
    decreases |entries|
  {
    if |entries| > 0 {
      var e0 := entries[0];
      var rest := entries[1..];
      var files' := files[Resolve(outDir, e0.relativePath) := e0.content];
      CopyEntriesKeepsContents(files', outDir, rest);
      forall e | e in rest ensures Resolve(outDir, e.relativePath) != Resolve(outDir, e0.relativePath) {
        var j :| 0 <= j < |rest| && rest[j] == e;
        assert entries[j + 1] == e;
        ResolveInjective(outDir, e.relativePath, e0.relativePath);
      }
    }
  }

  predicate IsUnsupported(a: Artifact) {
    Classify(a) == UnsupportedKind
  }

  /** One artifact adds a warning exactly when it is unsupported. */
  lemma ExtractOneWarnings(x: Extraction, outDir: Path, a: Artifact)
    ensures ExtractOne(x, outDir, a).warnings ==
      x.warnings + (if IsUnsupported(a) then [UnsupportedWarning(a.path)] else [])
  {
  }

  /** One warning per unsupported artifact, in input order, and no other warning. */
  lemma {:induction false} WarningsNameUnsupportedArtifacts(x: Extraction, outDir: Path, artifacts: seq<Artifact>)
    ensures var y := ExtractAll(x, outDir, artifacts);
      var skipped := Filter(artifacts, IsUnsupported);
      && |y.warnings| == |x.warnings| + |skipped|
      && y.warnings[..|x.warnings|] == x.warnings
      && forall i :: 0 <= i < |skipped| ==> y.warnings[|x.warnings| + i] == UnsupportedWarning(skipped[i].path)
  {
    if |artifacts| == 0 {
      assert x.warnings[..|x.warnings|] == x.warnings;
    } else {
      var n := |artifacts| - 1;
      var last := artifacts[n];
      var prev := ExtractAll(x, outDir, artifacts[..n]);
      var before := Filter(artifacts[..n], IsUnsupported);
      WarningsNameUnsupportedArtifacts(x, outDir, artifacts[..n]);
      FilterSnoc(artifacts, n, IsUnsupported);
      assert artifacts[..n + 1] == artifacts;
      var skipped := Filter(artifacts, IsUnsupported);
      assert skipped == before + (if IsUnsupported(last) then [last] else []);
      var y := ExtractOne(prev, outDir, last);
      assert y == ExtractAll(x, outDir, artifacts);
      ExtractOneWarnings(prev, outDir, last);
      var extra := if IsUnsupported(last) then [UnsupportedWarning(last.path)] else [];
      assert y.warnings == prev.warnings + extra;
      assert y.warnings[..|x.warnings|] == prev.warnings[..|x.warnings|];
      forall i | 0 <= i < |skipped|
        ensures y.warnings[|x.warnings| + i] == UnsupportedWarning(skipped[i].path)
      {
        if i < |before| {
          assert y.warnings[|x.warnings| + i] == prev.warnings[|x.warnings| + i];
        }
      }
    }
  }

  /** Processing two lists one after the other is processing their concatenation. */
  lemma ExtractAllConcat(x: Extraction, outDir: Path, first: seq<Artifact>, second: seq<Artifact>)
    ensures ExtractAll(x, outDir, first + second) == ExtractAll(ExtractAll(x, outDir, first), outDir, second)
  {
    FoldLeftConcat(x, (y, a) => ExtractOne(y, outDir, a), first, second);
  }

  /** Copying over a larger directory leaves the extra files alone and writes the same files. */
  lemma {:induction false} CopyEntriesOver(m: map<Path, Content>, n: map<Path, Content>, outDir: Path, entries: seq<Entry>)
    ensures CopyEntries(m + n, outDir, entries) == m + CopyEntries(n, outDir, entries)
    decreases |entries|
  {
    if |entries| > 0 {
      var e := entries[0];
      var k := Resolve(outDir, e.relativePath);
      assert (m + n)[k := e.content] == m + n[k := e.content];
      CopyEntriesOver(m, n[k := e.content], outDir, entries[1..]);
    }
  }

  /** Writing one file over a larger directory leaves the extra files alone. */
  lemma UpdateOver(m: map<Path, Content>, n: map<Path, Content>, k: Path, v: Content)
    ensures (m + n)[k := v] == m + n[k := v]
  {
  }

  lemma ExtractOneOver(m: map<Path, Content>, n: map<Path, Content>, w: seq<string>, outDir: Path, a: Artifact)
    ensures ExtractOne(Extraction(m + n, w), outDir, a) ==
      var y := ExtractOne(Extraction(n, w), outDir, a); Extraction(m + y.files, y.warnings)
  {
    var kind := Classify(a);
    if kind == ThriftFileKind {
      UpdateOver(m, n, Resolve(outDir, FileName(a.path)), a.content);
    } else if kind != UnsupportedKind {
      CopyEntriesOver(m, n, outDir, ThriftEntries(a.tree));
    }
  }

  /** What a run writes does not depend on what the output directory held before. */
  lemma {:induction false} ExtractAllOver(m: map<Path, Content>, n: map<Path, Content>, w: seq<string>, outDir: Path, artifacts: seq<Artifact>)
    ensures ExtractAll(Extraction(m + n, w), outDir, artifacts) ==
      var y := ExtractAll(Extraction(n, w), outDir, artifacts); Extraction(m + y.files, y.warnings)
  {
    if |artifacts| > 0 {
      var k := |artifacts| - 1;
      ExtractAllOver(m, n, w, outDir, artifacts[..k]);
      var y := ExtractAll(Extraction(n, w), outDir, artifacts[..k]);
      ExtractOneOver(m, y.files, y.warnings, outDir, artifacts[k]);
    }
  }

  /**
   * Running the extraction again over its own output changes nothing:
   * each written file gets the same content from the same last writer.
   */
  lemma ExtractionIdempotent(existing: map<Path, Content>, outDir: Path, artifacts: seq<Artifact>)
    ensures var once := ExtractAll(Extraction(existing, []), outDir, artifacts).files;
      ExtractAll(Extraction(once, []), outDir, artifacts).files == once
  {
    var written := ExtractAll(Extraction(map[], []), outDir, artifacts).files;
    ExtractAllOver(existing, map[], [], outDir, artifacts);
    assert existing + map[] == existing;
    var once := existing + written;
    ExtractAllOver(once, map[], [], outDir, artifacts);
    assert once + map[] == once;
    assert once + written == once;
  }
}
