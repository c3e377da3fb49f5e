/**
 * ArtifactDownloader: resolves the URL of one artifact in a Maven-style
 * repository (group/artifact/version directories, with a metadata lookup
 * for snapshot versions) and decides where the downloaded file is stored.
 *
 * The remote repository is a value: the metadata documents it serves
 * (already parsed) and the artifact URLs it answers with status 200.
 */
module ArtifactDownloading {
  import opened Wrappers
  import opened Strings
  import opened Metadata
  import opened LocalFileName

  const HttpScheme: string := "http://"
  const SnapshotMarker: string := "SNAPSHOT"
  const MetadataFileName: string := "maven-metadata.xml"

  /** The configuration an artifact is resolved from. */
  datatype Coordinates = Coordinates(
    repository: string,
    groupId: string,
    artifactId: string,
    version: string,
    extension: string,
    classifier: Option<string>)

  /** A metadata document as the XML parser delivers it. */
  datatype MetadataDocument = Parsed(entries: seq<SnapshotVersion>) | Unparsable

  /**
   * What the remote repository serves: a URL absent from `metadata` or
   * `artifacts` is answered with a status other than 200.
   */
  datatype Repository = Repository(metadata: map<string, MetadataDocument>, artifacts: set<string>)

  /**
   * The ArtifactDownloaderExceptions of the downloader, grouped: the seven
   * places that throw one collapse into three kinds, with transport and
   * write failures folded into the "status other than 200" cases.
   */
  datatype Error =
    | MetadataFetchFailed(url: string)   // getMetadata: status other than 200
    | MetadataUnreadable(url: string)    // getVersionFromMetadata: the document does not parse
    | DownloadFailed(url: string)        // downloadFile: status other than 200

  /** What a call of download() leaves behind. */
  datatype Outcome =
    | Skipped                                        // disabled
    | Reported(error: Error)                         // the exception was caught and reported
    | Saved(folder: string, fileName: string, renamedTo: Option<string>)

  /** The repository as init leaves it: with an `http://` prefix. */
  function NormalizeRepository(repository: string): (r: string)
    ensures IsPrefix(HttpScheme, r)
    ensures IsPrefix(HttpScheme, repository) ==> r == repository
    ensures |r| >= |repository| && r[|r| - |repository|..] == repository
    ensures !IsPrefix(HttpScheme, repository) ==> |r| == |HttpScheme| + |repository|
  {
    if IsPrefix(HttpScheme, repository) then repository else HttpScheme + repository
  }

  /** Normalising twice is normalising once. */
  lemma NormalizeIdempotent(repository: string)
    ensures NormalizeRepository(NormalizeRepository(repository)) == NormalizeRepository(repository)
  {
  }

  /** Only the literal "http://" counts as a scheme: an https repository is prefixed all the same. */
  lemma ExampleHttpsPrefixed()
    ensures NormalizeRepository("https://repo.example") == "http://https://repo.example"
  {
    var r := "https://repo.example";
    assert !IsPrefix(HttpScheme, r) by {
      assert r[..|HttpScheme|][4] == 's' != HttpScheme[4];
    }
    assert HttpScheme + r == "http://https://repo.example";
  }

  /** A version is a snapshot when it contains "SNAPSHOT" anywhere. */
  predicate IsSnapshot(version: string) {
    Contains(version, SnapshotMarker)
  }

  /** Snapshot detection is containment at any position, not a suffix test. */
  lemma SnapshotAnywhere(before: string, after: string)
    ensures IsSnapshot(before + SnapshotMarker + after)
  {
    ContainsInfix(before, SnapshotMarker, after);
  }

  /** A version is a snapshot exactly when "SNAPSHOT" occurs at some index of it. */
  lemma SnapshotIffOccurs(version: string)
    ensures IsSnapshot(version) <==> exists i: nat :: OccursAt(version, SnapshotMarker, i)
  {
    ContainsIffOccurs(version, SnapshotMarker);
  }

  /** "1.0-SNAPSHOT" and "SNAPSHOT-fix" both take the metadata path; "2.1.0" does not. */
  lemma ExampleSnapshots()
    ensures IsSnapshot("1.0-SNAPSHOT") && IsSnapshot("SNAPSHOT-fix") && !IsSnapshot("2.1.0")
  {
    assert "1.0-" + SnapshotMarker + "" == "1.0-SNAPSHOT";
    SnapshotAnywhere("1.0-", "");
    assert "" + SnapshotMarker + "-fix" == "SNAPSHOT-fix";
    SnapshotAnywhere("", "-fix");
    SnapshotIffOccurs("2.1.0");
  }

  /** `groupId.replace('.', '/')`: same length, no dot left, every other character kept. */
  function GroupPath(groupId: string): (r: string)
    ensures |r| == |groupId| && '.' !in r
    ensures forall i :: 0 <= i < |groupId| ==> r[i] == if groupId[i] == '.' then '/' else groupId[i]
  {
    Replace(groupId, '.', '/')
  }

  /** The directory holding the artifact: repo/group/path/artifactId/version/ */
  function DirectoryUrl(c: Coordinates): string {
    c.repository + "/" + GroupPath(c.groupId) + "/" + c.artifactId + "/" + c.version + "/"
  }

  /** The metadata document of a snapshot directory. */
  function MetadataUrl(c: Coordinates): string {
    DirectoryUrl(c) + MetadataFileName
  }

  /** The "-classifier" part of the file name. */
  function ClassifierSuffix(classifier: Option<string>): string {
    if HasClassifier(classifier) then "-" + classifier.value else ""
  }

  /** artifactId-actualVersion[-classifier].extension */
  function FileName(c: Coordinates, actualVersion: string): string {
    c.artifactId + "-" + actualVersion + ClassifierSuffix(c.classifier) + "." + c.extension
  }

  /** getVersionFromMetadata: the query's string value, or the parse failure. */
  function VersionFromMetadata(url: string, doc: MetadataDocument, extension: string,
                               classifier: Option<string>): Result<string, Error>
  {
    match doc
    case Unparsable => Err(MetadataUnreadable(url))
    case Parsed(entries) => Ok(SelectVersion(entries, extension, classifier))
  }

  /** The version written into the file name: the configured one, or the one the metadata names. */
  function ActualVersion(c: Coordinates, server: Repository): Result<string, Error> {
    if !IsSnapshot(c.version) then Ok(c.version)
    else
      var m := MetadataUrl(c);
      if m !in server.metadata then Err(MetadataFetchFailed(m))
      else VersionFromMetadata(m, server.metadata[m], c.extension, c.classifier)
  }

  /** The result of prepareUrl together with the metadata URLs it fetched. */
  datatype Resolution = Resolution(url: Result<string, Error>, lookups: seq<string>)

  /** What prepareUrl computes for `c` against `server`. */
  function Resolve(c: Coordinates, server: Repository): Resolution {
    Resolution(
      match ActualVersion(c, server)
      case Ok(v) => Ok(DirectoryUrl(c) + FileName(c, v))
      case Err(e) => Err(e),
      if IsSnapshot(c.version) then [MetadataUrl(c)] else [])
  }

  /** The rename target of rename(): none when renameFileTo is null or empty. */
  function RenameTarget(renameFileTo: Option<string>): Option<string> {
    if renameFileTo.Some? && renameFileTo.value != "" then renameFileTo else None
  }

  /**
   * A release version resolves to the full URL without any metadata lookup,
   * whatever the repository serves.
   */
  lemma ReleaseUrl(c: Coordinates, server: Repository, other: Repository)
    requires !IsSnapshot(c.version)
    ensures Resolve(c, server).lookups == []
    ensures Resolve(c, server).url == Ok(c.repository + "/" + GroupPath(c.groupId) + "/" + c.artifactId + "/"
                                         + c.version + "/" + c.artifactId + "-" + c.version
                                         + ClassifierSuffix(c.classifier) + "." + c.extension)
    ensures Resolve(c, server) == Resolve(c, other)
  {
    var a, v, e := c.artifactId, c.version, c.extension;
    var sfx := ClassifierSuffix(c.classifier);
    assert DirectoryUrl(c) + FileName(c, v)
        == DirectoryUrl(c) + a + "-" + v + sfx + "." + e;
  }

  /** A snapshot version fetches exactly one document: maven-metadata.xml in the artifact's directory. */
  lemma SnapshotLookup(c: Coordinates, server: Repository)
    requires IsSnapshot(c.version)
    ensures Resolve(c, server).lookups == [DirectoryUrl(c) + "maven-metadata.xml"]
    ensures MetadataUrl(c) !in server.metadata ==> Resolve(c, server).url == Err(MetadataFetchFailed(MetadataUrl(c)))
    ensures MetadataUrl(c) in server.metadata && server.metadata[MetadataUrl(c)].Unparsable?
            ==> Resolve(c, server).url == Err(MetadataUnreadable(MetadataUrl(c)))
  {
  }

  /** The directory URL, and hence the metadata URL's directory, is a prefix of the artifact URL. */
  lemma DirectoryIsPrefix(c: Coordinates, server: Repository)
    requires Resolve(c, server).url.Ok?
    ensures IsPrefix(DirectoryUrl(c), Resolve(c, server).url.value)
    ensures forall m :: m in Resolve(c, server).lookups ==> IsPrefix(DirectoryUrl(c), m)
  {
  }

  /** The "-classifier" segment is in the file name exactly when the classifier is non-null and non-empty. */
  lemma ClassifierSegment(c: Coordinates, v: string)
    ensures HasClassifier(c.classifier)
            ==> FileName(c, v) == c.artifactId + "-" + v + "-" + c.classifier.value + "." + c.extension
    ensures FileName(c, v) == c.artifactId + "-" + v + "." + c.extension <==> !HasClassifier(c.classifier)
  {
  }

  /** A snapshot resolves to the value of the first metadata entry that passes the query's filter. */
  lemma SnapshotUrl(c: Coordinates, server: Repository, entries: seq<SnapshotVersion>, k: nat)
    requires IsSnapshot(c.version) && MetadataUrl(c) in server.metadata
    requires server.metadata[MetadataUrl(c)] == Parsed(entries)
    requires k < |entries| && Contributes(entries[k], c.extension, c.classifier)
    requires forall j :: 0 <= j < k ==> !Contributes(entries[j], c.extension, c.classifier)
    ensures Resolve(c, server).url == Ok(DirectoryUrl(c) + FileName(c, entries[k].value))
  {
    SelectFirstMatch(entries, c.extension, c.classifier, k);
  }

  /**
   * When no entry passes, the version is "" and the URL degenerates to
   * .../artifactId-.ext, or .../artifactId--classifier.ext, instead of failing.
   */
  lemma NoMatchDegenerates(c: Coordinates, server: Repository, entries: seq<SnapshotVersion>)
    requires IsSnapshot(c.version) && MetadataUrl(c) in server.metadata
    requires server.metadata[MetadataUrl(c)] == Parsed(entries)
    requires forall k :: 0 <= k < |entries| ==> !Contributes(entries[k], c.extension, c.classifier)
    ensures ActualVersion(c, server) == Ok("")
    ensures !HasClassifier(c.classifier)
            ==> Resolve(c, server).url == Ok(DirectoryUrl(c) + c.artifactId + "-." + c.extension)
    ensures HasClassifier(c.classifier)
            ==> Resolve(c, server).url == Ok(DirectoryUrl(c) + c.artifactId + "--" + c.classifier.value + "." + c.extension)
  {
    SelectEmptyIffNoMatch(entries, c.extension, c.classifier);
    var d, a, e := DirectoryUrl(c), c.artifactId, c.extension;
    if HasClassifier(c.classifier) {
      assert d + FileName(c, "") == d + a + "--" + c.classifier.value + "." + e;
    } else {
      assert d + FileName(c, "") == d + a + "-." + e;
    }
  }

  /**
   * The local name of a resolved URL (downloadFile's replaceAll) is the
   * file name built by prepareUrl, provided the repository has been
   * normalised, the directory part holds no line terminator and the parts
   * of the file name hold no '/'.
   */
  lemma LocalNameOfResolvedUrl(c: Coordinates, server: Repository, v: string)
    requires IsPrefix(HttpScheme, c.repository)
    requires SingleLine(c.repository) && SingleLine(c.groupId) && SingleLine(c.artifactId) && SingleLine(c.version)
    requires '/' !in c.artifactId && '/' !in v && '/' !in FieldText(c.classifier) && '/' !in c.extension
    requires ActualVersion(c, server) == Ok(v)
    ensures Resolve(c, server).url == Ok(DirectoryUrl(c) + FileName(c, v))
    ensures StripHttpPrefix(DirectoryUrl(c) + FileName(c, v)) == FileName(c, v)
  {
    var d := DirectoryUrl(c);
    assert d[..5] == c.repository[..5];
    assert SingleLine(GroupPath(c.groupId));
    assert SingleLine(d);
    assert '/' !in ClassifierSuffix(c.classifier);
    StripDirectory(d, FileName(c, v));
  }

  /** The release coordinates org.acme:lib:2.1.0 at http://example.test/repo. */
  const ExampleRelease := Coordinates("http://example.test/repo", "org.acme", "lib", "2.1.0", "jar", None)

  /**
   * The example release resolves, without a lookup, to
   * http://example.test/repo/org/acme/lib/2.1.0/lib-2.1.0.jar.
   */
  lemma ExampleReleaseUrl(server: Repository)
    ensures Resolve(ExampleRelease, server)
            == Resolution(Ok("http://example.test/repo" + "/" + "org/acme" + "/" + "lib" + "/" + "2.1.0" + "/"
                             + "lib" + "-" + "2.1.0" + "." + "jar"), [])
  {
    SnapshotIffOccurs("2.1.0");
    ExampleGroupPath();
    ReleaseUrl(ExampleRelease, server, server);
    var prefix := "http://example.test/repo" + "/" + "org/acme" + "/" + "lib" + "/" + "2.1.0" + "/" + "lib" + "-" + "2.1.0";
    assert prefix + "" == prefix;
  }

  /** Dots of a group id become slashes. */
  lemma ExampleGroupPath()
    ensures GroupPath("org.acme") == "org/acme"
  {
  }

  /** The downloader: its configuration fields, with the defaults of a fresh instance. */
  class ArtifactDownloader {
    var enabled: bool
    var artifactRepository: string
    var groupId: string
    var artifactId: string
    var version: string
    var extension: string
    var renameFileTo: Option<string>
    var destinationFolder: string
    var classifier: Option<string>

    constructor ()
      ensures enabled
      ensures artifactRepository == "http://80.74.108.9/content/repositories/snapshots"
      ensures groupId == "org.jsystemtest" && artifactId == "jsystemCore" && version == "6.0.00-SNAPSHOT"
      ensures extension == "jar" && renameFileTo == None && destinationFolder == "." && classifier == None
    {
      enabled := true;
      artifactRepository := "http://80.74.108.9/content/repositories/snapshots";
      groupId := "org.jsystemtest";
      artifactId := "jsystemCore";
      version := "6.0.00-SNAPSHOT";
      extension := "jar";
      renameFileTo := None;
      destinationFolder := ".";
      classifier := None;
    }

    /** The coordinates the fields describe. */
    function Coords(): Coordinates
      reads this
    {
      Coordinates(artifactRepository, groupId, artifactId, version, extension, classifier)
    }

    /** init: when enabled, prefix the repository with "http://" unless it already starts with it. */
    method Init()
      modifies this`artifactRepository
      ensures enabled ==> artifactRepository == NormalizeRepository(old(artifactRepository))
      ensures !enabled ==> artifactRepository == old(artifactRepository)
    {
      if enabled {
        if !IsPrefix(HttpScheme, artifactRepository) {
          artifactRepository := HttpScheme + artifactRepository;
        }
      }
    }

    /**
     * prepareUrl: the artifact URL, built part by part; a snapshot version
     * first fetches the directory's metadata (getMetadata) and queries it
     * (getVersionFromMetadata).  `lookups` lists the metadata URLs fetched.
     */
    method PrepareUrl(server: Repository) returns (url: Result<string, Error>, lookups: seq<string>)
      ensures Resolution(url, lookups) == Resolve(Coords(), server)
    {
      var b := artifactRepository;
      b := b + "/";
      b := b + GroupPath(groupId);
      b := b + "/";
      b := b + artifactId;
      b := b + "/";
      b := b + version;
      b := b + "/";
      assert b == DirectoryUrl(Coords());
      var actualVersion: string;
      lookups := [];
      if IsSnapshot(version) {
        var metadataUrl := b + MetadataFileName;
        lookups := [metadataUrl];
        if metadataUrl !in server.metadata {
          url := Err(MetadataFetchFailed(metadataUrl));
          return;
        }
        var selected := VersionFromMetadata(metadataUrl, server.metadata[metadataUrl], extension, classifier);
        if selected.Err? {
          url := Err(selected.error);
          return;
        }
        actualVersion := selected.value;
      } else {
        actualVersion := version;
      }
      b := b + artifactId;
      b := b + "-";
      b := b + actualVersion;
      if classifier.Some? && classifier.value != "" {
        b := b + "-";
        b := b + classifier.value;
      }
      b := b + ".";
      b := b + extension;
      assert b == DirectoryUrl(Coords()) + FileName(Coords(), actualVersion);
      url := Ok(b);
    }

    /**
     * download: nothing when disabled; otherwise resolve, fetch and store
     * the artifact under the name downloadFile derives from the URL, then
     * rename it when renameFileTo is set.  The failures the model knows of
     * (the ArtifactDownloaderException kinds of `Error`) are reported, not
     * thrown.
     */
    method Download(server: Repository) returns (o: Outcome)
      ensures !enabled ==> o == Skipped
      ensures enabled && Resolve(Coords(), server).url.Err? ==> o == Reported(Resolve(Coords(), server).url.error)
      ensures enabled && Resolve(Coords(), server).url.Ok? ==>
        var u := Resolve(Coords(), server).url.value;
        o == if u in server.artifacts then Saved(destinationFolder, StripHttpPrefix(u), RenameTarget(renameFileTo))
             else Reported(DownloadFailed(u))
    {
      if !enabled {
        return Skipped;
      }
      var url, _ := PrepareUrl(server);
      match url {
        case Err(e) =>
          o := Reported(e);
        case Ok(u) =>
          if u !in server.artifacts {
            o := Reported(DownloadFailed(u));
          } else {
            var fileName := StripHttpPrefix(u);
            var target := None;
            if renameFileTo.Some? && renameFileTo.value != "" {
              target := renameFileTo;
            }
            o := Saved(destinationFolder, fileName, target);
          }
      }
    }
  }
}
