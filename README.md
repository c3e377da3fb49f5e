# Artifact URL resolution of ArtifactDownloader

`ArtifactDownloader` is a jsystem system object that downloads one artifact
from a Maven-style repository. Its logic is the artifact URL:

- the repository gets an `http://` prefix;
- the directory is `repo/group/with/slashes/artifactId/version/`;
- a version containing `SNAPSHOT` is resolved against the directory's
  `maven-metadata.xml`, using an XPath query over its `snapshotVersion`
  elements;
- the file name is `artifactId-actualVersion[-classifier].extension`;
- the local file name is what `replaceAll("http:.*/", "")` leaves of the URL.

The project models that logic and proves what it computes.

Files:

- `wrappers.dfy`: `Option` (a Java `null`) and `Result` (a checked exception).
- `strings.dfy`: `startsWith`, `contains` and `replace(char, char)` on
  `seq<char>`. `contains` is proved equal to "occurs at some index".
- `local_file_name.dfy`: `replaceAll("http:.*/", "")`, evaluated the way
  java.util.regex evaluates it. The leftmost match wins and `.*` is greedy.
  `.` does not match `\n`, `\r`, U+0085, U+2028 or U+2029. After a match the
  search resumes behind it.
- `metadata.dfy`: the snapshot-version query, over the `snapshotVersion`
  elements of an already parsed document. Each element is
  `(extension, classifier option, value)`, in document order.
- `artifact_downloader.dfy`: the contents of `ArtifactDownloader` itself:
  - the coordinates, the repository normalisation, snapshot detection and the
    URL parts as functions;
  - `Resolve`, the specification of `prepareUrl`;
  - the class `ArtifactDownloader`, whose fields are the configuration and
    whose methods `Init`, `PrepareUrl` and `Download` follow `init`,
    `prepareUrl` and `download`.

The remote repository is a value of type `Repository`:

- `metadata` maps each metadata URL to its parsed document. `Unparsable`
  stands for a document the XML parser rejects.
- `artifacts` is the set of artifact URLs answered with status 200.
- A URL in neither is answered with some other status.

`PrepareUrl` also returns `lookups`, the metadata URLs it fetched. This is
how the model states that a release version triggers no fetch and a
snapshot version triggers exactly one.

How the query is read:

- The query selects the text nodes of `value` under every `snapshotVersion`
  that passes the filter. Its XPath string value is the first such text
  node in document order, or `""` when there is none.
- A missing `classifier` child reads as `""` inside `contains`. A missing
  `extension` child is modelled as the extension `""`.
- An element whose `value` has no text contributes no text node, so the
  next passing element supplies the answer. `Metadata.Contributes` captures
  this as "passes the filter and has a non-empty value".

Where the code and its description differ, the model follows the code:

- The field comment on `version` speaks of a version that "ends with
  SNAPSHOT". The code tests containment anywhere (line 175). "SNAPSHOT-fix"
  is therefore a snapshot (`ExampleSnapshots`).
- Nothing in the code fails when no metadata entry matches. The version
  becomes `""` and the URL degenerates to `.../artifactId-.ext` or
  `.../artifactId--classifier.ext` (`NoMatchDegenerates`).
- The repository is normalised in `init`, not in `download`. Only the
  literal prefix `http://` is recognised, so `https://repo.example` becomes
  `http://https://repo.example` (`ExampleHttpsPrefixed`).
- `init` checks that the coordinates are non-null. It does not check that
  they are non-empty, and the model has no such precondition either.

## Model

| member | source | states |
|---|---|---|
| `Strings.IsPrefix` | artifact-downloader-so/src/main/java/org/jsystemtest/artifact_downloader_so/ArtifactDownloader.java:77 | `startsWith`: the first `|p|` characters of `s` are `p`; used by `NormalizeRepository`, whose contract states the normalisation |
| `Strings.Contains` | artifact-downloader-so/src/main/java/org/jsystemtest/artifact_downloader_so/ArtifactDownloader.java:175 | `contains` as a scan over start positions; `ContainsIffOccurs` proves it equal to "occurs at some index", `ContainsInfix` and `EmptyContainsOnlyEmpty` give its uses at lines 175 and 251-255 |
| `LocalFileName.StripHttpPrefix` | artifact-downloader-so/src/main/java/org/jsystemtest/artifact_downloader_so/ArtifactDownloader.java:109 | `replaceAll("http:.*/", "")`: leftmost greedy match up to the last `/` before a line terminator, repeated behind it; never longer than its input, and by `StripWithoutSlash` and `StripDirectory` a directory URL plus a slash-free name reduces to the name |
| `Metadata.Matches` | artifact-downloader-so/src/main/java/org/jsystemtest/artifact_downloader_so/ArtifactDownloader.java:250-255 | the bracketed filter: the extension contains the configured one, and the classifier (absent as `""`) contains the configured classifier or, with none configured, does not contain `sources`; characterised by `UnclassifiedNeverMatches`, `UnclassifiedMatchesByExtension`, `ClassifierBySubstring`, `SourcesExcluded` |
| `Metadata.SelectVersion` | artifact-downloader-so/src/main/java/org/jsystemtest/artifact_downloader_so/ArtifactDownloader.java:250-259 | the XPath string value of `value/text()` over the passing elements; by `SelectFirstMatch`, `SelectEmptyIffNoMatch` and `SelectFromEntries` it is the value of the first element that passes with a non-empty value, and `""` exactly when there is none |
| `ArtifactDownloading.IsSnapshot` | artifact-downloader-so/src/main/java/org/jsystemtest/artifact_downloader_so/ArtifactDownloader.java:175 | `version.contains("SNAPSHOT")`; by `SnapshotIffOccurs` and `SnapshotAnywhere` an occurrence at any index, not a suffix |
| `ArtifactDownloading.DirectoryUrl` | artifact-downloader-so/src/main/java/org/jsystemtest/artifact_downloader_so/ArtifactDownloader.java:165-173 | `repo/group-path/artifactId/version/`; by `DirectoryIsPrefix` a prefix of the resolved URL and of the metadata URL |
| `ArtifactDownloading.MetadataUrl` | artifact-downloader-so/src/main/java/org/jsystemtest/artifact_downloader_so/ArtifactDownloader.java:206 | the directory URL followed by `maven-metadata.xml`; by `SnapshotLookup` the one document a snapshot fetches |
| `ArtifactDownloading.FileName` | artifact-downloader-so/src/main/java/org/jsystemtest/artifact_downloader_so/ArtifactDownloader.java:183-191 | `artifactId-actualVersion[-classifier].extension`; by `ClassifierSegment` the classifier segment is present exactly when the classifier is non-null and non-empty |
| `ArtifactDownloading.VersionFromMetadata` | artifact-downloader-so/src/main/java/org/jsystemtest/artifact_downloader_so/ArtifactDownloader.java:240-263 | the query's string value for a parsed document, an error for one the parser rejects; `SnapshotLookup`, `SnapshotUrl` and `NoMatchDegenerates` state its outcomes |
| `ArtifactDownloading.ActualVersion` | artifact-downloader-so/src/main/java/org/jsystemtest/artifact_downloader_so/ArtifactDownloader.java:174-182 | the configured version for a release, the metadata's answer for a snapshot; `NoMatchDegenerates` shows it is `""`, not an error, when nothing matches |
| `ArtifactDownloading.Resolve` | artifact-downloader-so/src/main/java/org/jsystemtest/artifact_downloader_so/ArtifactDownloader.java:164-195 | the URL `prepareUrl` returns and the metadata URLs it fetches; `ReleaseUrl`, `SnapshotLookup`, `SnapshotUrl`, `NoMatchDegenerates`, `DirectoryIsPrefix` and `LocalNameOfResolvedUrl` state what it is, and `PrepareUrl` is proved equal to it |
| `ArtifactDownloading.RenameTarget` | artifact-downloader-so/src/main/java/org/jsystemtest/artifact_downloader_so/ArtifactDownloader.java:141-143 | a rename target only when `renameFileTo` is non-null and non-empty; `Download` reports it in its outcome |
| `Strings.ContainsIffOccurs` | artifact-downloader-so/src/main/java/org/jsystemtest/artifact_downloader_so/ArtifactDownloader.java:175 | the `contains` scan succeeds exactly when the needle occurs at some index of the string (both directions) |
| `Strings.ContainsInfix` | artifact-downloader-so/src/main/java/org/jsystemtest/artifact_downloader_so/ArtifactDownloader.java:175 | `a + t + b` contains `t`, whatever `a` and `b` are |
| `Strings.EmptyContainsOnlyEmpty` | artifact-downloader-so/src/main/java/org/jsystemtest/artifact_downloader_so/ArtifactDownloader.java:251-255 | `contains("", t)` holds exactly when `t` is empty; this is how a missing classifier child behaves in the query |
| `Strings.Replace` | artifact-downloader-so/src/main/java/org/jsystemtest/artifact_downloader_so/ArtifactDownloader.java:168 | `replace(from, to)` keeps the length, turns every `from` into `to`, keeps every other character, and leaves no `from` when `from != to` |
| `LocalFileName.LineEnd` | artifact-downloader-so/src/main/java/org/jsystemtest/artifact_downloader_so/ArtifactDownloader.java:109 | the run that `.` can match ends at the first line terminator at or after the start, or at the end of the string |
| `LocalFileName.LastSlash` | artifact-downloader-so/src/main/java/org/jsystemtest/artifact_downloader_so/ArtifactDownloader.java:109 | the greedy `.*/` ends at the last `/` of the range, and a range without a `/` gives no match |
| `LocalFileName.MatchAtStart` | artifact-downloader-so/src/main/java/org/jsystemtest/artifact_downloader_so/ArtifactDownloader.java:109 | a match at the start exists exactly when `s` starts with `http:` and a `/` lies between index 5 and the first line terminator after it; it ends at the last such `/` |
| `LocalFileName.StripWithoutSlash` | artifact-downloader-so/src/main/java/org/jsystemtest/artifact_downloader_so/ArtifactDownloader.java:109 | `replaceAll` leaves a string without `/` unchanged |
| `LocalFileName.StripDirectory` | artifact-downloader-so/src/main/java/org/jsystemtest/artifact_downloader_so/ArtifactDownloader.java:109 | a single-line `http:` directory URL followed by a name without `/` is reduced to that name, the text after its last `/` |
| `Metadata.SelectFirstMatch` | artifact-downloader-so/src/main/java/org/jsystemtest/artifact_downloader_so/ArtifactDownloader.java:250-259 | the query's string value is the value of the first element, in document order, that passes the filter and has a non-empty value (an earlier passing element without text is skipped) |
| `Metadata.SelectEmptyIffNoMatch` | artifact-downloader-so/src/main/java/org/jsystemtest/artifact_downloader_so/ArtifactDownloader.java:259 | the query yields `""` exactly when no element passes the filter with a non-empty value (both directions) |
| `Metadata.SelectFromEntries` | artifact-downloader-so/src/main/java/org/jsystemtest/artifact_downloader_so/ArtifactDownloader.java:250-259 | a non-empty answer is the value of some element that passes the filter |
| `Metadata.UnclassifiedNeverMatches` | artifact-downloader-so/src/main/java/org/jsystemtest/artifact_downloader_so/ArtifactDownloader.java:253-255 | with a classifier configured, an element without a classifier child never passes |
| `Metadata.UnclassifiedMatchesByExtension` | artifact-downloader-so/src/main/java/org/jsystemtest/artifact_downloader_so/ArtifactDownloader.java:250-252 | with no classifier configured, an element without a classifier child passes exactly when its extension contains the configured one |
| `Metadata.ClassifierBySubstring` | artifact-downloader-so/src/main/java/org/jsystemtest/artifact_downloader_so/ArtifactDownloader.java:253-255 | a configured classifier passes every element whose classifier embeds it as a substring |
| `Metadata.SourcesExcluded` | artifact-downloader-so/src/main/java/org/jsystemtest/artifact_downloader_so/ArtifactDownloader.java:250-252 | with no classifier configured, an element whose classifier contains `sources` never passes |
| `Metadata.ExampleBinaryBeforeSources` | artifact-downloader-so/src/main/java/org/jsystemtest/artifact_downloader_so/ArtifactDownloader.java:250-252 | given a jar entry and its sources entry, with no classifier configured, the jar entry's value is selected |
| `Metadata.ExampleSubstringClassifier` | artifact-downloader-so/src/main/java/org/jsystemtest/artifact_downloader_so/ArtifactDownloader.java:253-255 | classifier `tests` is satisfied by an earlier `unittests` entry, which then wins |
| `ArtifactDownloading.NormalizeRepository` | artifact-downloader-so/src/main/java/org/jsystemtest/artifact_downloader_so/ArtifactDownloader.java:77-79 | the normalised repository starts with `http://`, is unchanged if it already did, and otherwise is exactly `http://` followed by the original (prefix, suffix and length) |
| `ArtifactDownloading.NormalizeIdempotent` | artifact-downloader-so/src/main/java/org/jsystemtest/artifact_downloader_so/ArtifactDownloader.java:77-79 | normalising twice is the same as normalising once |
| `ArtifactDownloading.ExampleHttpsPrefixed` | artifact-downloader-so/src/main/java/org/jsystemtest/artifact_downloader_so/ArtifactDownloader.java:77-79 | `https://repo.example` becomes `http://https://repo.example` |
| `ArtifactDownloading.SnapshotAnywhere` | artifact-downloader-so/src/main/java/org/jsystemtest/artifact_downloader_so/ArtifactDownloader.java:175 | any version with `SNAPSHOT` written anywhere in it is a snapshot |
| `ArtifactDownloading.SnapshotIffOccurs` | artifact-downloader-so/src/main/java/org/jsystemtest/artifact_downloader_so/ArtifactDownloader.java:175 | a version is a snapshot exactly when `SNAPSHOT` occurs at some index of it |
| `ArtifactDownloading.ExampleSnapshots` | artifact-downloader-so/src/main/java/org/jsystemtest/artifact_downloader_so/ArtifactDownloader.java:175 | `1.0-SNAPSHOT` and `SNAPSHOT-fix` are snapshots; `2.1.0` is not |
| `ArtifactDownloading.GroupPath` | artifact-downloader-so/src/main/java/org/jsystemtest/artifact_downloader_so/ArtifactDownloader.java:168 | the group path has the length of the group id, contains no `.`, has `/` where the id has `.`, and keeps every other character |
| `ArtifactDownloading.ReleaseUrl` | artifact-downloader-so/src/main/java/org/jsystemtest/artifact_downloader_so/ArtifactDownloader.java:164-195 | a release version resolves to `repo/group/artifactId/version/artifactId-version[-classifier].extension`, with no metadata lookup, whatever the repository serves |
| `ArtifactDownloading.SnapshotLookup` | artifact-downloader-so/src/main/java/org/jsystemtest/artifact_downloader_so/ArtifactDownloader.java:175-179 | a snapshot fetches exactly the directory URL followed by `maven-metadata.xml`; a failed fetch or an unparsable document is an error |
| `ArtifactDownloading.DirectoryIsPrefix` | artifact-downloader-so/src/main/java/org/jsystemtest/artifact_downloader_so/ArtifactDownloader.java:165-173 | the directory URL is a prefix of the resolved artifact URL and of every metadata URL fetched |
| `ArtifactDownloading.ClassifierSegment` | artifact-downloader-so/src/main/java/org/jsystemtest/artifact_downloader_so/ArtifactDownloader.java:186-189 | the `-classifier` segment is in the file name exactly when the classifier is non-null and non-empty |
| `ArtifactDownloading.SnapshotUrl` | artifact-downloader-so/src/main/java/org/jsystemtest/artifact_downloader_so/ArtifactDownloader.java:175-191 | a snapshot resolves to the file name built from the value of the first metadata entry that passes the filter and has a non-empty value (passing entries without text are skipped) |
| `ArtifactDownloading.NoMatchDegenerates` | artifact-downloader-so/src/main/java/org/jsystemtest/artifact_downloader_so/ArtifactDownloader.java:183-191 | when no entry passes, the version is `""` and the URL ends in `artifactId-.ext` or `artifactId--classifier.ext`; nothing fails |
| `ArtifactDownloading.LocalNameOfResolvedUrl` | artifact-downloader-so/src/main/java/org/jsystemtest/artifact_downloader_so/ArtifactDownloader.java:109 | after normalisation, the local name of a resolved URL is `artifactId-actualVersion[-classifier].extension`, if the directory part has no line terminator and the name's parts have no `/` |
| `ArtifactDownloading.ExampleReleaseUrl` | artifact-downloader-so/src/main/java/org/jsystemtest/artifact_downloader_so/ArtifactDownloader.java:164-195 | `org.acme:lib:2.1.0` at `http://example.test/repo` resolves to `.../org/acme/lib/2.1.0/lib-2.1.0.jar` with no lookup |
| `ArtifactDownloading.ExampleGroupPath` | artifact-downloader-so/src/main/java/org/jsystemtest/artifact_downloader_so/ArtifactDownloader.java:168 | `org.acme` becomes `org/acme` |
| `ArtifactDownloading.ArtifactDownloader.constructor` | artifact-downloader-so/src/main/java/org/jsystemtest/artifact_downloader_so/ArtifactDownloader.java:34-70 | a fresh downloader is enabled and carries the source's default repository, coordinates, extension `jar`, folder `.`, and no classifier or rename target |
| `ArtifactDownloading.ArtifactDownloader.Init` | artifact-downloader-so/src/main/java/org/jsystemtest/artifact_downloader_so/ArtifactDownloader.java:72-86 | when enabled, the repository becomes its normalised form; when disabled, it is left as it was |
| `ArtifactDownloading.ArtifactDownloader.PrepareUrl` | artifact-downloader-so/src/main/java/org/jsystemtest/artifact_downloader_so/ArtifactDownloader.java:164-206 | the URL built by successive appends, and the metadata URLs fetched, are those of `Resolve` for the current fields |
| `ArtifactDownloading.ArtifactDownloader.Download` | artifact-downloader-so/src/main/java/org/jsystemtest/artifact_downloader_so/ArtifactDownloader.java:124-146 | disabled means nothing happens; a resolution or download failure of the kinds in `Error` is reported, not thrown; otherwise the file is saved in the destination folder under the name `replaceAll` derives from the URL, with a rename target only when `renameFileTo` is non-null and non-empty |

## Left out

- HTTP execution, status lines and connection release in `downloadFile` and `getMetadata` (lines 93-122, 205-231). These are network I/O. The repository's answers are the `Repository` parameter.
- XML parsing and the XPath engine (lines 243-258). These are library calls. The document arrives already split into `snapshotVersion` elements. A `snapshotVersion` with several `extension`, `classifier` or `value` children, or a value split into several text nodes, is not represented.
- Quotes in `extension` or `classifier` can break or inject into the XPath expression. This is not modelled: the filter is read as the configured strings would be meant.
- `new String(responseBody)` decodes bytes with the platform charset. This is not modelled.
- Writing the response body to disk and the `rename` file operations (lines 110, 148-153) are filesystem I/O. `Download` assumes the write succeeds, so the downloaded file always exists when `rename` runs. It reports only the folder, the file name and the rename target. The `IOException` path of `rename` and the discarded results of `delete` and `renameTo` are not modelled.
- ArtifactDownloading.ArtifactDownloader.Download: unchecked exceptions that escape `download()` are not modelled. It catches only `ArtifactDownloaderException` and `IOException` (lines 133-137). An `IllegalArgumentException` from `new GetMethod` for a malformed URL (lines 96, 208) and a `NullPointerException` from `new String` on a missing body (line 220) propagate to the caller. The `Repository` value can only answer "200" or "another status".
- `report.report` logging is not modelled. `Download` returns the error it would report instead.
- `super.init()` of the jsystem framework is not part of this model.
- `Assert.assertNotNull` in `init`: strings in the model cannot be null, so these checks always pass.
- `main`, the getters and setters (lines 265-340) are not modelled. The class fields are public and are assigned directly. `ArtifactDownloaderException.java` is exception plumbing and is represented by the `Error` datatype.
