/**
 * The snapshot-version query of getVersionFromMetadata, over a metadata
 * document that is already parsed into its `snapshotVersion` elements.
 *
 * With no classifier configured the query is
 *   //snapshotVersion[contains(extension,'E') and not(contains(classifier,'sources'))]/value/text()
 * and with classifier C configured it is
 *   //snapshotVersion[contains(extension,'E') and (contains(classifier,'C'))]/value/text()
 * evaluated to an XPath string: the first selected text node in document
 * order, or "" when none is selected.
 */
module Metadata {
  import opened Wrappers
  import opened Strings

  /**
   * One `snapshotVersion` element, in document order.  A missing
   * `extension` child reads as "", a missing `classifier` child is None,
   * and a `value` child without text is "".
   */
  datatype SnapshotVersion = SnapshotVersion(extension: string, classifier: Option<string>, value: string)

  /** The XPath string value of an optional child element: "" when it is absent. */
  function FieldText(field: Option<string>): string {
    match field
    case Some(t) => t
    case None => ""
  }

  /** The downloader counts a classifier as configured when it is non-null and non-empty. */
  predicate HasClassifier(classifier: Option<string>) {
    classifier.Some? && classifier.value != ""
  }

  /** The bracketed filter of the query. */
  predicate Matches(e: SnapshotVersion, extension: string, classifier: Option<string>) {
    Contains(e.extension, extension) &&
    if HasClassifier(classifier) then Contains(FieldText(e.classifier), classifier.value)
    else !Contains(FieldText(e.classifier), "sources")
  }

  /** The element passes the filter and gives `value/text()` a text node. */
  predicate Contributes(e: SnapshotVersion, extension: string, classifier: Option<string>) {
    Matches(e, extension, classifier) && e.value != ""
  }

  /** The string value of the query over `entries`. */
  function SelectVersion(entries: seq<SnapshotVersion>, extension: string, classifier: Option<string>): string
  {
    if entries == [] then ""
    else if Contributes(entries[0], extension, classifier) then entries[0].value
    else SelectVersion(entries[1..], extension, classifier)
  }

  /** The query yields the value of the first element, in document order, that passes the filter. */
  lemma {:induction false} SelectFirstMatch(entries: seq<SnapshotVersion>, extension: string,
                                            classifier: Option<string>, k: nat)
    requires k < |entries| && Contributes(entries[k], extension, classifier)
    requires forall j :: 0 <= j < k ==> !Contributes(entries[j], extension, classifier)
    ensures SelectVersion(entries, extension, classifier) == entries[k].value
    decreases k
  {
    if k > 0 {
      assert !Contributes(entries[0], extension, classifier);
      assert forall j :: 0 <= j < k - 1 ==> entries[1..][j] == entries[j + 1];
      SelectFirstMatch(entries[1..], extension, classifier, k - 1);
    }
  }

  /** The query yields "" exactly when no element passes the filter with a non-empty value. */
  lemma {:induction false} SelectEmptyIffNoMatch(entries: seq<SnapshotVersion>, extension: string,
                                                 classifier: Option<string>)
    ensures SelectVersion(entries, extension, classifier) == ""
        <==> forall k :: 0 <= k < |entries| ==> !Contributes(entries[k], extension, classifier)
    decreases |entries|
  {
    if entries != [] {
      SelectEmptyIffNoMatch(entries[1..], extension, classifier);
      assert forall k :: 1 <= k < |entries| ==> entries[k] == entries[1..][k - 1];
    }
  }

  /** A non-empty answer is the value of some element that passes the filter. */
  lemma {:induction false} SelectFromEntries(entries: seq<SnapshotVersion>, extension: string,
                                             classifier: Option<string>)
    ensures SelectVersion(entries, extension, classifier) != "" ==>
      exists k :: 0 <= k < |entries| && Contributes(entries[k], extension, classifier)
                  && entries[k].value == SelectVersion(entries, extension, classifier)
    decreases |entries|
  {
    if entries != [] && !Contributes(entries[0], extension, classifier) {
      SelectFromEntries(entries[1..], extension, classifier);
      if SelectVersion(entries, extension, classifier) != "" {
        var k :| 0 <= k < |entries[1..]| && Contributes(entries[1..][k], extension, classifier)
                 && entries[1..][k].value == SelectVersion(entries[1..], extension, classifier);
        assert entries[k + 1] == entries[1..][k];
      }
    } else if entries != [] {
      assert Contributes(entries[0], extension, classifier);
    }
  }

  /** With a classifier configured, an element without a `classifier` child never passes. */
  lemma UnclassifiedNeverMatches(e: SnapshotVersion, extension: string, classifier: Option<string>)
    requires HasClassifier(classifier) && e.classifier.None?
    ensures !Matches(e, extension, classifier)
  {
  }

  /** With no classifier configured, an element without a `classifier` child passes on its extension alone. */
  lemma UnclassifiedMatchesByExtension(e: SnapshotVersion, extension: string, classifier: Option<string>)
    requires !HasClassifier(classifier) && e.classifier.None?
    ensures Matches(e, extension, classifier) <==> Contains(e.extension, extension)
  {
  }

  /** Filtering is by substring: a configured classifier passes every element whose classifier embeds it. */
  lemma ClassifierBySubstring(e: SnapshotVersion, extension: string, c: string, before: string, after: string)
    requires c != "" && e.classifier == Some(before + c + after)
    requires Contains(e.extension, extension)
    ensures Matches(e, extension, Some(c))
  {
    ContainsInfix(before, c, after);
  }

  /** With no classifier configured, a source attachment never passes. */
  lemma SourcesExcluded(e: SnapshotVersion, extension: string, classifier: Option<string>, before: string, after: string)
    requires !HasClassifier(classifier) && e.classifier == Some(before + "sources" + after)
    ensures !Matches(e, extension, classifier)
  {
    ContainsInfix(before, "sources", after);
  }

  /** A binary and its sources share a timestamp; with no classifier the binary's entry is chosen. */
  lemma ExampleBinaryBeforeSources()
    ensures SelectVersion([SnapshotVersion("jar", None, "1.0-20230101.120000-3"),
                           SnapshotVersion("jar", Some("sources"), "1.0-20230101.120000-3")],
                          "jar", None) == "1.0-20230101.120000-3"
  {
  }

  /** Classifier "tests" is satisfied by "unittests" too, so the element listed first wins. */
  lemma ExampleSubstringClassifier()
    ensures SelectVersion([SnapshotVersion("jar", Some("unittests"), "1.0-20230101.120000-2"),
                           SnapshotVersion("jar", Some("tests"), "1.0-20230101.120000-3")],
                          "jar", Some("tests")) == "1.0-20230101.120000-2"
  {
  }
}
