/**
 * The name under which a downloaded artifact is stored: the downloader
 * applies `url.replaceAll("http:.*\/", "")` to the artifact URL.  The
 * regular expression is evaluated here as java.util.regex does: the
 * leftmost match wins, `.*` is greedy, and `.` does not match a line
 * terminator; after a match the search resumes behind it.
 */
module LocalFileName {
  import opened Wrappers
  import opened Strings

  /** The characters the regular-expression `.` refuses (no DOTALL flag). */
  predicate IsLineTerminator(c: char) {
    c == '\n' || c == '\r' || c == '\U{0085}' || c == '\U{2028}' || c == '\U{2029}'
  }

  /** No character of `s` is a line terminator. */
  predicate SingleLine(s: string) {
    forall m :: 0 <= m < |s| ==> !IsLineTerminator(s[m])
  }

  /** The index at which the run of non-terminator characters starting at `lo` ends. */
  function LineEnd(s: string, lo: nat): (k: nat)
    requires lo <= |s|
    ensures lo <= k <= |s|
    ensures forall m :: lo <= m < k ==> !IsLineTerminator(s[m])
    ensures k < |s| ==> IsLineTerminator(s[k])
    decreases |s| - lo
  {
    if lo == |s| || IsLineTerminator(s[lo]) then lo else LineEnd(s, lo + 1)
  }

  /** The index of the last '/' in `s[lo..hi]`, if there is one. */
  function LastSlash(s: string, lo: nat, hi: nat): (r: Option<nat>)
    requires lo <= hi <= |s|
    ensures r.Some? ==> lo <= r.value < hi && s[r.value] == '/'
    ensures r.Some? ==> forall m :: r.value < m < hi ==> s[m] != '/'
    ensures r.None? ==> forall m :: lo <= m < hi ==> s[m] != '/'
    decreases hi - lo
  {
    if hi == lo then None
    else if s[hi - 1] == '/' then Some(hi - 1)
    else LastSlash(s, lo, hi - 1)
  }

  /** The greedy match of `http:.*\/` at the start of `s`: the index of its closing '/'. */
  function MatchAtStart(s: string): (r: Option<nat>)
    ensures r.Some? ==> IsPrefix("http:", s) && 5 <= r.value < LineEnd(s, 5) && s[r.value] == '/'
    ensures r.Some? ==> forall m :: r.value < m < LineEnd(s, 5) ==> s[m] != '/'
    ensures r.None? <==> !IsPrefix("http:", s) || forall m :: 5 <= m < LineEnd(s, 5) ==> s[m] != '/'
  {
    if IsPrefix("http:", s) then LastSlash(s, 5, LineEnd(s, 5)) else None
  }

  /** `s.replaceAll("http:.*\/", "")` */
  function StripHttpPrefix(s: string): (r: string)
    ensures |r| <= |s|
    decreases |s|
  {
    if s == [] then []
    else match MatchAtStart(s)
      case Some(j) => StripHttpPrefix(s[j + 1..])
      case None => [s[0]] + StripHttpPrefix(s[1..])
  }

  /** Text without a '/' holds no match and is left as it is. */
  lemma {:induction false} StripWithoutSlash(s: string)
    requires '/' !in s
    ensures StripHttpPrefix(s) == s
    decreases |s|
  {
    if s != [] {
      assert MatchAtStart(s).None?;
      assert '/' !in s[1..];
      StripWithoutSlash(s[1..]);
    }
  }

  /**
   * An `http:` URL that is a directory (ending in '/') followed by a file
   * name without '/' is reduced to that file name: the text after its last
   * '/'.  A line terminator inside the directory part would stop the match
   * early, hence the second requirement.
   */
  lemma StripDirectory(dir: string, name: string)
    requires IsPrefix("http:", dir) && |dir| > 5 && dir[|dir| - 1] == '/'
    requires SingleLine(dir)
    requires '/' !in name
    ensures StripHttpPrefix(dir + name) == name
  {
    var s := dir + name;
    assert s[..5] == dir[..5];
    var k := LineEnd(s, 5);
    assert k >= |dir|;
    var j := |dir| - 1;
    assert s[j] == '/';
    var r := LastSlash(s, 5, k);
    assert r == Some(j);
    assert MatchAtStart(s) == Some(j);
    assert s[j + 1..] == name;
    StripWithoutSlash(name);
  }
}
