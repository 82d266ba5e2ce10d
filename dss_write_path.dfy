/**
 * Where a DSS destination is written. A configured path may start from the `$WATERSHED`
 * placeholder; the engine and the DSS writer both resolve it the same way. Whether a path is
 * absolute depends on the platform, so it is a parameter.
 */
module DssWritePath {
  import opened JavaStrings

  const WATERSHED_TOKEN: string := "$WATERSHED"

  /**
   * The path to write to: a relative path containing the placeholder has every occurrence
   * replaced by the watershed directory; an absolute path, or one without the placeholder, is
   * used as given.
   */
  function BuildAbsoluteDssWritePath(filepath: string, watershedDir: string, isAbsolute: string -> bool): (r: string)
    ensures isAbsolute(filepath) ==> r == filepath
    ensures !isAbsolute(filepath) ==> r == Replace(filepath, WATERSHED_TOKEN, watershedDir)
  {
    if !isAbsolute(filepath) && Contains(filepath, WATERSHED_TOKEN) then
      Replace(filepath, WATERSHED_TOKEN, watershedDir)
    else if isAbsolute(filepath) then
      filepath
    else
      ReplaceAbsent(filepath, WATERSHED_TOKEN, watershedDir);
      filepath
  }

  /** A relative path that starts with the placeholder (and holds no other) is rooted in the watershed directory. */
  lemma {:induction false} WatershedPrefixResolved(rest: string, watershedDir: string, isAbsolute: string -> bool)
    requires !isAbsolute(WATERSHED_TOKEN + rest)
    requires !Contains(rest, WATERSHED_TOKEN)
    ensures BuildAbsoluteDssWritePath(WATERSHED_TOKEN + rest, watershedDir, isAbsolute) == watershedDir + rest
  {
    var path := WATERSHED_TOKEN + rest;
    assert WATERSHED_TOKEN <= path;
    assert Contains(path, WATERSHED_TOKEN);
    ReplaceFirstOccurrence([], WATERSHED_TOKEN, rest, watershedDir);
    assert [] + WATERSHED_TOKEN + rest == path;
    ReplaceAbsent(rest, WATERSHED_TOKEN, watershedDir);
    assert [] + watershedDir + rest == watershedDir + rest;
  }
}
