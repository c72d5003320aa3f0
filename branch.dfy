/** The branch reference resolver, `ref_to_branch`. */
module Branch {
  import opened Optional
  import opened Text

  /** The namespace prefix of branch refs. */
  const HeadsPrefix: string := "refs/heads/"

  /** The name shown when a ref is absent or empty. */
  const UnknownBranch: string := "unknown"

  /**
   * A ref becomes a branch name. An absent or empty ref gives "unknown"; a ref
   * under `refs/heads/` has EVERY occurrence of `refs/heads/` removed (the
   * source uses `str.replace`, not a prefix strip); any other ref is kept.
   */
  function RefToBranch(gitRef: Option<string>): (branch: string)
    ensures gitRef.None? || gitRef == Some("") ==> branch == UnknownBranch
    ensures gitRef.Some? && gitRef.value != "" && !StartsWith(gitRef.value, HeadsPrefix) ==> branch == gitRef.value
    ensures gitRef.Some? && StartsWith(gitRef.value, HeadsPrefix) ==> |branch| <= |gitRef.value| - |HeadsPrefix|
  {
    if gitRef.None? || gitRef.value == "" then UnknownBranch
    else if StartsWith(gitRef.value, HeadsPrefix) then
      var r := gitRef.value;
      assert r == HeadsPrefix + r[|HeadsPrefix|..];
      ReplaceAllLeading(HeadsPrefix, r[|HeadsPrefix|..], "");
      ReplaceAll(r, HeadsPrefix, "")
    else gitRef.value
  }

  /** A branch ref whose remainder does not itself contain `refs/heads/` resolves to that remainder. */
  lemma StripsPrefix(name: string)
    requires !Contains(name, HeadsPrefix)
    ensures RefToBranch(Some(HeadsPrefix + name)) == name
  {
    var r := HeadsPrefix + name;
    assert r[..|HeadsPrefix|] == HeadsPrefix;
    assert r[|HeadsPrefix|..] == name;
    ReplaceAllLeading(HeadsPrefix, name, "");
    ReplaceAllAbsent(name, HeadsPrefix, "");
  }

  /** The bare prefix resolves to the empty name, not to "unknown". */
  lemma BarePrefixIsEmpty()
    ensures RefToBranch(Some(HeadsPrefix)) == ""
  {
    assert HeadsPrefix + [] == HeadsPrefix;
    ReplaceAllLeading(HeadsPrefix, [], "");
  }

  /**
   * A repeated occurrence is removed as well, so the result is not the
   * remainder after the prefix: "refs/heads/refs/heads/x" gives "x".
   */
  lemma RemovesEveryOccurrence()
    ensures RefToBranch(Some("refs/heads/refs/heads/x")) == "x"
  {
    var r := "refs/heads/refs/heads/x";
    assert r == HeadsPrefix + (HeadsPrefix + "x");
    ReplaceAllLeading(HeadsPrefix, HeadsPrefix + "x", "");
    StripsPrefix("x");
    assert OccursAt(r, HeadsPrefix, 0);
  }
}
