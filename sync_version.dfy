/**
 * The release script's tag parsing: the version is the `GITHUB_REF` value
 * with its "refs/tags/" prefix and at most one leading 'v' removed. The
 * environment lookup is a parameter: the unset variable is the empty string.
 */
module SyncVersion {
  import opened Base

  const TagPrefix: string := "refs/tags/"

  /** The version named by `ref`, or `ValueError` when `ref` is not a tag ref. */
  function TagFromRef(ref: string): (r: Py<string>)
    ensures r.Raises? <==> !(TagPrefix <= ref)
    ensures r.Raises? ==> r.exc == ValueError
    ensures r.Value? ==> |r.value| <= |ref| && r.value == ref[|ref| - |r.value|..]
    ensures r.Value? ==> |r.value| == |ref| - |TagPrefix| || |r.value| == |ref| - |TagPrefix| - 1
    ensures r.Value? ==> (|r.value| == |ref| - |TagPrefix| - 1 <==> |ref| > |TagPrefix| && ref[|TagPrefix|] == 'v')
  {
    if TagPrefix <= ref then
      var tag := ref[|TagPrefix|..];
      Value(if tag != [] && tag[0] == 'v' then tag[1..] else tag)
    else Raises(ValueError)
  }

  /** The ref that announces a tag: the partner `TagFromRef` undoes. */
  function TagRef(tag: string): string {
    TagPrefix + tag
  }

  /** A tag ref for a version without a leading 'v' gives the version back. */
  lemma TagRoundTrip(version: string)
    requires version == [] || version[0] != 'v'
    ensures TagFromRef(TagRef(version)) == Value(version)
  {
    assert TagRef(version)[|TagPrefix|..] == version;
  }

  /** A 'v'-prefixed tag ref gives the version after exactly one 'v', whatever follows it. */
  lemma TagRoundTripWithV(version: string)
    ensures TagFromRef(TagRef("v" + version)) == Value(version)
  {
    assert TagRef("v" + version)[|TagPrefix|..] == "v" + version;
    assert ("v" + version)[1..] == version;
  }

  /** Only one 'v' is stripped; plain versions pass; the unset variable and branch refs raise. */
  lemma TagFromRefExamples()
    ensures TagFromRef("refs/tags/vv1.2") == Value("v1.2")
    ensures TagFromRef("refs/tags/v1.2.3") == Value("1.2.3")
    ensures TagFromRef("refs/tags/1.2.3") == Value("1.2.3")
    ensures TagFromRef("") == Raises(ValueError)
    ensures TagFromRef("refs/heads/main") == Raises(ValueError)
  {
    TagRoundTripWithV("v1.2");
    assert TagRef("v" + "v1.2") == "refs/tags/vv1.2";
    TagRoundTripWithV("1.2.3");
    assert TagRef("v" + "1.2.3") == "refs/tags/v1.2.3";
    TagRoundTrip("1.2.3");
    assert TagRef("1.2.3") == "refs/tags/1.2.3";
    assert "refs/heads/main"[5] != TagPrefix[5];
  }
}
