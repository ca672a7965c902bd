/** Git tags on deployed commits, and the rollback decision that runs when
    a deploy is abandoned after it went live.

    The repository's tags are a set of tag names; which commit a tag points
    at is not modelled. Each git or deploy command is an oracle: `Ok(())`
    when it succeeds, `Err(f)` when it raises `f`. */
module Tagging {
  import opened Outcomes
  import opened PropertyStore

  /** The tag `_tag_release` puts on a deployed commit. */
  function ReleaseTag(version: string): string
  {
    "gae-" + version
  }

  /** The tag `_tag_as_bad_version` puts on a commit that was rolled back. */
  function BadTag(version: string): string
  {
    "gae-" + version + "-bad"
  }

  /** Every one of `keys` is in the record. */
  predicate AllPresent(props: Record, keys: seq<string>)
  {
    forall i :: 0 <= i < |keys| ==> keys[i] in props
  }

  lemma AllPresentPair(props: Record, a: string, b: string)
    ensures AllPresent(props, [a, b]) <==> a in props && b in props
  {
    var ks := [a, b];
    assert ks[0] == a && ks[1] == b;
  }

  /** Creates `tag` unless it exists. Creating it reads, in order, the
      `needs` keys of the record (the tag message, then the commit), then
      runs `git tag`. An existing tag short-cuts all of that. */
  function CreateTag(props: Record, tags: set<string>, tag: string, needs: seq<string>, gitTag: Result<()>): (r: Result<set<string>>)
    ensures tag in tags ==> r == Ok(tags)
    ensures r.Ok? ==> r.value == tags + {tag}
    ensures tag !in tags ==> (r.Ok? <==> gitTag.Ok? && AllPresent(props, needs))
    ensures r.Err? ==>
      (gitTag.Err? && r.failure == gitTag.failure) || exists i :: 0 <= i < |needs| && r.failure == MissingKey(needs[i])
    decreases |needs|
  {
    if tag in tags then Ok(tags)
    else if needs == [] then
      if gitTag.Ok? then Ok(tags + {tag}) else Err(gitTag.failure)
    else if needs[0] !in props then Err(MissingKey(needs[0]))
    else
      var r := CreateTag(props, tags, tag, needs[1..], gitTag);
      assert forall i :: 0 <= i < |needs[1..]| ==> needs[1..][i] == needs[i + 1];
      r
  }

  /** `_tag_release`: tag the deployed commit `gae-<VERSION_NAME>`. */
  function TagRelease(props: Record, tags: set<string>, gitTag: Result<()>): (r: Result<set<string>>)
    ensures KeyVersionName !in props ==> r == Err(MissingKey(KeyVersionName))
    ensures r.Ok? ==> KeyVersionName in props && r.value == tags + {ReleaseTag(props[KeyVersionName])}
    ensures KeyVersionName in props && ReleaseTag(props[KeyVersionName]) in tags ==> r == Ok(tags)
    ensures KeyVersionName in props && ReleaseTag(props[KeyVersionName]) !in tags ==>
      (r.Ok? <==> gitTag.Ok? && KeyGitRevision in props && KeyGitSha1 in props)
  {
    var version :- Field(props, KeyVersionName);
    AllPresentPair(props, KeyGitRevision, KeyGitSha1);
    CreateTag(props, tags, ReleaseTag(version), [KeyGitRevision, KeyGitSha1], gitTag)
  }

  /** `_tag_as_bad_version`: tag the deployed commit `gae-<VERSION_NAME>-bad`. */
  function TagAsBad(props: Record, tags: set<string>, gitTag: Result<()>): (r: Result<set<string>>)
    ensures KeyVersionName !in props ==> r == Err(MissingKey(KeyVersionName))
    ensures r.Ok? ==> KeyVersionName in props && r.value == tags + {BadTag(props[KeyVersionName])}
    ensures KeyVersionName in props && BadTag(props[KeyVersionName]) in tags ==> r == Ok(tags)
    ensures KeyVersionName in props && BadTag(props[KeyVersionName]) !in tags ==>
      (r.Ok? <==> gitTag.Ok? && KeyGitSha1 in props)
  {
    var version :- Field(props, KeyVersionName);
    AllPresentPair(props, KeyVersionName, KeyGitSha1);
    CreateTag(props, tags, BadTag(version), [KeyVersionName, KeyGitSha1], gitTag)
  }

  /** Tagging twice is tagging once: the second call finds the tag and
      neither reads the record again nor runs git. */
  lemma TagReleaseIdempotent(props: Record, tags: set<string>, git1: Result<()>, git2: Result<()>)
    ensures var once := TagRelease(props, tags, git1);
      once.Ok? ==> TagRelease(props, once.value, git2) == once
  {
  }

  lemma TagAsBadIdempotent(props: Record, tags: set<string>, git1: Result<()>, git2: Result<()>)
    ensures var once := TagAsBad(props, tags, git1);
      once.Ok? ==> TagAsBad(props, once.value, git2) == once
  {
  }

  // ---------------------------------------------------------------------
  // rollback

  /** What the collaborators of a rollback do: the live-version fetch
      returns the version or raises; `git tag`, `git push --tags` and the
      set-default call back to ROLLBACK_TO succeed or raise. */
  datatype RollbackWorld = RollbackWorld(
    live: Result<string>,
    gitTag: Result<()>,
    push: Result<()>,
    setDefault: Result<()>)

  /** What `_rollback_deploy` did when it returned: its boolean result,
      the tags afterwards, whether the default was switched back, and
      whether it warned that the version it went back to is itself marked
      bad. */
  datatype Rollback = Rollback(succeeded: bool, tags: set<string>, switchedBack: bool, warnedBadTarget: bool)

  /** The keys the set-default call back to ROLLBACK_TO reads. */
  const SetDefaultKeys := [KeyDeployPwFile, KeyRollbackTo, KeyDeployEmail, KeyHipchatRoom]

  /** The warning check after switching back, as the code intends it:
      the version rolled back to carries the tag `_tag_as_bad_version`
      gives bad versions. */
  predicate BadTargetWarning(tags: set<string>, rollbackTo: string)
  {
    BadTag(rollbackTo) in tags
  }

  /** The same check as written: it looks for `<ROLLBACK_TO>-bad`,
      without the `gae-` prefix every pipeline tag has. */
  predicate BadTargetWarningAsWritten(tags: set<string>, rollbackTo: string)
  {
    rollbackTo + "-bad" in tags
  }

  /** `_rollback_deploy`. A failure before the guarded block (the live
      version fetch, a missing VERSION_NAME or ROLLBACK_TO) propagates as
      `Err`; a failure inside it is caught and reported as
      `succeeded == false`. */
  function RollbackDeploy(props: Record, tags: set<string>, w: RollbackWorld): (r: Result<Rollback>)
    ensures w.live.Err? ==> r == Err(w.live.failure)
    ensures r.Ok? ==> KeyVersionName in props && KeyRollbackTo in props
    ensures r.Ok? && w.live.value != props[KeyVersionName] ==> r.value == Rollback(true, tags, false, false)
    ensures r.Ok? ==> tags <= r.value.tags <= tags + {BadTag(props[KeyVersionName])}
    ensures r.Ok? ==> (r.value.switchedBack <==> r.value.succeeded && w.live.value == props[KeyVersionName])
    ensures r.Ok? && r.value.switchedBack ==> BadTag(props[KeyVersionName]) in r.value.tags
    ensures r.Ok? ==>
      (r.value.warnedBadTarget <==> r.value.switchedBack && BadTag(props[KeyRollbackTo]) in r.value.tags)
  {
    var live :- w.live;
    var version :- Field(props, KeyVersionName);
    var rollbackTo :- Field(props, KeyRollbackTo);
    if live != version then
      Ok(Rollback(true, tags, false, false))
    else
      var tagged := TagAsBad(props, tags, w.gitTag);
      if tagged.Err? then
        Ok(Rollback(false, tags, false, false))
      else if w.push.Err? || !AllPresent(props, SetDefaultKeys) || w.setDefault.Err? then
        Ok(Rollback(false, tagged.value, false, false))
      else
        Ok(Rollback(true, tagged.value, true, BadTargetWarning(tagged.value, rollbackTo)))
  }

  /** A rollback fails only by returning False, and it returns True exactly
      when the deploy never went live or every step of switching back
      worked: tagging, pushing the tags, and the set-default call with all
      the keys it reads. */
  lemma RollbackSucceedsIff(props: Record, tags: set<string>, w: RollbackWorld)
    requires w.live.Ok? && KeyVersionName in props && KeyRollbackTo in props
    ensures var r := RollbackDeploy(props, tags, w);
      && r.Ok?
      && (r.value.succeeded <==>
            w.live.value != props[KeyVersionName]
            || (TagAsBad(props, tags, w.gitTag).Ok? && w.push.Ok? && AllPresent(props, SetDefaultKeys) && w.setDefault.Ok?))
  {
  }

  /** Rolling back from a version to itself warns, since the version was
      just tagged bad: with the corrected check the tag the pipeline makes
      is the one the warning finds. */
  lemma WarningSeesPipelineBadTags(props: Record, tags: set<string>, w: RollbackWorld)
    requires w.live.Ok? && KeyVersionName in props && KeyRollbackTo in props
    requires props[KeyRollbackTo] == props[KeyVersionName]
    ensures var r := RollbackDeploy(props, tags, w);
      r.Ok? && (r.value.warnedBadTarget <==> r.value.switchedBack)
  {
  }

  /** The check as written misses the tag the pipeline gives a bad
      version: `v1` was marked bad as `gae-v1-bad`, yet rolling back to
      `v1` does not warn. */
  lemma AsWrittenMissesBadTarget()
    ensures BadTag("v1") == "gae-v1-bad"
    ensures BadTargetWarning({"gae-v1-bad"}, "v1")
    ensures !BadTargetWarningAsWritten({"gae-v1-bad"}, "v1")
  {
    assert "v1" + "-bad" != "gae-v1-bad";
  }

  /** More generally, when every tag is one the pipeline made, the check as
      written can only fire for a version name that itself starts with
      `gae-` (or is `gae`), which appengine version names do not. */
  lemma AsWrittenNeedsPrefixedVersion(tags: set<string>, rollbackTo: string)
    requires forall t :: t in tags ==> |t| >= 4 && t[..4] == "gae-"
    requires BadTargetWarningAsWritten(tags, rollbackTo)
    ensures rollbackTo == "gae" || (|rollbackTo| >= 4 && rollbackTo[..4] == "gae-")
  {
    var t := rollbackTo + "-bad";
    assert t in tags;
    assert t[..4] == "gae-";
    assert forall i :: 0 <= i < |rollbackTo| ==> t[i] == rollbackTo[i];
    assert t[|rollbackTo|] == '-';
    if |rollbackTo| < 3 {
      assert false;
    } else if |rollbackTo| == 3 {
      assert rollbackTo == t[..3] == "gae";
    } else {
      assert rollbackTo[..4] == t[..4];
    }
  }
}
