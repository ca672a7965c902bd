/** The deploy property record: the string map every stage of the
    pipeline reads from `<lockdir>/deploy.prop` and writes back, its
    on-disk `key=value` format, the record built when a deploy starts, and
    the update that keeps derived fields in step with the fields they are
    derived from. */
module PropertyStore {
  import opened Outcomes
  import opened Text
  import opened Disk

  type Record = map<string, string>

  const KeyLockDir := "LOCKDIR"
  const KeyLockAcquireTime := "LOCK_ACQUIRE_TIME"
  const KeyDeployerEmail := "DEPLOYER_EMAIL"
  const KeyDeployerUsername := "DEPLOYER_USERNAME"
  const KeyHipchatName := "DEPLOYER_HIPCHAT_NAME"
  const KeyGitRevision := "GIT_REVISION"
  const KeyGitSha1 := "GIT_SHA1"
  const KeyVersionName := "VERSION_NAME"
  const KeyAutoDeploy := "AUTO_DEPLOY"
  const KeyRollbackTo := "ROLLBACK_TO"
  const KeyJenkinsUrl := "JENKINS_URL"
  const KeyHipchatRoom := "HIPCHAT_ROOM"
  const KeyHipchatSender := "HIPCHAT_SENDER"
  const KeyDeployEmail := "DEPLOY_EMAIL"
  const KeyDeployPwFile := "DEPLOY_PW_FILE"
  const KeyToken := "TOKEN"
  const KeyLastError := "LAST_ERROR"
  const KeyNextSteps := "POSSIBLE_NEXT_STEPS"

  /** `props[key]`, with the KeyError of a missing key. */
  function Field(r: Record, key: string): (v: Result<string>)
    ensures v.Ok? <==> key in r
    ensures v.Ok? ==> v.value == r[key]
    ensures v.Err? ==> v.failure == MissingKey(key)
  {
    if key in r then Ok(r[key]) else Err(MissingKey(key))
  }

  // ---------------------------------------------------------------------
  // the deploy.prop format

  function EntryLine(key: string, value: string): string
  {
    key + "=" + value
  }

  /** The keys in the order `sorted(props.iteritems())` visits them. */
  function WriteOrder(r: Record): (ks: seq<string>)
    ensures |ks| == |r|
    ensures Elems(ks) == r.Keys
    ensures StrictlyAscending(ks)
  {
    SortedSet(r.Keys)
  }

  /** The entry lines for the keys `ks`, in that order. */
  function LinesFor(r: Record, ks: seq<string>): (lines: seq<string>)
    requires forall i :: 0 <= i < |ks| ==> ks[i] in r
    ensures |lines| == |ks|
    ensures forall i :: 0 <= i < |ks| ==> lines[i] == EntryLine(ks[i], r[ks[i]])
  {
    if |ks| == 0 then [] else [EntryLine(ks[0], r[ks[0]])] + LinesFor(r, ks[1..])
  }

  /** The lines `_write_properties` prints, without their newlines. */
  function EntryLines(r: Record): (lines: seq<string>)
    ensures |lines| == |r|
  {
    var ks := WriteOrder(r);
    assert forall i :: 0 <= i < |ks| ==> ks[i] in r by {
      forall i | 0 <= i < |ks|
        ensures ks[i] in r
      {
        assert ks[i] in Elems(ks);
      }
    }
    LinesFor(r, ks)
  }

  /** Every line followed by a newline, as `print >>f` writes it. */
  function Terminated(lines: seq<string>): string
  {
    if |lines| == 0 then "" else lines[0] + "\n" + Terminated(lines[1..])
  }

  function Newlined(lines: seq<string>): seq<string>
  {
    if |lines| == 0 then [] else [lines[0] + "\n"] + Newlined(lines[1..])
  }

  /** The text of `deploy.prop` for a record. */
  function Serialize(r: Record): string
  {
    Terminated(EntryLines(r))
  }

  /** `f.readlines()`: the text cut after every newline, each line keeping
      its newline; a last line without one is kept as it is. */
  function ReadLines(text: string): seq<string>
    decreases |text|
  {
    if |text| == 0 then []
    else
      var i := IndexOf(text, '\n');
      if i == |text| then [text] else [text[..i + 1]] + ReadLines(text[i + 1..])
  }

  /** `(k, v) = l.strip().split('=', 1)`: a line without '=' cannot be
      unpacked into two names and raises ValueError. */
  function ParseLine(line: string): (r: Result<(string, string)>)
    ensures r.Ok? ==> '=' !in r.value.0
  {
    var t := Strip(line);
    var i := IndexOf(t, '=');
    if i == |t| then Err(MalformedLine(line)) else Ok((t[..i], t[i + 1..]))
  }

  /** Reads the lines in order into `acc`; a later line for the same key
      overwrites an earlier one. */
  function ParseLines(lines: seq<string>, acc: Record): (r: Result<Record>)
    ensures r.Err? ==> r.failure.MalformedLine?
  {
    if |lines| == 0 then Ok(acc)
    else
      var entry :- ParseLine(lines[0]);
      ParseLines(lines[1..], acc[entry.0 := entry.1])
  }

  /** `_read_properties` on the text of the file: parse every line, then
      insist that the stored LOCKDIR names the directory read from. */
  function Deserialize(text: string, dir: string): (r: Result<Record>)
    ensures r.Ok? ==> KeyLockDir in r.value && r.value[KeyLockDir] == dir
    ensures r.Err? ==> r.failure.MalformedLine? || r.failure == MissingKey(KeyLockDir) || r.failure.LockdirMismatch?
  {
    var props :- ParseLines(ReadLines(text), map[]);
    var stored :- Field(props, KeyLockDir);
    if stored != dir then Err(LockdirMismatch(stored, dir)) else Ok(props)
  }

  /** `_read_properties(dir)`: IOError when there is no record there. */
  function ReadProperties(d: Disk, dir: string): (r: Result<Record>)
    ensures dir !in d.files ==> r == Err(NoSuchFile(dir))
    ensures r.Ok? ==> dir in d.files && KeyLockDir in r.value && r.value[KeyLockDir] == dir
  {
    var text :- ReadFile(d, dir);
    Deserialize(text, dir)
  }

  /** `_write_properties(props)`: writes into the directory the record's
      own LOCKDIR names, which must exist. */
  function WriteProperties(d: Disk, r: Record): (res: Result<Disk>)
    ensures res.Ok? <==> KeyLockDir in r && r[KeyLockDir] in d.dirs
    ensures res.Ok? ==> res.value.dirs == d.dirs
    ensures res.Ok? ==> res.value.files == d.files[r[KeyLockDir] := Serialize(r)]
    ensures d.Valid() && res.Ok? ==> res.value.Valid()
  {
    var dir :- Field(r, KeyLockDir);
    WriteFile(d, dir, Serialize(r))
  }

  // ---------------------------------------------------------------------
  // round trip

  /** A key survives the format when it holds no '=' and no newline and
      does not start with whitespace. */
  predicate SafeKey(k: string)
  {
    '=' !in k && '\n' !in k && (k == [] || !IsSpace(k[0]))
  }

  /** A value survives the format when it holds no newline and does not
      end with whitespace. */
  predicate SafeValue(v: string)
  {
    '\n' !in v && (v == [] || !IsSpace(v[|v| - 1]))
  }

  predicate Storable(r: Record)
  {
    forall k :: k in r ==> SafeKey(k) && SafeValue(r[k])
  }

  lemma {:induction false} ReadLinesOfTerminated(lines: seq<string>)
    requires forall i :: 0 <= i < |lines| ==> '\n' !in lines[i]
    ensures ReadLines(Terminated(lines)) == Newlined(lines)
    decreases |lines|
  {
    if |lines| > 0 {
      var text := Terminated(lines);
      var head := lines[0];
      var rest := Terminated(lines[1..]);
      assert text == head + "\n" + rest;
      assert forall j :: 0 <= j < |head| ==> text[j] == head[j];
      assert text[|head|] == '\n';
      assert IndexOf(text, '\n') == |head|;
      assert text[..|head| + 1] == head + "\n";
      assert text[|head| + 1..] == rest;
      ReadLinesOfTerminated(lines[1..]);
    }
  }

  lemma ParseEntryLine(k: string, v: string)
    requires SafeKey(k) && SafeValue(v)
    ensures ParseLine(EntryLine(k, v) + "\n") == Ok((k, v))
  {
    var line := EntryLine(k, v);
    assert line[|k|] == '=';
    assert !IsSpace(line[0]) && !IsSpace(line[|line| - 1]);
    assert TrimLeft(line + "\n") == line + "\n";
    assert (line + "\n")[..|line|] == line;
    assert TrimRight(line + "\n") == TrimRight(line);
    assert Strip(line + "\n") == line;
    assert forall j :: 0 <= j < |k| ==> line[j] == k[j];
    assert IndexOf(line, '=') == |k|;
    assert line[..|k|] == k;
    assert line[|k| + 1..] == v;
  }

  /** `acc` with the entries of `r` for the keys `ks` stored in order. */
  function Overlay(acc: Record, r: Record, ks: seq<string>): Record
    requires forall i :: 0 <= i < |ks| ==> ks[i] in r
    decreases |ks|
  {
    if |ks| == 0 then acc else Overlay(acc[ks[0] := r[ks[0]]], r, ks[1..])
  }

  lemma {:induction false} OverlayCovers(acc: Record, r: Record, ks: seq<string>)
    requires forall i :: 0 <= i < |ks| ==> ks[i] in r
    ensures Overlay(acc, r, ks).Keys == acc.Keys + Elems(ks)
    ensures forall k :: k in Overlay(acc, r, ks) ==>
      Overlay(acc, r, ks)[k] == if k in Elems(ks) then r[k] else acc[k]
    decreases |ks|
  {
    if |ks| > 0 {
      OverlayCovers(acc[ks[0] := r[ks[0]]], r, ks[1..]);
      assert Elems(ks) == {ks[0]} + Elems(ks[1..]);
    }
  }

  lemma {:induction false} ParseEntries(r: Record, ks: seq<string>, acc: Record)
    requires Storable(r)
    requires forall i :: 0 <= i < |ks| ==> ks[i] in r
    ensures ParseLines(Newlined(LinesFor(r, ks)), acc) == Ok(Overlay(acc, r, ks))
    decreases |ks|
  {
    if |ks| > 0 {
      var k := ks[0];
      var lines := Newlined(LinesFor(r, ks));
      assert LinesFor(r, ks)[1..] == LinesFor(r, ks[1..]);
      assert lines[0] == EntryLine(k, r[k]) + "\n";
      assert lines[1..] == Newlined(LinesFor(r, ks[1..]));
      ParseEntryLine(k, r[k]);
      assert ParseLine(lines[0]) == Ok((k, r[k]));
      ParseEntries(r, ks[1..], acc[k := r[k]]);
      assert ParseLines(lines, acc) == ParseLines(lines[1..], acc[k := r[k]]);
    }
  }

  lemma {:induction false} NoNewlineInLines(r: Record, ks: seq<string>)
    requires Storable(r)
    requires forall i :: 0 <= i < |ks| ==> ks[i] in r
    ensures forall i :: 0 <= i < |ks| ==> '\n' !in LinesFor(r, ks)[i]
    decreases |ks|
  {
    forall i | 0 <= i < |ks|
      ensures '\n' !in LinesFor(r, ks)[i]
    {
      var k := ks[i];
      assert LinesFor(r, ks)[i] == k + "=" + r[k];
    }
  }

  lemma SameEntries(a: Record, b: Record)
    requires a.Keys == b.Keys
    requires forall k :: k in a ==> a[k] == b[k]
    ensures a == b
  {
  }

  /** Reading what was written gives the record back, as long as every key
      and value survives the format and the record sits in the directory its
      own LOCKDIR names. */
  lemma ReadAfterWrite(r: Record)
    requires Storable(r) && KeyLockDir in r
    ensures Deserialize(Serialize(r), r[KeyLockDir]) == Ok(r)
  {
    ParseSerialized(r);
  }

  /** The lines of the written text parse back to the record. */
  lemma ParseSerialized(r: Record)
    requires Storable(r)
    ensures ParseLines(ReadLines(Serialize(r)), map[]) == Ok(r)
  {
    ReadBackLines(r);
    ParseBackEntries(r);
  }

  lemma ReadBackLines(r: Record)
    requires Storable(r)
    ensures ReadLines(Serialize(r)) == Newlined(EntryLines(r))
  {
    var ks := WriteOrder(r);
    KeysInRecord(r);
    NoNewlineInLines(r, ks);
    ReadLinesOfTerminated(LinesFor(r, ks));
  }

  lemma ParseBackEntries(r: Record)
    requires Storable(r)
    ensures ParseLines(Newlined(EntryLines(r)), map[]) == Ok(r)
  {
    var ks := WriteOrder(r);
    KeysInRecord(r);
    ParseEntries(r, ks, map[]);
    OverlayAll(r, ks);
  }

  /** Storing every key of a record, starting from nothing, gives the record. */
  lemma OverlayAll(r: Record, ks: seq<string>)
    requires forall i :: 0 <= i < |ks| ==> ks[i] in r
    requires Elems(ks) == r.Keys
    ensures Overlay(map[], r, ks) == r
  {
    OverlayCovers(map[], r, ks);
    var o := Overlay(map[], r, ks);
    assert o.Keys == r.Keys;
    SameEntries(o, r);
  }

  lemma KeysInRecord(r: Record)
    ensures forall i :: 0 <= i < |WriteOrder(r)| ==> WriteOrder(r)[i] in r
  {
    var ks := WriteOrder(r);
    forall i | 0 <= i < |ks|
      ensures ks[i] in r
    {
      assert ks[i] in Elems(ks);
    }
  }

  /** A record moved to another directory behind the reader's back is
      refused rather than accepted. */
  lemma ReadRejectsForeignRecord(r: Record, dir: string)
    requires Storable(r) && KeyLockDir in r && r[KeyLockDir] != dir
    ensures Deserialize(Serialize(r), dir) == Err(LockdirMismatch(r[KeyLockDir], dir))
  {
    ParseSerialized(r);
  }

  /** Written then read through the disk: the same record comes back, and
      writing it again puts the same text on disk. */
  lemma DiskRoundTrip(d: Disk, r: Record)
    requires Storable(r) && KeyLockDir in r && r[KeyLockDir] in d.dirs
    ensures WriteProperties(d, r).Ok?
    ensures ReadProperties(WriteProperties(d, r).value, r[KeyLockDir]) == Ok(r)
    ensures WriteProperties(WriteProperties(d, r).value, r) == WriteProperties(d, r)
  {
    var dir := r[KeyLockDir];
    var d1 := WriteProperties(d, r).value;
    assert d1.files[dir] == Serialize(r);
    ReadAfterWrite(r);
    assert ReadProperties(d1, dir) == Deserialize(Serialize(r), dir);
    RewriteSame(d1, dir, Serialize(r));
  }

  /** Writing the text a file already holds changes nothing. */
  lemma RewriteSame(d: Disk, dir: string, text: string)
    requires dir in d.dirs && dir in d.files && d.files[dir] == text
    ensures WriteFile(d, dir, text) == Ok(d)
  {
    assert d.files[dir := text] == d.files;
  }

  /** The written lines are the record's entries in strictly ascending key
      order. */
  lemma WrittenInKeyOrder(r: Record)
    ensures |EntryLines(r)| == |r|
    ensures forall i :: 0 <= i < |r| ==>
      WriteOrder(r)[i] in r && EntryLines(r)[i] == EntryLine(WriteOrder(r)[i], r[WriteOrder(r)[i]])
    ensures forall i, j :: 0 <= i < j < |r| ==>
      Below(WriteOrder(r)[i], WriteOrder(r)[j]) && WriteOrder(r)[i] != WriteOrder(r)[j]
  {
    var ks := WriteOrder(r);
    forall i | 0 <= i < |r|
      ensures ks[i] in r
    {
      assert ks[i] in Elems(ks);
    }
  }

  // ---------------------------------------------------------------------
  // next steps

  const EscapeHatches: set<string> := {"finish-with-failure", "finish-with-rollback", "finish-with-unlock", "relock"}

  /** The steps a POSSIBLE_NEXT_STEPS value allows: `set(v.split(','))`. */
  function StepSet(v: string): set<string>
  {
    Elems(Split(v, ','))
  }

  lemma HatchesHoldNoComma()
    ensures forall x :: x in EscapeHatches ==> ',' !in x
  {
    assert ',' !in "finish-with-failure";
    assert ',' !in "finish-with-rollback";
    assert ',' !in "finish-with-unlock";
    assert ',' !in "relock";
  }

  lemma NoCommaInSteps(v: string)
    ensures forall x :: x in StepSet(v) + EscapeHatches ==> ',' !in x
  {
    HatchesHoldNoComma();
    var parts := Split(v, ',');
    forall x | x in StepSet(v)
      ensures ',' !in x
    {
      var i :| 0 <= i < |parts| && parts[i] == x;
    }
  }

  /** The value `_update_properties` stores for POSSIBLE_NEXT_STEPS: the
      caller's steps plus the four escape hatches, sorted, without
      duplicates, joined by commas. */
  function NormalizeSteps(v: string): (r: string)
    ensures Split(r, ',') == SortedSet(StepSet(v) + EscapeHatches)
    ensures StepSet(r) == StepSet(v) + EscapeHatches
    ensures StrictlyAscending(Split(r, ','))
  {
    var steps := SortedSet(StepSet(v) + EscapeHatches);
    SortedStepsSplitBack(v);
    Join(steps, ",")
  }

  lemma SortedStepsSplitBack(v: string)
    ensures var steps := SortedSet(StepSet(v) + EscapeHatches);
      Split(Join(steps, ","), ',') == steps
  {
    var steps := SortedSet(StepSet(v) + EscapeHatches);
    SortedStepsHoldNoComma(v);
    SplitOfJoin(steps, ',');
  }

  lemma SortedStepsHoldNoComma(v: string)
    ensures var steps := SortedSet(StepSet(v) + EscapeHatches);
      |steps| >= 1 && forall i :: 0 <= i < |steps| ==> ',' !in steps[i]
  {
    var all := StepSet(v) + EscapeHatches;
    RelockIsHatch();
    NoCommaInSteps(v);
    SortedKeepsOut(all, ',');
  }

  lemma RelockIsHatch()
    ensures "relock" in EscapeHatches
  {
  }

  /** Normalizing a normalized value changes nothing. */
  lemma NormalizeIdempotent(v: string)
    ensures NormalizeSteps(NormalizeSteps(v)) == NormalizeSteps(v)
  {
    assert StepSet(v) + EscapeHatches + EscapeHatches == StepSet(v) + EscapeHatches;
  }

  // ---------------------------------------------------------------------
  // hipchat names

  const UnknownUser := "<b>Unknown user:</b>"

  /** `_email_to_hipchat_name` with the fetched email-to-mention map passed
      in as `directory` (empty when the fetch failed). */
  function HipchatName(email: Option<string>, directory: map<string, string>): string
  {
    match email
    case None => UnknownUser
    case Some(e) => if e in directory then directory[e] else "@" + BeforeFirst(e, '@')
  }

  /** An address the directory does not know becomes '@' and its local
      part: the text before the first '@'. */
  lemma FallbackMention(email: string, directory: map<string, string>)
    requires email !in directory
    ensures var name := HipchatName(Some(email), directory);
      && |name| >= 1 && name[0] == '@'
      && '@' !in name[1..]
      && name[1..] <= email
      && (|name| - 1 == |email| || email[|name| - 1] == '@')
  {
  }

  // ---------------------------------------------------------------------
  // a fresh record

  /** Everything the outside world supplies to one invocation: the version
      namer, the fetched hipchat directory and the clock. The namer is
      `_gae_version`, which runs `git fetch` and asks the deploy tools for
      the dated version name; either may raise, so it returns a `Result`. */
  datatype Env = Env(versionOf: string -> Result<string>, directory: map<string, string>, now: int)

  /** The arguments of `_create_properties`. */
  datatype DeployRequest = DeployRequest(
    lockdir: string,
    deployerEmail: string,
    gitRevision: string,
    autoDeploy: bool,
    rollbackTo: string,
    jenkinsUrl: string,
    hipchatRoom: string,
    hipchatSender: string,
    deployEmail: string,
    deployPwFile: string,
    token: string)

  const InitialSteps := "acquire-lock" + "," + "finish-with-unlock" + "," + "relock"

  /** `_create_properties`: a fresh record for acquire-lock. It names the
      version before anything else is derived, so a failing namer raises
      and no record comes out. */
  function CreateProperties(req: DeployRequest, env: Env): (r: Result<Record>)
    ensures r.Err? <==> env.versionOf(req.gitRevision).Err?
    ensures r.Err? ==> r.failure == env.versionOf(req.gitRevision).failure
    ensures r.Ok? ==>
      && KeyLockDir in r.value && KeyToken in r.value && KeyGitSha1 in r.value && KeyVersionName in r.value
      && KeyAutoDeploy in r.value && KeyLastError in r.value && KeyNextSteps in r.value
    ensures r.Ok? ==> r.value[KeyLockDir] == req.lockdir && r.value[KeyToken] == req.token
    ensures r.Ok? ==>
      r.value[KeyGitSha1] == req.gitRevision && r.value[KeyVersionName] == env.versionOf(req.gitRevision).value
    ensures r.Ok? ==> (r.value[KeyAutoDeploy] == "true" <==> req.autoDeploy)
    ensures r.Ok? ==> r.value[KeyLastError] == "" && r.value[KeyNextSteps] == InitialSteps
  {
    var version :- env.versionOf(req.gitRevision);
    Ok(map[
      KeyLockDir := req.lockdir,
      KeyDeployerEmail := req.deployerEmail,
      KeyGitRevision := req.gitRevision,
      KeyAutoDeploy := if req.autoDeploy then "true" else "false",
      KeyRollbackTo := req.rollbackTo,
      KeyJenkinsUrl := req.jenkinsUrl,
      KeyHipchatRoom := req.hipchatRoom,
      KeyHipchatSender := req.hipchatSender,
      KeyDeployEmail := req.deployEmail,
      KeyDeployPwFile := req.deployPwFile,
      KeyToken := req.token,
      KeyGitSha1 := req.gitRevision,
      KeyVersionName := version,
      KeyDeployerUsername := BeforeFirst(req.deployerEmail, '@'),
      KeyHipchatName := HipchatName(Some(req.deployerEmail), env.directory),
      KeyLastError := "",
      KeyNextSteps := InitialSteps
    ])
  }

  /** A fresh record holds the eleven request fields and the six derived
      ones, and no LOCK_ACQUIRE_TIME until the lock is taken. */
  lemma FreshRecordKeys(req: DeployRequest, env: Env)
    requires env.versionOf(req.gitRevision).Ok?
    ensures CreateProperties(req, env).Ok?
    ensures CreateProperties(req, env).value.Keys ==
      {KeyLockDir, KeyDeployerEmail, KeyGitRevision, KeyAutoDeploy, KeyRollbackTo,
       KeyJenkinsUrl, KeyHipchatRoom, KeyHipchatSender, KeyDeployEmail, KeyDeployPwFile,
       KeyToken, KeyGitSha1, KeyVersionName, KeyDeployerUsername, KeyHipchatName,
       KeyLastError, KeyNextSteps}
  {
  }

  /** A fresh record allows exactly acquire-lock, finish-with-unlock and
      relock; unlike every later value it lacks finish-with-failure and
      finish-with-rollback. */
  lemma InitialStepList()
    ensures Split(InitialSteps, ',') == ["acquire-lock", "finish-with-unlock", "relock"]
    ensures StepSet(InitialSteps) == {"acquire-lock", "finish-with-unlock", "relock"}
  {
    InitialSplit();
    ElemsOfThree("acquire-lock", "finish-with-unlock", "relock");
  }

  /** finish-with-failure and finish-with-rollback are not among the first
      steps, so a failure before the lock is taken cannot be reported
      through the pipeline. */
  lemma InitialLacksFailureHatches()
    ensures "finish-with-failure" !in StepSet(InitialSteps)
    ensures "finish-with-rollback" !in StepSet(InitialSteps)
  {
    InitialStepList();
    FailureHatchesNotAmong(StepSet(InitialSteps));
  }

  lemma FailureHatchesNotAmong(steps: set<string>)
    requires steps == {"acquire-lock", "finish-with-unlock", "relock"}
    ensures "finish-with-failure" !in steps && "finish-with-rollback" !in steps
  {
    assert "finish-with-failure" !in {"acquire-lock", "finish-with-unlock", "relock"};
    assert "finish-with-rollback" !in {"acquire-lock", "finish-with-unlock", "relock"};
  }

  lemma InitialSplit()
    ensures Split(InitialSteps, ',') == ["acquire-lock", "finish-with-unlock", "relock"]
  {
    var a, b, c := "acquire-lock", "finish-with-unlock", "relock";
    assert ',' !in a && ',' !in b && ',' !in c;
    SplitThree(a, b, c, ',');
  }

  // ---------------------------------------------------------------------
  // update

  /** `dict.setdefault(key, value)`: the key is present afterwards, and an
      existing value wins. */
  function SetDefault(m: Record, key: string, value: string): (r: Record)
    ensures r.Keys == m.Keys + {key}
    ensures forall k :: k in m ==> r[k] == m[k]
    ensures key !in m ==> r[key] == value
  {
    if key in m then m else m[key := value]
  }

  /** `new_values.setdefault(key, derive(new_values[trigger]))` when the
      trigger is among the new values; otherwise nothing happens. */
  function DeriveFrom(c: Record, trigger: string, key: string, derive: string -> string): (r: Record)
    ensures r.Keys == c.Keys + (if trigger in c then {key} else {})
    ensures forall k :: k in c ==> r[k] == c[k]
    ensures trigger in c && key !in c ==> r[key] == derive(c[trigger])
    ensures trigger !in c ==> r == c
  {
    if trigger in c then SetDefault(c, key, derive(c[trigger])) else c
  }

  /** `new_values.setdefault('VERSION_NAME', _gae_version(sha1))` when
      GIT_SHA1 is among the new values. Python evaluates the argument
      before `setdefault` looks at the key, so the namer runs, and may
      raise, even when the caller passes VERSION_NAME. */
  function DeriveVersion(c: Record, versionOf: string -> Result<string>): (r: Result<Record>)
    ensures KeyGitSha1 !in c ==> r == Ok(c)
    ensures KeyGitSha1 in c ==> (r.Ok? <==> versionOf(c[KeyGitSha1]).Ok?)
    ensures KeyGitSha1 in c && r.Err? ==> r.failure == versionOf(c[KeyGitSha1]).failure
    ensures KeyGitSha1 in c && r.Ok? ==> r.value == SetDefault(c, KeyVersionName, versionOf(c[KeyGitSha1]).value)
  {
    if KeyGitSha1 !in c then Ok(c)
    else
      var name :- versionOf(c[KeyGitSha1]);
      Ok(SetDefault(c, KeyVersionName, name))
  }

  /** What the namer raises during an update with these changes, if it
      runs and fails. */
  function NamerFailure(changes: Record, env: Env): Option<Failure>
  {
    if KeyGitSha1 in changes && env.versionOf(changes[KeyGitSha1]).Err? then
      Some(env.versionOf(changes[KeyGitSha1]).failure)
    else None
  }

  /** The last step of the derivations: POSSIBLE_NEXT_STEPS, when given,
      is replaced by its normal form. */
  function WithNormalSteps(c: Record): (r: Record)
    ensures r.Keys == c.Keys
    ensures forall k :: k in c && k != KeyNextSteps ==> r[k] == c[k]
    ensures KeyNextSteps in c ==> r[KeyNextSteps] == NormalizeSteps(c[KeyNextSteps])
  {
    Normalized(c, KeyNextSteps, NormalizeSteps)
  }

  /** `c` with the entry at `k`, if any, put through `f`. */
  function Normalized(c: Record, k: string, f: string -> string): (r: Record)
    ensures r.Keys == c.Keys
    ensures forall j :: j in c && j != k ==> r[j] == c[j]
    ensures k in c ==> r[k] == f(c[k])
  {
    if k in c then c[k := f(c[k])] else c
  }

  /** The caller's changes with the derived fields added, in the fixed
      order of `_update_properties`; each derivation fires only when its
      trigger is among the changes (possibly as the result of an earlier
      derivation) and never overrides a caller's value. The namer's
      failure stops the update before anything is stored. */
  function Derive(changes: Record, env: Env): Result<Record>
  {
    var named :- DeriveVersion(changes, env.versionOf);
    Ok(DeriveRest(named, env))
  }

  /** The derivations after the version name; none of them can fail. */
  function DeriveRest(c: Record, env: Env): Record
  {
    var c2 := DeriveFrom(c, KeyDeployerEmail, KeyDeployerUsername, e => BeforeFirst(e, '@'));
    var c3 := DeriveFrom(c2, KeyDeployerUsername, KeyHipchatName, u => HipchatName(Some(u), env.directory));
    var c4 := DeriveFrom(c3, KeyLockDir, KeyLockAcquireTime, _ => IntToString(env.now));
    WithNormalSteps(c4)
  }

  /** The keys the derivations after the version name may add. */
  function RestTouched(c: Record): set<string>
  {
    c.Keys
    + (if KeyDeployerEmail in c then {KeyDeployerUsername} else {})
    + (if KeyDeployerEmail in c || KeyDeployerUsername in c then {KeyHipchatName} else {})
    + (if KeyLockDir in c then {KeyLockAcquireTime} else {})
  }

  lemma DeriveRestFacts(c: Record, env: Env)
    ensures var r := DeriveRest(c, env);
      && r.Keys == RestTouched(c)
      && (forall k :: k in c && k != KeyNextSteps ==> r[k] == c[k])
      && (KeyNextSteps in c ==> r[KeyNextSteps] == NormalizeSteps(c[KeyNextSteps]))
      && (KeyDeployerEmail in c && KeyDeployerUsername !in c ==>
            r[KeyDeployerUsername] == BeforeFirst(c[KeyDeployerEmail], '@'))
      && (KeyHipchatName in r && KeyHipchatName !in c ==>
            KeyDeployerUsername in r && r[KeyHipchatName] == HipchatName(Some(r[KeyDeployerUsername]), env.directory))
      && (KeyLockDir in c && KeyLockAcquireTime !in c ==> r[KeyLockAcquireTime] == IntToString(env.now))
  {
    var c2 := DeriveFrom(c, KeyDeployerEmail, KeyDeployerUsername, e => BeforeFirst(e, '@'));
    var c3 := DeriveFrom(c2, KeyDeployerUsername, KeyHipchatName, u => HipchatName(Some(u), env.directory));
    var c4 := DeriveFrom(c3, KeyLockDir, KeyLockAcquireTime, _ => IntToString(env.now));
    assert DeriveRest(c, env) == WithNormalSteps(c4);
    assert KeyDeployerUsername in c2 <==> KeyDeployerEmail in c || KeyDeployerUsername in c;
    assert KeyLockDir in c3 <==> KeyLockDir in c;
  }

  /** The keys an update with these changes may write: the changes
      themselves and every derived field whose trigger chain starts in
      them. */
  function Touched(changes: Record): set<string>
  {
    changes.Keys
    + (if KeyGitSha1 in changes then {KeyVersionName} else {})
    + (if KeyDeployerEmail in changes then {KeyDeployerUsername} else {})
    + (if KeyDeployerEmail in changes || KeyDeployerUsername in changes then {KeyHipchatName} else {})
    + (if KeyLockDir in changes then {KeyLockAcquireTime} else {})
  }

  /** What the derivations add and what they leave alone. */
  lemma DeriveFacts(changes: Record, env: Env)
    ensures Derive(changes, env).Err? <==> NamerFailure(changes, env).Some?
    ensures Derive(changes, env).Err? ==> Derive(changes, env).failure == NamerFailure(changes, env).value
    ensures Derive(changes, env).Ok? ==>
      var r := Derive(changes, env).value;
      && r.Keys == Touched(changes)
      && (forall k :: k in changes && k != KeyNextSteps ==> r[k] == changes[k])
      && (KeyNextSteps in changes ==> r[KeyNextSteps] == NormalizeSteps(changes[KeyNextSteps]))
      && (KeyGitSha1 in changes && KeyVersionName !in changes ==>
            r[KeyVersionName] == env.versionOf(changes[KeyGitSha1]).value)
      && (KeyDeployerEmail in changes && KeyDeployerUsername !in changes ==>
            r[KeyDeployerUsername] == BeforeFirst(changes[KeyDeployerEmail], '@'))
      && (KeyHipchatName in r && KeyHipchatName !in changes ==>
            KeyDeployerUsername in r && r[KeyHipchatName] == HipchatName(Some(r[KeyDeployerUsername]), env.directory))
      && (KeyLockDir in changes && KeyLockAcquireTime !in changes ==>
            r[KeyLockAcquireTime] == IntToString(env.now))
  {
    var v := DeriveVersion(changes, env.versionOf);
    if v.Ok? {
      assert Derive(changes, env) == Ok(DeriveRest(v.value, env));
      DerivedFacts(changes, env, v.value);
    }
  }

  /** The facts of `DeriveFacts` for the record the namer left. */
  lemma DerivedFacts(changes: Record, env: Env, c1: Record)
    requires DeriveVersion(changes, env.versionOf) == Ok(c1)
    ensures var r := DeriveRest(c1, env);
      && r.Keys == Touched(changes)
      && (forall k :: k in changes && k != KeyNextSteps ==> r[k] == changes[k])
      && (KeyNextSteps in changes ==> r[KeyNextSteps] == NormalizeSteps(changes[KeyNextSteps]))
      && (KeyGitSha1 in changes && KeyVersionName !in changes ==>
            r[KeyVersionName] == env.versionOf(changes[KeyGitSha1]).value)
      && (KeyDeployerEmail in changes && KeyDeployerUsername !in changes ==>
            r[KeyDeployerUsername] == BeforeFirst(changes[KeyDeployerEmail], '@'))
      && (KeyHipchatName in r && KeyHipchatName !in changes ==>
            KeyDeployerUsername in r && r[KeyHipchatName] == HipchatName(Some(r[KeyDeployerUsername]), env.directory))
      && (KeyLockDir in changes && KeyLockAcquireTime !in changes ==>
            r[KeyLockAcquireTime] == IntToString(env.now))
  {
    NamedKeeps(changes, c1, env.versionOf);
    DeriveRestFacts(c1, env);
    VersionNameTriggersNothing();
    assert RestTouched(c1) == Touched(changes);
  }

  /** Naming the version adds VERSION_NAME at most and keeps every
      change. */
  lemma NamedKeeps(changes: Record, c1: Record, versionOf: string -> Result<string>)
    requires DeriveVersion(changes, versionOf) == Ok(c1)
    ensures c1.Keys == changes.Keys + (if KeyGitSha1 in changes then {KeyVersionName} else {})
    ensures forall k :: k in changes ==> c1[k] == changes[k]
    ensures KeyGitSha1 in changes && KeyVersionName !in changes ==>
      c1[KeyVersionName] == versionOf(changes[KeyGitSha1]).value
  {
  }

  /** VERSION_NAME feeds no later derivation and is not the step list. */
  lemma VersionNameTriggersNothing()
    ensures KeyVersionName != KeyDeployerEmail && KeyVersionName != KeyDeployerUsername
    ensures KeyVersionName != KeyHipchatName && KeyVersionName != KeyLockDir
    ensures KeyVersionName != KeyLockAcquireTime && KeyVersionName != KeyNextSteps
  {
  }

  /** `_update_properties` without the write: `props.update(new_values)`
      after the derivations. It raises, leaving the record alone, exactly
      when GIT_SHA1 is among the changes and naming its version fails.
      Otherwise exactly the touched keys change; every key the caller
      passes ends up with the caller's value, except POSSIBLE_NEXT_STEPS,
      which is normalized (see `UpdateDerivedFields`). */
  function Update(props: Record, changes: Record, env: Env): (r: Result<Record>)
    ensures r.Err? <==> NamerFailure(changes, env).Some?
    ensures r.Err? ==> r.failure == NamerFailure(changes, env).value
    ensures r.Ok? ==> r.value.Keys == props.Keys + Touched(changes)
    ensures r.Ok? ==> forall k :: k in props && k !in Touched(changes) ==> r.value[k] == props[k]
    ensures r.Ok? ==> forall k :: k in changes && k != KeyNextSteps ==> r.value[k] == changes[k]
  {
    DeriveFacts(changes, env);
    var derived :- Derive(changes, env);
    Ok(props + derived)
  }

  /** The derived fields after an update: each one the caller did not set
      itself is computed from its trigger, and the stored next steps are
      the normal form of the caller's. */
  lemma UpdateDerivedFields(props: Record, changes: Record, env: Env)
    ensures Update(props, changes, env).Ok? ==>
      var r := Update(props, changes, env).value;
      && (KeyNextSteps in changes ==> r[KeyNextSteps] == NormalizeSteps(changes[KeyNextSteps]))
      && (KeyGitSha1 in changes && KeyVersionName !in changes ==>
            r[KeyVersionName] == env.versionOf(changes[KeyGitSha1]).value)
      && (KeyDeployerEmail in changes && KeyDeployerUsername !in changes ==>
            r[KeyDeployerUsername] == BeforeFirst(changes[KeyDeployerEmail], '@'))
      && (KeyHipchatName in Touched(changes) && KeyHipchatName !in changes ==>
            KeyDeployerUsername in r && r[KeyHipchatName] == HipchatName(Some(r[KeyDeployerUsername]), env.directory))
      && (KeyLockDir in changes && KeyLockAcquireTime !in changes ==>
            r[KeyLockAcquireTime] == IntToString(env.now))
  {
    DeriveFacts(changes, env);
  }

  /** Whatever the caller passes for POSSIBLE_NEXT_STEPS, the stored value
      lists the caller's steps and the four escape hatches, each once, in
      ascending order. */
  lemma EscapeHatchesSurvive(props: Record, changes: Record, env: Env)
    requires KeyNextSteps in changes
    ensures Update(props, changes, env).Ok? ==>
      var steps := Update(props, changes, env).value[KeyNextSteps];
      && EscapeHatches <= StepSet(steps)
      && StepSet(steps) == StepSet(changes[KeyNextSteps]) + EscapeHatches
      && StrictlyAscending(Split(steps, ','))
  {
    UpdateDerivedFields(props, changes, env);
  }

  /** Applying an update's POSSIBLE_NEXT_STEPS to its own result again
      leaves the whole record as it was. */
  lemma UpdateStepsIdempotent(props: Record, changes: Record, env: Env)
    requires KeyNextSteps in changes
    ensures var u := Update(props, changes, env);
      u.Ok? ==> Update(u.value, map[KeyNextSteps := u.value[KeyNextSteps]], env) == u
  {
    var u := Update(props, changes, env);
    if u.Ok? {
      var r := u.value;
      UpdateDerivedFields(props, changes, env);
      NormalizeIdempotent(changes[KeyNextSteps]);
      UpdateOnlySteps(r, r[KeyNextSteps], env);
      RestoreSame(r, KeyNextSteps);
    }
  }

  lemma RestoreSame(m: Record, k: string)
    requires k in m
    ensures m[k := m[k]] == m
  {
    SameEntries(m[k := m[k]], m);
  }

  lemma MergeOne(m: Record, k: string, x: string)
    ensures m + map[k := x] == m[k := x]
  {
    SameEntries(m + map[k := x], m[k := x]);
  }

  /** Changes that trigger no derivation only have their step list
      normalized. */
  lemma DeriveNothing(c: Record, env: Env)
    requires KeyGitSha1 !in c && KeyDeployerEmail !in c && KeyDeployerUsername !in c && KeyLockDir !in c
    ensures Derive(c, env) == Ok(WithNormalSteps(c))
  {
  }

  lemma StepsTriggerNothing()
    ensures KeyNextSteps != KeyGitSha1 && KeyNextSteps != KeyDeployerEmail
    ensures KeyNextSteps != KeyDeployerUsername && KeyNextSteps != KeyLockDir
  {
  }

  lemma DeriveOnlySteps(v: string, env: Env)
    ensures Derive(map[KeyNextSteps := v], env) == Ok(map[KeyNextSteps := NormalizeSteps(v)])
  {
    StepsTriggerNothing();
    DeriveNothing(map[KeyNextSteps := v], env);
    NormalizedSingle(KeyNextSteps, v, NormalizeSteps);
  }

  lemma NormalizedSingle(k: string, v: string, f: string -> string)
    ensures Normalized(map[k := v], k, f) == map[k := f(v)]
  {
    SameEntries(Normalized(map[k := v], k, f), map[k := f(v)]);
  }

  /** An update that passes only POSSIBLE_NEXT_STEPS replaces that one
      entry by the normal form and touches nothing else. */
  lemma UpdateOnlySteps(props: Record, v: string, env: Env)
    ensures Update(props, map[KeyNextSteps := v], env) == Ok(props[KeyNextSteps := NormalizeSteps(v)])
  {
    DeriveOnlySteps(v, env);
    MergeOne(props, KeyNextSteps, NormalizeSteps(v));
  }

  /** The record keys the lock and dispatch code tells apart. */
  lemma DistinctKeys()
    ensures KeyLockDir != KeyLockAcquireTime && KeyLockDir != KeyNextSteps && KeyLockDir != KeyLastError
    ensures KeyLockAcquireTime != KeyNextSteps && KeyLastError != KeyNextSteps
  {
  }

  /** An update of one key that triggers no derivation and is not the
      step list is a plain assignment of that key. */
  lemma UpdatePlain(props: Record, k: string, v: string, env: Env)
    requires k !in {KeyGitSha1, KeyDeployerEmail, KeyDeployerUsername, KeyLockDir, KeyNextSteps}
    ensures Update(props, map[k := v], env) == Ok(props[k := v])
  {
    var changes := map[k := v];
    assert KeyGitSha1 !in changes && KeyDeployerEmail !in changes && KeyDeployerUsername !in changes;
    assert KeyLockDir !in changes && KeyNextSteps !in changes;
    assert Derive(changes, env) == Ok(changes);
    MergeOne(props, k, v);
  }

  /** One change of DEPLOYER_EMAIL refreshes the username and, from it in
      the same call, the hipchat name, unless the caller set them. */
  lemma EmailFeedsUsernameAndMention(props: Record, changes: Record, env: Env)
    requires KeyDeployerEmail in changes
    requires KeyDeployerUsername !in changes && KeyHipchatName !in changes
    ensures Update(props, changes, env).Ok? ==>
      var r := Update(props, changes, env).value;
      var user := BeforeFirst(changes[KeyDeployerEmail], '@');
      r[KeyDeployerUsername] == user && r[KeyHipchatName] == HipchatName(Some(user), env.directory)
  {
    UpdateDerivedFields(props, changes, env);
  }

  /** The mention derived from DEPLOYER_USERNAME looks the username up in
      a directory keyed by email address; when every known address holds an
      '@' and the username does not, the directory is never consulted and
      the mention is just '@' and the username. */
  lemma MentionFromUsernameIgnoresDirectory(props: Record, changes: Record, env: Env)
    requires KeyDeployerEmail in changes
    requires KeyDeployerUsername !in changes && KeyHipchatName !in changes
    requires forall e :: e in env.directory ==> '@' in e
    ensures Update(props, changes, env).Ok? ==>
      Update(props, changes, env).value[KeyHipchatName] == "@" + BeforeFirst(changes[KeyDeployerEmail], '@')
  {
    EmailFeedsUsernameAndMention(props, changes, env);
    var user := BeforeFirst(changes[KeyDeployerEmail], '@');
    assert '@' !in user;
    assert user !in env.directory;
    assert BeforeFirst(user, '@') == user;
  }

  /** Changing LOCKDIR stamps the acquisition time with the clock, and the
      stamp reads back as that time. */
  lemma LockDirStampsTime(props: Record, changes: Record, env: Env)
    requires KeyLockDir in changes && KeyLockAcquireTime !in changes
    ensures Update(props, changes, env).Ok? ==>
      ParseInt(Update(props, changes, env).value[KeyLockAcquireTime]) == Some(env.now)
  {
    UpdateDerivedFields(props, changes, env);
    ParseIntOfIntToString(env.now);
  }
}
