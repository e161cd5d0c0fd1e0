/**
 Artifact uploads into one project: quotas, content addressing and the record index.
 The index is the append-only record list of the project; each file operation the upload makes may fail.
 */
module Upload {
  import opened Text

  type Bytes = seq<bv8>

  /** Identifiers hold no separators, so the parts of a stored path can be read back from it. */
  datatype Path = Stored(name: string, version: string, sha: string) | Temp(stamp: int)

  type Files = map<Path, Bytes>

  datatype Record = Record(name: string, version: string, path: Path, sha: string)

  datatype Limits = Limits(maxArtifactBytes: int, maxVersionsPerName: int, maxProjectBytes: int)

  datatype Input = Input(
    tenant: string, project: string, name: string, version: string,
    content: Option<Bytes>, expectedSha: string, projectExists: bool, stamp: int)

  datatype Fault =
    | ListFails | TempDirFails | CreateFails | CopyFails | CloseFails | UsageFails
    | FinalDirFails | RenameFails | SummaryFails | PersistFails | FindFails

  datatype Reason = Malformed | Missing | Io | Quota | Conflict | HashMismatch

  datatype Outcome =
    | Uploaded(record: Record)
    | Unread(record: Record)   // recorded, but not read back
    | Unrecorded               // stored, but not recorded
    | Rejected(reason: Reason)

  predicate Recorded(outcome: Outcome) {
    outcome.Uploaded? || outcome.Unread?
  }

  datatype State = State(records: seq<Record>, files: Files)

  const EMPTY := State([], map[])

  // ---- What is recorded ----

  function Versions(records: seq<Record>, name: string): nat {
    if records == [] then 0
    else
      var n := |records| - 1;
      Versions(records[..n], name) + (if records[n].name == name then 1 else 0)
  }

  predicate Taken(records: seq<Record>, name: string, version: string) {
    exists i | 0 <= i < |records| :: records[i].name == name && records[i].version == version
  }

  function Paths(records: seq<Record>): set<Path> {
    set i | 0 <= i < |records| :: records[i].path
  }

  /** Bytes of the recorded files that exist, each path once. */
  function Usage(records: seq<Record>, files: Files): nat {
    if records == [] then 0
    else
      var n := |records| - 1;
      var path := records[n].path;
      Usage(records[..n], files) + (if path in Paths(records[..n]) || path !in files then 0 else |files[path]|)
  }

  // ---- What an upload does ----

  predicate WellFormed(input: Input) {
    && ValidateId(input.tenant).Some? && ValidateId(input.project).Some?
    && ValidateId(input.name).Some? && ValidateId(input.version).Some?
    && input.content.Some?
  }

  function Clean(s: string): string {
    var id := ValidateId(s);
    if id.Some? then id.value else ""
  }

  function FinalPath(input: Input, sha: Bytes -> string): Path
    requires WellFormed(input)
  {
    Stored(Clean(input.name), Clean(input.version), sha(input.content.value))
  }

  predicate ShaAccepted(input: Input, sha: Bytes -> string)
    requires WellFormed(input)
  {
    var expected := TrimSpace(ToLower(input.expectedSha));
    expected == "" || expected == sha(input.content.value)
  }

  predicate WriteFails(faults: set<Fault>) {
    TempDirFails in faults || CreateFails in faults || CopyFails in faults || CloseFails in faults
  }

  /** Why an upload is turned away, if it is, up to storing its content. */
  function Refusal(s: State, input: Input, limits: Limits, faults: set<Fault>, sha: Bytes -> string): Option<Reason> {
    if !WellFormed(input) then Some(Malformed)
    else if !input.projectExists then Some(Missing)
    else if ListFails in faults then Some(Io)
    else if limits.maxVersionsPerName > 0 &&
      Versions(s.records, Clean(input.name)) >= limits.maxVersionsPerName then Some(Quota)
    else if Taken(s.records, Clean(input.name), Clean(input.version)) then Some(Conflict)
    else if WriteFails(faults) then Some(Io)
    else
      var size := |input.content.value|;
      if limits.maxArtifactBytes > 0 && size > limits.maxArtifactBytes then Some(Quota)
      else if limits.maxProjectBytes > 0 && UsageFails in faults then Some(Io)
      else if limits.maxProjectBytes > 0 && Usage(s.records, s.files) + size > limits.maxProjectBytes then Some(Quota)
      else if !ShaAccepted(input, sha) then Some(HashMismatch)
      else if FinalDirFails in faults || (FinalPath(input, sha) !in s.files && RenameFails in faults) then Some(Io)
      else None
  }

  function NewRecord(input: Input, sha: Bytes -> string): Record
    requires WellFormed(input)
  {
    var path := FinalPath(input, sha);
    Record(path.name, path.version, path, path.sha)
  }

  function OutcomeOf(s: State, input: Input, limits: Limits, faults: set<Fault>, sha: Bytes -> string): Outcome {
    var refusal := Refusal(s, input, limits, faults, sha);
    if refusal.Some? then Rejected(refusal.value)
    else if SummaryFails in faults || PersistFails in faults then Unrecorded
    else if FindFails in faults then Unread(NewRecord(input, sha))
    else Uploaded(NewRecord(input, sha))
  }

  /** A rejected upload changes nothing; any other keeps the file already at its path, or puts its own there. */
  function Next(s: State, input: Input, limits: Limits, faults: set<Fault>, sha: Bytes -> string): State {
    var outcome := OutcomeOf(s, input, limits, faults, sha);
    if outcome.Rejected? then s
    else
      var path := FinalPath(input, sha);
      var files := if path in s.files then s.files else s.files[path := input.content.value];
      State(if outcome.Unrecorded? then s.records else s.records + [NewRecord(input, sha)], files)
  }

  /** No temporary file is left, and none is recorded. */
  ghost predicate NoTemps(s: State) {
    && (forall p | p in s.files :: p.Stored?)
    && (forall i | 0 <= i < |s.records| :: s.records[i].path.Stored?)
  }

  lemma TakenSnoc(records: seq<Record>, r: Record, name: string, version: string)
    ensures Taken(records + [r], name, version) <==>
      Taken(records, name, version) || (r.name == name && r.version == version)
  {
    var all := records + [r];
    if Taken(records, name, version) {
      var i :| 0 <= i < |records| && records[i].name == name && records[i].version == version;
      assert all[i] == records[i];
    }
    if Taken(all, name, version) {
      var i :| 0 <= i < |all| && all[i].name == name && all[i].version == version;
      assert i < |records| ==> records[i] == all[i];
    }
    assert all[|records|] == r;
  }

  lemma PathsSnoc(records: seq<Record>, r: Record)
    ensures Paths(records + [r]) == Paths(records) + {r.path}
  {
    var all := records + [r];
    forall p | p in Paths(records) + {r.path}
      ensures p in Paths(all)
    {
      if p in Paths(records) {
        var i :| 0 <= i < |records| && records[i].path == p;
        assert all[i] == records[i];
      } else {
        assert all[|records|] == r;
      }
    }
  }

  /** A file at a path that is not recorded does not count towards the usage. */
  lemma {:induction false} UnrecordedIsNotCounted(records: seq<Record>, files: Files, path: Path, content: Bytes)
    requires path !in Paths(records)
    ensures Usage(records, files[path := content]) == Usage(records, files)
  {
    if records != [] {
      var n := |records| - 1;
      assert records == records[..n] + [records[n]];
      PathsSnoc(records[..n], records[n]);
      UnrecordedIsNotCounted(records[..n], files, path, content);
    }
  }

  lemma NextNoTemps(s: State, input: Input, limits: Limits, faults: set<Fault>, sha: Bytes -> string)
    requires NoTemps(s)
    ensures NoTemps(Next(s, input, limits, faults, sha))
  {
  }

  class Project {
    var records: seq<Record>
    var files: Files

    constructor ()
      ensures records == [] && files == map[]
    {
      records, files := [], map[];
    }

    method ExistingVersions(name: string) returns (existing: seq<Record>)
      ensures |existing| == Versions(records, name)
      ensures forall v :: Taken(existing, name, v) <==> Taken(records, name, v)
    {
      existing := [];
      var i := 0;
      while i < |records|
        invariant i <= |records|
        invariant |existing| == Versions(records[..i], name)
        invariant forall v :: Taken(existing, name, v) <==> Taken(records[..i], name, v)
      {
        assert records[..i + 1][..i] == records[..i];
        ghost var was := existing;
        if records[i].name == name { existing := existing + [records[i]]; }
        forall v
          ensures Taken(existing, name, v) <==> Taken(records[..i + 1], name, v)
        {
          TakenSnoc(records[..i], records[i], name, v);
          TakenSnoc(was, records[i], name, v);
          assert records[..i + 1] == records[..i] + [records[i]];
        }
        i := i + 1;
      }
      assert records[..i] == records;
    }

    method StorageUsage() returns (total: nat)
      ensures total == Usage(records, files)
    {
      total := 0;
      var seen: set<Path> := {};
      var i := 0;
      while i < |records|
        invariant i <= |records|
        invariant seen == Paths(records[..i])
        invariant total == Usage(records[..i], files)
      {
        assert records[..i + 1][..i] == records[..i];
        PathsSnoc(records[..i], records[i]);
        assert records[..i + 1] == records[..i] + [records[i]];
        var path := records[i].path;
        if path !in seen {
          seen := seen + {path};
          if path in files { total := total + |files[path]|; }
        }
        i := i + 1;
      }
      assert records[..i] == records;
    }

    /** The checks before anything is written. */
    method Precheck(input: Input, limits: Limits, faults: set<Fault>) returns (refused: Option<Reason>)
      requires WellFormed(input)
      ensures refused == (
        if !input.projectExists then Some(Missing)
        else if ListFails in faults then Some(Io)
        else if limits.maxVersionsPerName > 0 &&
          Versions(records, Clean(input.name)) >= limits.maxVersionsPerName then Some(Quota)
        else if Taken(records, Clean(input.name), Clean(input.version)) then Some(Conflict)
        else None)
    {
      if !input.projectExists { return Some(Missing); }
      if ListFails in faults { return Some(Io); }
      var existing := ExistingVersions(Clean(input.name));
      if limits.maxVersionsPerName > 0 && |existing| >= limits.maxVersionsPerName { return Some(Quota); }
      if Taken(existing, Clean(input.name), Clean(input.version)) { return Some(Conflict); }
      return None;
    }

    /** Writes the temporary file and settles what becomes of it: removed, or moved to its final path. */
    method Place(input: Input, limits: Limits, faults: set<Fault>,
        sha: Bytes -> string) returns (refused: Option<Reason>)
      requires WellFormed(input) && NoTemps(State(records, files))
      modifies this`files
      ensures refused == (
        if WriteFails(faults) then Some(Io)
        else if limits.maxArtifactBytes > 0 && |input.content.value| > limits.maxArtifactBytes then Some(Quota)
        else if limits.maxProjectBytes > 0 && UsageFails in faults then Some(Io)
        else if limits.maxProjectBytes > 0 &&
          old(Usage(records, files)) + |input.content.value| > limits.maxProjectBytes then Some(Quota)
        else if !ShaAccepted(input, sha) then Some(HashMismatch)
        else if FinalDirFails in faults || (FinalPath(input, sha) !in old(files) && RenameFails in faults) then Some(Io)
        else None)
      ensures files ==
        if refused.Some? || FinalPath(input, sha) in old(files) then old(files)
        else old(files)[FinalPath(input, sha) := input.content.value]
    {
      var temp, content := Temp(input.stamp), input.content.value;
      ghost var was := files;
      if TempDirFails in faults || CreateFails in faults { return Some(Io); }
      files := files[temp := content];
      assert files - {temp} == was;
      if CopyFails in faults || CloseFails in faults { files := files - {temp}; return Some(Io); }
      if limits.maxArtifactBytes > 0 &&
        |content| > limits.maxArtifactBytes { files := files - {temp}; return Some(Quota); }
      if limits.maxProjectBytes > 0 {
        if UsageFails in faults { files := files - {temp}; return Some(Io); }
        var current := StorageUsage();
        UnrecordedIsNotCounted(records, was, temp, content);
        if current + |content| > limits.maxProjectBytes { files := files - {temp}; return Some(Quota); }
      }
      if !ShaAccepted(input, sha) { files := files - {temp}; return Some(HashMismatch); }
      if FinalDirFails in faults { files := files - {temp}; return Some(Io); }
      var path := FinalPath(input, sha);
      if path in files {
        files := files - {temp};
      } else {
        if RenameFails in faults { files := files - {temp}; return Some(Io); }
        files := (files - {temp})[path := content];
      }
      return None;
    }

    method Upload(input: Input, limits: Limits, faults: set<Fault>, sha: Bytes -> string) returns (outcome: Outcome)
      requires NoTemps(State(records, files))
      modifies this
      ensures outcome == OutcomeOf(old(State(records, files)), input, limits, faults, sha)
      ensures State(records, files) == Next(old(State(records, files)), input, limits, faults, sha)
      ensures NoTemps(State(records, files))
    {
      NextNoTemps(State(records, files), input, limits, faults, sha);
      if !WellFormed(input) { return Rejected(Malformed); }
      var refused := Precheck(input, limits, faults);
      if refused.Some? { return Rejected(refused.value); }
      refused := Place(input, limits, faults, sha);
      if refused.Some? { return Rejected(refused.value); }
      if SummaryFails in faults || PersistFails in faults { return Unrecorded; }
      records := records + [NewRecord(input, sha)];
      if FindFails in faults { return Unread(NewRecord(input, sha)); }
      return Uploaded(NewRecord(input, sha));
    }
  }

  // ---- Every sequence of uploads ----

  datatype Attempt = Attempt(input: Input, faults: set<Fault>)

  function After(attempts: seq<Attempt>, limits: Limits, sha: Bytes -> string): State {
    if attempts == [] then EMPTY
    else
      var n := |attempts| - 1;
      Next(After(attempts[..n], limits, sha), attempts[n].input, limits, attempts[n].faults, sha)
  }

  predicate Unique(records: seq<Record>) {
    forall i, j | 0 <= i < j < |records| ::
      records[i].name != records[j].name || records[i].version != records[j].version
  }

  /** A record says where its content is and what it hashes to. */
  predicate Truthful(s: State, r: Record, sha: Bytes -> string) {
    r.path == Stored(r.name, r.version, r.sha) && r.path in s.files && sha(s.files[r.path]) == r.sha
  }

  ghost predicate FilesHashed(files: Files, limits: Limits, sha: Bytes -> string) {
    forall p | p in files ::
      p.Stored? && sha(files[p]) == p.sha && (limits.maxArtifactBytes > 0 ==> |files[p]| <= limits.maxArtifactBytes)
  }

  ghost predicate Inv(s: State, limits: Limits, sha: Bytes -> string) {
    && Unique(s.records)
    && (limits.maxVersionsPerName > 0 ==> forall name :: Versions(s.records, name) <= limits.maxVersionsPerName)
    && (forall i | 0 <= i < |s.records| :: Truthful(s, s.records[i], sha))
    && FilesHashed(s.files, limits, sha)
  }

  lemma NotTakenNotRecorded(s: State, path: Path, sha: Bytes -> string)
    requires forall i | 0 <= i < |s.records| :: Truthful(s, s.records[i], sha)
    requires path.Stored? && !Taken(s.records, path.name, path.version)
    ensures path !in Paths(s.records)
  {
  }

  lemma StepKeepsInv(s: State, input: Input, limits: Limits, faults: set<Fault>, sha: Bytes -> string)
    requires Inv(s, limits, sha)
    ensures Inv(Next(s, input, limits, faults, sha), limits, sha)
  {
    var t := Next(s, input, limits, faults, sha);
    var outcome := OutcomeOf(s, input, limits, faults, sha);
    if !outcome.Rejected? && !outcome.Unrecorded? {
      var r := NewRecord(input, sha);
      assert t.records[..|s.records|] == s.records;
      assert Unique(t.records);
      forall i | 0 <= i < |t.records|
        ensures Truthful(t, t.records[i], sha)
      {
        assert i < |s.records| ==> Truthful(s, s.records[i], sha);
      }
    }
  }

  lemma {:induction false} RunKeepsInv(attempts: seq<Attempt>, limits: Limits, sha: Bytes -> string)
    ensures Inv(After(attempts, limits, sha), limits, sha)
  {
    if attempts != [] {
      var n := |attempts| - 1;
      RunKeepsInv(attempts[..n], limits, sha);
      StepKeepsInv(After(attempts[..n], limits, sha), attempts[n].input, limits, attempts[n].faults, sha);
    }
  }

  /** The versions of a name are its records. */
  lemma {:induction false} VersionsAre(records: seq<Record>, name: string)
    ensures Versions(records, name) == |set i | 0 <= i < |records| && records[i].name == name|
  {
    if records != [] {
      var n := |records| - 1;
      VersionsAre(records[..n], name);
      var before := set i | 0 <= i < n && records[..n][i].name == name;
      assert (set i | 0 <= i < |records| && records[i].name == name)
          == if records[n].name == name then before + {n} else before;
    }
  }

  // ---- The expected hash ----

  function ExpectedSha(input: Input): string {
    TrimSpace(ToLower(input.expectedSha))
  }

  /** An upload that gives a hash is stored only with content of that hash. */
  lemma StoredHashIsExpected(s: State, input: Input, limits: Limits, faults: set<Fault>, sha: Bytes -> string)
    requires ExpectedSha(input) != "" && Refusal(s, input, limits, faults, sha).None?
    ensures sha(input.content.value) == ExpectedSha(input) == FinalPath(input, sha).sha
    ensures var outcome := OutcomeOf(s, input, limits, faults, sha);
      Recorded(outcome) ==> outcome.record.sha == ExpectedSha(input)
  {
  }

  /** What is recorded of an upload: its trimmed names, the hash of its content, and a path made of these. */
  lemma RecordIs(s: State, input: Input, limits: Limits, faults: set<Fault>, sha: Bytes -> string)
    requires Recorded(OutcomeOf(s, input, limits, faults, sha))
    ensures var r := OutcomeOf(s, input, limits, faults, sha).record;
      && r.name == TrimSpace(input.name) && r.version == TrimSpace(input.version)
      && r.sha == sha(input.content.value) && r.path == Stored(r.name, r.version, r.sha)
      && Next(s, input, limits, faults, sha).records == s.records + [r]
  {
  }

  /** The checks before the hash: names, project, versions, sizes, and the operations up to closing the new file. */
  predicate ReachesHash(s: State, input: Input, limits: Limits, faults: set<Fault>) {
    && WellFormed(input) && input.projectExists
    && ListFails !in faults && !WriteFails(faults) && (limits.maxProjectBytes > 0 ==> UsageFails !in faults)
    && !Taken(s.records, Clean(input.name), Clean(input.version))
    && (limits.maxVersionsPerName > 0 ==> Versions(s.records, Clean(input.name)) < limits.maxVersionsPerName)
    && (limits.maxArtifactBytes > 0 ==> |input.content.value| <= limits.maxArtifactBytes)
    && (limits.maxProjectBytes > 0 ==>
        Usage(s.records, s.files) + |input.content.value| <= limits.maxProjectBytes)
  }

  /** A mismatch is reported exactly when an upload gets as far as its hash and gives another one. */
  lemma MismatchExactly(s: State, input: Input, limits: Limits, faults: set<Fault>, sha: Bytes -> string)
    ensures Refusal(s, input, limits, faults, sha) == Some(HashMismatch) <==>
      && ReachesHash(s, input, limits, faults)
      && ExpectedSha(input) != "" && ExpectedSha(input) != sha(input.content.value)
    ensures Refusal(s, input, limits, faults, sha) == Some(HashMismatch) ==> Next(s, input, limits, faults, sha) == s
  {
  }

  /** An upload is stored exactly when it gets past the hash and the file can be put in its place. */
  lemma StoredExactly(s: State, input: Input, limits: Limits, faults: set<Fault>, sha: Bytes -> string)
    ensures Refusal(s, input, limits, faults, sha).None? <==>
      && ReachesHash(s, input, limits, faults)
      && (ExpectedSha(input) == "" || ExpectedSha(input) == sha(input.content.value))
      && FinalDirFails !in faults && (FinalPath(input, sha) in s.files || RenameFails !in faults)
  {
  }

  /** The hash may be given in upper case and padded. */
  lemma HashSpelling(input: Input, sha: Bytes -> string, pre: string, post: string)
    requires WellFormed(input) && AllSpace(pre) && AllSpace(post)
    requires var h := sha(input.content.value);
      IsTrimmed(h) && ToLower(h) == h && input.expectedSha == pre + ToUpper(h) + post
    ensures ShaAccepted(input, sha)
  {
    var h := sha(input.content.value);
    assert AllSpace(ToLower(pre)) && AllSpace(ToLower(post));
    assert ToLower(pre + ToUpper(h) + post) == ToLower(pre) + ToLower(ToUpper(h)) + ToLower(post);
    assert ToLower(ToUpper(h)) == ToLower(h);
    TrimPadded(ToLower(pre), h, ToLower(post));
  }

  // ---- The storage quota ----

  predicate WithinQuota(s: State, limits: Limits) {
    limits.maxProjectBytes > 0 ==> Usage(s.records, s.files) <= limits.maxProjectBytes
  }

  lemma UsageSnoc(records: seq<Record>, r: Record, files: Files)
    requires r.path in files && r.path !in Paths(records)
    ensures Usage(records + [r], files) == Usage(records, files) + |files[r.path]|
  {
    assert (records + [r])[..|records|] == records;
  }

  lemma KeptBytes(s: State, r: Record, content: Bytes)
    requires r.path !in Paths(s.records)
    ensures var files := if r.path in s.files then s.files else s.files[r.path := content];
      && Usage(s.records, files) == Usage(s.records, s.files)
      && Usage(s.records + [r], files) == Usage(s.records, s.files) + |files[r.path]|
  {
    var files := if r.path in s.files then s.files else s.files[r.path := content];
    if r.path !in s.files { UnrecordedIsNotCounted(s.records, s.files, r.path, content); }
    UsageSnoc(s.records, r, files);
  }

  /** What a recorded upload adds to the usage is the size of the file at its path. */
  lemma RecordedBytes(s: State, input: Input, limits: Limits, faults: set<Fault>, sha: Bytes -> string)
    requires Inv(s, limits, sha)
    ensures var t, outcome := Next(s, input, limits, faults, sha), OutcomeOf(s, input, limits, faults, sha);
      Usage(t.records, t.files) == Usage(s.records, s.files)
        + (if Recorded(outcome) then |t.files[FinalPath(input, sha)]| else 0)
  {
    if !OutcomeOf(s, input, limits, faults, sha).Rejected? {
      NotTakenNotRecorded(s, FinalPath(input, sha), sha);
      KeptBytes(s, NewRecord(input, sha), input.content.value);
    }
  }

  lemma RecordedFits(s: State, input: Input, limits: Limits, faults: set<Fault>, sha: Bytes -> string)
    requires limits.maxProjectBytes > 0 && Recorded(OutcomeOf(s, input, limits, faults, sha))
    ensures WellFormed(input) && Usage(s.records, s.files) + |input.content.value| <= limits.maxProjectBytes
    ensures var path, t := FinalPath(input, sha), Next(s, input, limits, faults, sha);
      path in t.files && t.files[path] == if path in s.files then s.files[path] else input.content.value
  {
  }

  /** So the usage stays within the quota exactly when it has room for the file that is kept at the path. */
  lemma StepQuotaExactly(s: State, input: Input, limits: Limits, faults: set<Fault>, sha: Bytes -> string)
    requires Inv(s, limits, sha) && WithinQuota(s, limits) && limits.maxProjectBytes > 0
    ensures WithinQuota(Next(s, input, limits, faults, sha), limits) <==>
      !(&& Refusal(s, input, limits, faults, sha).None? && SummaryFails !in faults && PersistFails !in faults
        && FinalPath(input, sha) in s.files
        && Usage(s.records, s.files) + |s.files[FinalPath(input, sha)]| > limits.maxProjectBytes)
  {
    RecordedBytes(s, input, limits, faults, sha);
    if Recorded(OutcomeOf(s, input, limits, faults, sha)) { RecordedFits(s, input, limits, faults, sha); }
  }

  /** Every stored file is the content of some upload of the run. */
  ghost predicate FromRun(files: Files, attempts: seq<Attempt>) {
    forall p | p in files :: exists i :: 0 <= i < |attempts| && attempts[i].input.content == Some(files[p])
  }

  /** Contents of the run that hash alike are equally long. */
  ghost predicate NoLengthCollision(attempts: seq<Attempt>, sha: Bytes -> string) {
    forall i, j | 0 <= i < |attempts| && 0 <= j < |attempts| && Collide(attempts[i].input, attempts[j].input, sha) ::
      |attempts[i].input.content.value| == |attempts[j].input.content.value|
  }

  predicate Collide(a: Input, b: Input, sha: Bytes -> string) {
    a.content.Some? && b.content.Some? && sha(a.content.value) == sha(b.content.value)
  }

  lemma {:induction false} StoredFromRun(attempts: seq<Attempt>, limits: Limits, sha: Bytes -> string)
    ensures FromRun(After(attempts, limits, sha).files, attempts)
  {
    if attempts != [] {
      var n := |attempts| - 1;
      StoredFromRun(attempts[..n], limits, sha);
      var before, after := After(attempts[..n], limits, sha).files, After(attempts, limits, sha).files;
      forall p | p in after
        ensures exists i :: 0 <= i < |attempts| && attempts[i].input.content == Some(after[p])
      {
        if p in before {
          var i :| 0 <= i < n && attempts[..n][i].input.content == Some(before[p]);
          assert attempts[i] == attempts[..n][i];
        } else {
          assert attempts[n].input.content == Some(after[p]);
        }
      }
    }
  }

  lemma SameLength(attempts: seq<Attempt>, s: State, limits: Limits, sha: Bytes -> string)
    requires attempts != [] && NoLengthCollision(attempts, sha)
    requires s == After(attempts[..|attempts| - 1], limits, sha)
    requires WellFormed(attempts[|attempts| - 1].input) && FinalPath(attempts[|attempts| - 1].input, sha) in s.files
    ensures |s.files[FinalPath(attempts[|attempts| - 1].input, sha)]| == |attempts[|attempts| - 1].input.content.value|
  {
    var n := |attempts| - 1;
    var path := FinalPath(attempts[n].input, sha);
    RunKeepsInv(attempts[..n], limits, sha);
    StoredFromRun(attempts[..n], limits, sha);
    var i :| 0 <= i < n && attempts[..n][i].input.content == Some(s.files[path]);
    assert attempts[i] == attempts[..n][i];
    assert Collide(attempts[i].input, attempts[n].input, sha);
  }

  lemma StepKeepsQuota(s: State, input: Input, limits: Limits, faults: set<Fault>, sha: Bytes -> string)
    requires Inv(s, limits, sha) && WithinQuota(s, limits)
    requires WellFormed(input) && FinalPath(input, sha) in s.files ==>
      |s.files[FinalPath(input, sha)]| == |input.content.value|
    ensures WithinQuota(Next(s, input, limits, faults, sha), limits)
  {
    RecordedBytes(s, input, limits, faults, sha);
    if limits.maxProjectBytes > 0 && Recorded(OutcomeOf(s, input, limits, faults, sha)) {
      RecordedFits(s, input, limits, faults, sha);
    }
  }

  lemma ShorterRun(attempts: seq<Attempt>, sha: Bytes -> string, n: nat)
    requires NoLengthCollision(attempts, sha) && n <= |attempts|
    ensures NoLengthCollision(attempts[..n], sha)
  {
    assert forall i | 0 <= i < n :: attempts[..n][i] == attempts[i];
  }

  /** The recorded bytes of a run stay within the quota, unless two of its contents hash alike and differ in length. */
  lemma {:induction false} RunKeepsQuota(attempts: seq<Attempt>, limits: Limits, sha: Bytes -> string)
    requires NoLengthCollision(attempts, sha)
    ensures WithinQuota(After(attempts, limits, sha), limits)
  {
    if attempts != [] {
      var n := |attempts| - 1;
      var s, input := After(attempts[..n], limits, sha), attempts[n].input;
      ShorterRun(attempts, sha, n);
      RunKeepsInv(attempts[..n], limits, sha);
      RunKeepsQuota(attempts[..n], limits, sha);
      if WellFormed(input) && FinalPath(input, sha) in s.files { SameLength(attempts, s, limits, sha); }
      StepKeepsQuota(s, input, limits, attempts[n].faults, sha);
    }
  }

  // ---- Bytes on disk ----

  /** The bytes of all files. */
  ghost function StoredBytes(files: Files): nat
    decreases |files|
  {
    if files == map[] then 0
    else
      var p :| p in files;
      assert |files - {p}| < |files| by { Smaller(files, p); }
      |files[p]| + StoredBytes(files - {p})
  }

  lemma Smaller(files: Files, p: Path)
    requires p in files
    ensures |files - {p}| < |files|
  {
    assert (files - {p}).Keys == files.Keys - {p};
    assert |files - {p}| == |(files - {p}).Keys| && |files| == |files.Keys|;
  }

  lemma {:induction false} StoredBytesWithout(files: Files, p: Path)
    requires p in files
    ensures StoredBytes(files) == |files[p]| + StoredBytes(files - {p})
    decreases |files|
  {
    var q :| q in files && StoredBytes(files) == |files[q]| + StoredBytes(files - {q});
    if q != p {
      Smaller(files, q);
      Smaller(files, p);
      StoredBytesWithout(files - {q}, p);
      StoredBytesWithout(files - {p}, q);
      assert files - {q} - {p} == files - {p} - {q};
    }
  }

  /** What is on disk is what the usage counts and the files without a record. */
  lemma {:induction false} StoredIsUsageAndOrphans(records: seq<Record>, files: Files)
    ensures StoredBytes(files) == Usage(records, files) + StoredBytes(files - Paths(records))
  {
    if records == [] {
      assert files - Paths(records) == files;
    } else {
      var n := |records| - 1;
      var init, path := records[..n], records[n].path;
      StoredIsUsageAndOrphans(init, files);
      assert records == init + [records[n]];
      PathsSnoc(init, records[n]);
      assert files - Paths(records) == files - Paths(init) - {path};
      if path in files && path !in Paths(init) {
        StoredBytesWithout(files - Paths(init), path);
      } else {
        assert files - Paths(records) == files - Paths(init);
      }
    }
  }

  // ---- Files without a record ----

  ghost predicate NoOrphans(s: State) {
    forall p | p in s.files :: p in Paths(s.records)
  }

  lemma UsageIsStored(s: State)
    requires NoOrphans(s)
    ensures StoredBytes(s.files) == Usage(s.records, s.files)
  {
    StoredIsUsageAndOrphans(s.records, s.files);
    assert s.files - Paths(s.records) == map[];
  }

  /** The paths of files without a record. */
  function Orphans(s: State): set<Path> {
    s.files.Keys - Paths(s.records)
  }

  /**
   What an upload does to the files without a record: one that nothing refuses leaves its path among them when writing
   the summary or the record fails, and takes it from them otherwise; any other upload changes nothing.
   */
  lemma OrphansExactly(s: State, input: Input, limits: Limits, faults: set<Fault>, sha: Bytes -> string)
    requires Inv(s, limits, sha)
    ensures Orphans(Next(s, input, limits, faults, sha)) ==
      if Refusal(s, input, limits, faults, sha).Some? then Orphans(s)
      else if SummaryFails in faults || PersistFails in faults then Orphans(s) + {FinalPath(input, sha)}
      else Orphans(s) - {FinalPath(input, sha)}
  {
    if Refusal(s, input, limits, faults, sha).None? {
      NotTakenNotRecorded(s, FinalPath(input, sha), sha);
      PathsSnoc(s.records, NewRecord(input, sha));
    }
  }

  lemma CleanStep(s: State, input: Input, limits: Limits, faults: set<Fault>, sha: Bytes -> string)
    requires Inv(s, limits, sha) && NoOrphans(s) && WithinQuota(s, limits)
    requires SummaryFails !in faults && PersistFails !in faults
    ensures NoOrphans(Next(s, input, limits, faults, sha)) && WithinQuota(Next(s, input, limits, faults, sha), limits)
  {
    OrphansExactly(s, input, limits, faults, sha);
    assert Orphans(s) == {};
    assert Orphans(Next(s, input, limits, faults, sha)) == {};
    if !OutcomeOf(s, input, limits, faults, sha).Rejected? { NotTakenNotRecorded(s, FinalPath(input, sha), sha); }
    if limits.maxProjectBytes > 0 { StepQuotaExactly(s, input, limits, faults, sha); }
  }

  lemma {:induction false} CleanRun(attempts: seq<Attempt>, limits: Limits, sha: Bytes -> string)
    requires forall i | 0 <= i < |attempts| ::
      SummaryFails !in attempts[i].faults && PersistFails !in attempts[i].faults
    ensures NoOrphans(After(attempts, limits, sha)) && WithinQuota(After(attempts, limits, sha), limits)
  {
    if attempts != [] {
      var n := |attempts| - 1;
      RunKeepsInv(attempts[..n], limits, sha);
      CleanRun(attempts[..n], limits, sha);
      CleanStep(After(attempts[..n], limits, sha), attempts[n].input, limits, attempts[n].faults, sha);
    }
  }

  /** While no upload fails after storing its content, the bytes on disk are within the quota, whatever the hash. */
  lemma CleanRunKeepsQuota(attempts: seq<Attempt>, limits: Limits, sha: Bytes -> string)
    requires forall i | 0 <= i < |attempts| ::
      SummaryFails !in attempts[i].faults && PersistFails !in attempts[i].faults
    requires limits.maxProjectBytes > 0
    ensures StoredBytes(After(attempts, limits, sha).files) <= limits.maxProjectBytes
  {
    CleanRun(attempts, limits, sha);
    UsageIsStored(After(attempts, limits, sha));
  }

  // ---- The limit and the bytes on disk ----

  lemma StoredBytesWith(files: Files, p: Path, content: Bytes)
    requires p !in files
    ensures StoredBytes(files[p := content]) == StoredBytes(files) + |content|
  {
    StoredBytesWithout(files[p := content], p);
    assert files[p := content] - {p} == files;
  }

  /** An upload puts a new file on disk: nothing refuses it and there is none at its path. */
  predicate AddsFile(s: State, input: Input, limits: Limits, faults: set<Fault>, sha: Bytes -> string) {
    Refusal(s, input, limits, faults, sha).None? && FinalPath(input, sha) !in s.files
  }

  /** What an upload adds to the bytes on disk, whether or not it is recorded. */
  lemma DiskGrowsBy(s: State, input: Input, limits: Limits, faults: set<Fault>, sha: Bytes -> string)
    ensures StoredBytes(Next(s, input, limits, faults, sha).files) ==
      StoredBytes(s.files) + if AddsFile(s, input, limits, faults, sha) then |input.content.value| else 0
  {
    if AddsFile(s, input, limits, faults, sha) {
      StoredBytesWith(s.files, FinalPath(input, sha), input.content.value);
    }
  }

  /** An upload adds a file that the recorded files and those without a record leave no room for. */
  ghost predicate Overfills(s: State, input: Input, limits: Limits, faults: set<Fault>, sha: Bytes -> string) {
    && AddsFile(s, input, limits, faults, sha)
    && Usage(s.records, s.files) + StoredBytes(s.files - Paths(s.records)) + |input.content.value|
       > limits.maxProjectBytes
  }

  /** From within the limit, the bytes on disk pass it exactly so. */
  lemma DiskPassesLimitExactly(s: State, input: Input, limits: Limits, faults: set<Fault>, sha: Bytes -> string)
    requires 0 < limits.maxProjectBytes && StoredBytes(s.files) <= limits.maxProjectBytes
    ensures StoredBytes(Next(s, input, limits, faults, sha).files) > limits.maxProjectBytes <==>
      Overfills(s, input, limits, faults, sha)
  {
    DiskGrowsBy(s, input, limits, faults, sha);
    StoredIsUsageAndOrphans(s.records, s.files);
  }

  /** Upload `i` of a run overfills the project as it finds it. */
  ghost predicate OverfillsAt(attempts: seq<Attempt>, i: nat, limits: Limits, sha: Bytes -> string)
    requires i < |attempts|
  {
    Overfills(After(attempts[..i], limits, sha), attempts[i].input, limits, attempts[i].faults, sha)
  }

  /** The bytes on disk after the first `n` uploads are past the limit. */
  ghost predicate PastLimit(attempts: seq<Attempt>, n: nat, limits: Limits, sha: Bytes -> string)
    requires n <= |attempts|
  {
    StoredBytes(After(attempts[..n], limits, sha).files) > limits.maxProjectBytes
  }

  lemma NextPastLimit(attempts: seq<Attempt>, n: nat, limits: Limits, sha: Bytes -> string)
    requires 0 < limits.maxProjectBytes && n < |attempts|
    ensures PastLimit(attempts, n + 1, limits, sha) <==>
      PastLimit(attempts, n, limits, sha) || OverfillsAt(attempts, n, limits, sha)
  {
    assert attempts[..n + 1][..n] == attempts[..n];
    var s := After(attempts[..n], limits, sha);
    DiskGrowsBy(s, attempts[n].input, limits, attempts[n].faults, sha);
    StoredIsUsageAndOrphans(s.records, s.files);
  }

  lemma NoneFirst(attempts: seq<Attempt>, limits: Limits, sha: Bytes -> string)
    requires 0 < limits.maxProjectBytes
    ensures !PastLimit(attempts, 0, limits, sha)
  {
    assert attempts[..0] == [];
  }

  /** What is false at first and becomes true for good at each `over` is true after `n` exactly when there was one. */
  lemma {:induction false} CrossesExactly(past: nat -> bool, over: nat -> bool, n: nat)
    requires !past(0) && forall k: nat | k < n :: past(k + 1) <==> past(k) || over(k)
    ensures past(n) <==> exists i: nat :: i < n && over(i)
  {
    if n > 0 {
      var last: nat := n - 1;
      CrossesExactly(past, over, last);
      assert past(last + 1) <==> past(last) || over(last);
    }
  }

  /** After `n` uploads the disk holds more bytes than the limit exactly when one of them overfilled the project. */
  lemma RunPassesLimitExactly(attempts: seq<Attempt>, n: nat, limits: Limits, sha: Bytes -> string)
    requires 0 < limits.maxProjectBytes && n <= |attempts|
    ensures PastLimit(attempts, n, limits, sha) <==> exists i: nat :: i < n && OverfillsAt(attempts, i, limits, sha)
  {
    ghost var past: nat -> bool := (k: nat) => k <= |attempts| && PastLimit(attempts, k, limits, sha);
    ghost var over: nat -> bool := (k: nat) => k < |attempts| && OverfillsAt(attempts, k, limits, sha);
    NoneFirst(attempts, limits, sha);
    forall k: nat | k < n
      ensures past(k + 1) <==> past(k) || over(k)
    {
      NextPastLimit(attempts, k, limits, sha);
    }
    CrossesExactly(past, over, n);
    assert forall i: nat | i < n :: over(i) <==> OverfillsAt(attempts, i, limits, sha);
  }

  // ---- Where the quota fails ----

  function Probe(version: string, content: Bytes): Input {
    Input("t", "p", "probe", version, Some(content), "", true, 0)
  }

  function PersistFault(fails: bool): set<Fault> {
    if fails then {PersistFails} else {}
  }

  lemma ProbeNotRefused(s: State, version: string, content: Bytes, limit: int, fails: bool, sha: Bytes -> string)
    requires IsIdentifier(version) && !Taken(s.records, "probe", version) &&
      Usage(s.records, s.files) + |content| <= limit
    ensures Refusal(s, Probe(version, content), Limits(0, 0, limit), PersistFault(fails), sha) == None
    ensures WellFormed(Probe(version, content))
    ensures FinalPath(Probe(version, content), sha) == Stored("probe", version, sha(content))
  {
    assert IsIdentifier("t") && IsIdentifier("p") && IsIdentifier("probe");
    assert ToLower("") == "" && TrimSpace("") == "";
  }

  /** An upload with room left: its file is kept unless one is there, and recorded unless that fails. */
  lemma ProbeStored(s: State, version: string, content: Bytes, limit: int, fails: bool, sha: Bytes -> string)
    requires IsIdentifier(version) && !Taken(s.records, "probe", version) &&
      Usage(s.records, s.files) + |content| <= limit
    ensures var path := Stored("probe", version, sha(content));
      Next(s, Probe(version, content), Limits(0, 0, limit), PersistFault(fails), sha) == State(
        if fails then s.records else s.records + [Record("probe", version, path, sha(content))],
        if path in s.files then s.files else s.files[path := content])
  {
    ProbeNotRefused(s, version, content, limit, fails, sha);
  }

  lemma TwoBytesOnDisk(sha: Bytes -> string)
    ensures StoredBytes(map[Stored("probe", "1", sha([0])) := [0], Stored("probe", "2", sha([0])) := [0]]) == 2
  {
    var p, q := Stored("probe", "1", sha([0])), Stored("probe", "2", sha([0]));
    var both: Files, one: Files := map[p := [0], q := [0]], map[q := [0]];
    StoredBytesWithout(both, p);
    StoredBytesWithout(one, q);
    assert both - {p} == one && one - {q} == map[];
  }

  /**
   Files without a record escape the quota: with room for one byte, a failed upload and one more, failed or not, leave
   two bytes on disk.
   */
  lemma OrphansEscapeQuota(sha: Bytes -> string, fails: bool)
    ensures var limits := Limits(0, 0, 1);
      var a, b := Attempt(Probe("1", [0]), {PersistFails}), Attempt(Probe("2", [0]), PersistFault(fails));
      var s := After([a] + [b], limits, sha);
      StoredBytes(s.files) == 2 > limits.maxProjectBytes && Usage(s.records, s.files) == if fails then 0 else 1
  {
    var limits, a := Limits(0, 0, 1), Attempt(Probe("1", [0]), {PersistFails});
    var one := State([], map[Stored("probe", "1", sha([0])) := [0]]);
    assert [] + [a] == [a];
    AfterSnoc([], a, limits, sha);
    ProbeStored(EMPTY, "1", [0], 1, true, sha);
    AfterSnoc([a], Attempt(Probe("2", [0]), PersistFault(fails)), limits, sha);
    SecondByte(sha, one, fails);
  }

  lemma SecondByte(sha: Bytes -> string, one: State, fails: bool)
    requires one == State([], map[Stored("probe", "1", sha([0])) := [0]])
    ensures var s := Next(one, Probe("2", [0]), Limits(0, 0, 1), PersistFault(fails), sha);
      StoredBytes(s.files) == 2 && Usage(s.records, s.files) == if fails then 0 else 1
  {
    var p, q := Stored("probe", "1", sha([0])), Stored("probe", "2", sha([0]));
    ProbeStored(one, "2", [0], 1, fails, sha);
    TwoBytesOnDisk(sha);
    assert one.files[q := [0]] == map[p := [0], q := [0]];
    if !fails { UsageSnoc([], Record("probe", "2", q, sha([0])), map[p := [0], q := [0]]); }
  }

  lemma AfterSnoc(attempts: seq<Attempt>, a: Attempt, limits: Limits, sha: Bytes -> string)
    ensures After(attempts + [a], limits, sha) == Next(After(attempts, limits, sha), a.input, limits, a.faults, sha)
  {
    assert (attempts + [a])[..|attempts|] == attempts;
  }

  /** A two-byte file without a record, and one recorded byte beside it. */
  function BesideOrphan(h: string): State {
    State([] + [Record("probe", "2", Stored("probe", "2", h), h)],
          map[Stored("probe", "1", h) := [0, 0], Stored("probe", "2", h) := [0]])
  }

  function OrphanThenRecord(): seq<Attempt> {
    [Attempt(Probe("1", [0, 0]), {PersistFails})] + [Attempt(Probe("2", [0]), {})]
  }

  lemma BesideOrphanReached(sha: Bytes -> string)
    requires sha([0, 0]) == sha([0])
    ensures After(OrphanThenRecord(), Limits(0, 0, 2), sha) == BesideOrphan(sha([0]))
  {
    var limits, a := Limits(0, 0, 2), Attempt(Probe("1", [0, 0]), {PersistFails});
    assert [] + [a] == [a];
    AfterSnoc([], a, limits, sha);
    ProbeStored(EMPTY, "1", [0, 0], 2, true, sha);
    AfterSnoc([a], Attempt(Probe("2", [0]), {}), limits, sha);
    ProbeStored(State([], map[Stored("probe", "1", sha([0])) := [0, 0]]), "2", [0], 2, false, sha);
  }

  /**
   With a hash on which two contents of different length collide, recorded bytes too can pass the quota: three for two.
   */
  lemma CollisionPassesQuota(sha: Bytes -> string)
    requires sha([0, 0]) == sha([0])
    ensures var limits := Limits(0, 0, 2);
      var s := After(OrphanThenRecord() + [Attempt(Probe("1", [0]), {})], limits, sha);
      Usage(s.records, s.files) == 3 > limits.maxProjectBytes
  {
    BesideOrphanReached(sha);
    AfterSnoc(OrphanThenRecord(), Attempt(Probe("1", [0]), {}), Limits(0, 0, 2), sha);
    BesideOrphanUsage(sha([0]));
    TwoMore(BesideOrphan(sha([0])), sha);
  }

  lemma BesideOrphanUsage(h: string)
    ensures var s := BesideOrphan(h);
      Usage(s.records, s.files) == 1 && !Taken(s.records, "probe", "1") && Stored("probe", "1", h) !in Paths(s.records)
  {
    UsageSnoc([], Record("probe", "2", Stored("probe", "2", h), h), BesideOrphan(h).files);
  }

  /** Recording one byte at the path of a two-byte file adds two bytes to the usage. */
  lemma TwoMore(s: State, sha: Bytes -> string)
    requires Usage(s.records, s.files) == 1 && !Taken(s.records, "probe", "1")
    requires var p := Stored("probe", "1", sha([0])); p !in Paths(s.records) && p in s.files && |s.files[p]| == 2
    ensures var t := Next(s, Probe("1", [0]), Limits(0, 0, 2), {}, sha); Usage(t.records, t.files) == 3
  {
    var h := sha([0]);
    ProbeStored(s, "1", [0], 2, false, sha);
    UsageSnoc(s.records, Record("probe", "1", Stored("probe", "1", h), h), s.files);
  }
}
